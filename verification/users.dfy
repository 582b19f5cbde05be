/** User accounts (`UserService`): sign-up with its wallet in one store
    transaction, lookups that strip the password, and the refresh-token
    update. Password and token hashing is the uninterpreted function `hash`. */
module Users {
  import opened Wrappers
  import opened Sorting
  import opened Store
  import opened VirtualAccounts
  import opened Wallets

  const EMAIL_IN_USE := "Email already in use"
  const CREATE_FAILED := "Failed to create user account. Please try again."

  /** The sign-up request. */
  datatype CreateUserDto = CreateUserDto(email: string, password: string, firstName: string, lastName: string)

  /** A user as the service returns it: every column but the password. */
  datatype PublicUser = PublicUser(
    id: string,
    email: string,
    firstName: string,
    lastName: string,
    refreshToken: Option<string>)

  function WithoutPassword(u: User): (p: PublicUser)
    ensures p.id == u.id && p.email == u.email
    ensures p.firstName == u.firstName && p.lastName == u.lastName && p.refreshToken == u.refreshToken
  {
    PublicUser(u.id, u.email, u.firstName, u.lastName, u.refreshToken)
  }

  /** What is returned does not depend on the stored password, so it
      reveals nothing about it. */
  lemma WithoutPasswordForgets(u: User, password: string)
    ensures WithoutPassword(u.(password := password)) == WithoutPassword(u)
  {
  }

  /** The row `user.create` writes: the request's fields with the password
      replaced by its hash, and no refresh token. */
  function NewUser(userId: string, dto: CreateUserDto, hash: string -> string): (u: User)
    ensures u.id == userId && u.email == dto.email && u.password == hash(dto.password)
    ensures u.firstName == dto.firstName && u.lastName == dto.lastName && u.refreshToken.None?
  {
    User(userId, dto.email, hash(dto.password), dto.firstName, dto.lastName, None)
  }

  /** The body of the sign-up transaction: the user row, then the wallet. */
  function SignUpBody(db: Db, u: User, ids: WalletIds, now: nat, oracle: seq<Attempt>): (r: Result<(User, Db), Error>)
    requires |ids.balanceIds| == |DEFAULT_CURRENCIES| && |oracle| == 1 + MAX_RETRIES
    ensures r.Failure? ==> !r.error.Conflict?
    ensures r.Success? ==>
      && r.value.0 == u
      && ProviderDelivers(oracle)
      && r.value.1 == Provisioned(db.(users := db.users + [u]), u, ids, now, oracle)
    ensures r.Success? && Valid(db) ==> Valid(r.value.1)
  {
    match InsertUser(db, u)
    case Failure(fault) => Failure(Storage(fault))
    case Success(db1) =>
      match CreateUserWalletWithTransaction(db1, u, ids, now, oracle)
      case Failure(e) => Failure(e)
      case Success((_, db2)) => Success((u, db2))
  }

  /** `createUser`: Conflict for a taken email before anything is written;
      otherwise the user and the wallet in one transaction, where a Conflict
      is passed on and every other error becomes one InternalServerError. */
  function CreateUser(
    db: Db, dto: CreateUserDto, hash: string -> string, userId: string, ids: WalletIds, now: nat, oracle: seq<Attempt>)
    : (s: Step<PublicUser>)
    requires |ids.balanceIds| == |DEFAULT_CURRENCIES| && |oracle| == 1 + MAX_RETRIES
    ensures UserByEmail(db, dto.email).Some? ==> s == Step(db, Failure(Conflict(EMAIL_IN_USE)))
    ensures s.result.Failure? ==> s.db == db
    ensures s.result.Failure? ==>
      || (s.result.error == Conflict(EMAIL_IN_USE) && UserByEmail(db, dto.email).Some?)
      || s.result.error == InternalServerError(CREATE_FAILED)
    ensures s.result.Success? ==>
      var u := NewUser(userId, dto, hash);
      && UserByEmail(db, dto.email).None?
      && s.result.value == WithoutPassword(u)
      && ProviderDelivers(oracle)
      && s.db == Provisioned(db.(users := db.users + [u]), u, ids, now, oracle)
    ensures Valid(db) ==> Valid(s.db)
  {
    if UserByEmail(db, dto.email).Some? then Step(db, Failure(Conflict(EMAIL_IN_USE)))
    else
      var s := RunTransaction(db, SignUpBody(db, NewUser(userId, dto, hash), ids, now, oracle));
      match s.result
      case Success(u) => Step(s.db, Success(WithoutPassword(u)))
      case Failure(e) => Step(s.db, Failure(if e.Conflict? then e else InternalServerError(CREATE_FAILED)))
  }

  /** When the provider never answers, sign-up fails with the generic error
      and the store is as it was: no user, wallet, balance or account row. */
  lemma SignUpRollsBackOnProviderFailure(
    db: Db, dto: CreateUserDto, hash: string -> string, userId: string, ids: WalletIds, now: nat, oracle: seq<Attempt>)
    requires |ids.balanceIds| == |DEFAULT_CURRENCIES| && |oracle| == 1 + MAX_RETRIES
    requires UserByEmail(db, dto.email).None?
    requires forall j :: 0 <= j < |oracle| ==> oracle[j].Errored?
    ensures CreateUser(db, dto, hash, userId, ids, now, oracle) == Step(db, Failure(InternalServerError(CREATE_FAILED)))
  {
    assert !ProviderDelivers(oracle) by {
      assert CallWithRetry(oracle).outcome.Failure?;
    }
  }

  /** Provisioning cannot succeed when every provider attempt errors. */
  lemma ProviderFailureFailsProvisioning(db: Db, user: User, ids: WalletIds, now: nat, oracle: seq<Attempt>)
    requires |ids.balanceIds| == |DEFAULT_CURRENCIES| && |oracle| == 1 + MAX_RETRIES
    requires forall j :: 0 <= j < |oracle| ==> oracle[j].Errored?
    ensures CreateUserWalletWithTransaction(db, user, ids, now, oracle).Failure?
  {
    assert CallWithRetry(oracle).outcome.Failure?;
  }

  /** On a consistent store, sign-up succeeds exactly when the email and
      the user id are free, the wallet, balance and account ids are fresh,
      and the first response the provider delivers validates. */
  lemma SignUpSucceeds(
    db: Db, dto: CreateUserDto, hash: string -> string, userId: string, ids: WalletIds, now: nat, oracle: seq<Attempt>)
    requires |ids.balanceIds| == |DEFAULT_CURRENCIES| && |oracle| == 1 + MAX_RETRIES
    requires Valid(db)
    ensures CreateUser(db, dto, hash, userId, ids, now, oracle).result.Success? <==>
      && UserByEmail(db, dto.email).None?
      && !HasUser(db, userId)
      && FreshWalletIds(db, ids)
      && ProviderDelivers(oracle)
  {
    var u := NewUser(userId, dto, hash);
    assert KeyFree(db.users, UserId, userId) <==> !HasUser(db, userId);
    if UserByEmail(db, dto.email).None? && !HasUser(db, userId) {
      var db1 := InsertUser(db, u).value;
      NewUserOwnsNoWallet(db, userId);
      assert HasUser(db1, userId) by {
        assert db1.users[|db.users|] == u;
      }
      ProvisioningSucceeds(db1, u, ids, now, oracle);
    }
  }

  /** On a consistent store an id that is no user's owns no wallet. */
  lemma NewUserOwnsNoWallet(db: Db, userId: string)
    requires Valid(db) && !HasUser(db, userId)
    ensures KeyFree(db.wallets, WalletOwner, userId)
  {
    forall k | 0 <= k < |db.wallets| ensures db.wallets[k].userId != userId {
      assert HasUser(db, db.wallets[k].userId);
    }
  }

  /** On a new, empty store the first sign-up depends only on the provider:
      it succeeds exactly when the provider delivers a usable account and the
      balance ids are distinct. */
  lemma FirstSignUp(dto: CreateUserDto, hash: string -> string, userId: string, ids: WalletIds, now: nat, oracle: seq<Attempt>)
    requires |ids.balanceIds| == |DEFAULT_CURRENCIES| && |oracle| == 1 + MAX_RETRIES
    ensures CreateUser(EmptyDb, dto, hash, userId, ids, now, oracle).result.Success? <==>
      Distinct(ids.balanceIds) && ProviderDelivers(oracle)
  {
    EmptyDbValid();
    SignUpSucceeds(EmptyDb, dto, hash, userId, ids, now, oracle);
  }

  /** Two failed provider attempts and then a valid response: sign-up with
      a free email and fresh ids succeeds. */
  lemma SignUpAfterTwoFailures(
    db: Db, dto: CreateUserDto, hash: string -> string, userId: string, ids: WalletIds, now: nat,
    e1: TransportError, e2: TransportError, body: ResponseBody, tail: Attempt)
    requires |ids.balanceIds| == |DEFAULT_CURRENCIES| && Valid(db)
    requires UserByEmail(db, dto.email).None? && !HasUser(db, userId) && FreshWalletIds(db, ids)
    requires ValidData(Some(body)).Some?
    ensures CreateUser(db, dto, hash, userId, ids, now, [Errored(e1), Errored(e2), Responded(Some(body)), tail]).result.Success?
  {
    TwoFailuresThenSuccess(e1, e2, Some(body), tail);
    SignUpSucceeds(db, dto, hash, userId, ids, now, [Errored(e1), Errored(e2), Responded(Some(body)), tail]);
  }

  /** `findByEmail`. */
  function FindByEmail(db: Db, email: string): (r: Option<User>)
    ensures r.None? <==> forall i :: 0 <= i < |db.users| ==> db.users[i].email != email
    ensures r.Some? ==> r.value in db.users && r.value.email == email
  {
    UserByEmail(db, email)
  }

  /** `findById`: null for an unknown id, otherwise the user without the
      password. */
  function FindById(db: Db, id: string): (r: Option<PublicUser>)
    ensures r.None? <==> !HasUser(db, id)
    ensures r.Some? ==> exists u :: u in db.users && u.id == id && r.value == WithoutPassword(u)
  {
    match UserById(db, id)
    case None => None
    case Some(u) => Some(WithoutPassword(u))
  }

  /** A user created by sign-up is then found by id, as returned. */
  lemma SignedUpUserIsFound(
    db: Db, dto: CreateUserDto, hash: string -> string, userId: string, ids: WalletIds, now: nat, oracle: seq<Attempt>)
    requires |ids.balanceIds| == |DEFAULT_CURRENCIES| && |oracle| == 1 + MAX_RETRIES
    requires Valid(db)
    requires CreateUser(db, dto, hash, userId, ids, now, oracle).result.Success?
    ensures var s := CreateUser(db, dto, hash, userId, ids, now, oracle);
      FindById(s.db, userId) == Some(s.result.value)
  {
    var s := CreateUser(db, dto, hash, userId, ids, now, oracle);
    var u := NewUser(userId, dto, hash);
    assert s.db.users[|db.users|] == u;
    var found := UserById(s.db, userId).value;
    UniqueKeyDetermines(s.db.users, UserId, found, u);
  }

  /** The token column `updateRefreshToken` writes: null for a missing or
      empty token, otherwise the token's hash. */
  function StoredToken(token: Option<string>, hash: string -> string): (r: Option<string>)
    ensures token.None? || token.value == "" ==> r.None?
    ensures token.Some? && token.value != "" ==> r == Some(hash(token.value))
  {
    if token.Some? && |token.value| > 0 then Some(hash(token.value)) else None
  }

  /** `updateRefreshToken`: sets the token column of the user with that id;
      an unknown id is the store's missing-record error. */
  function UpdateRefreshToken(db: Db, userId: string, token: Option<string>, hash: string -> string): (s: Step<()>)
    ensures s.result.Failure? <==> !HasUser(db, userId)
    ensures s.result.Failure? ==> s.db == db && s.result.error == Storage(RecordMissing("User"))
    ensures s.result.Success? ==>
      && s.db == db.(users := s.db.users)
      && |s.db.users| == |db.users|
      && exists i :: (
        && 0 <= i < |db.users| && db.users[i].id == userId
        && s.db.users == db.users[i := db.users[i].(refreshToken := StoredToken(token, hash))])
    ensures Valid(db) ==> Valid(s.db)
  {
    var i := FindIndex(db.users, (u: User) => u.id == userId);
    if i == |db.users| then Step(db, Failure(Storage(RecordMissing("User"))))
    else
      var db' := db.(users := db.users[i := db.users[i].(refreshToken := StoredToken(token, hash))]);
      assert forall k :: 0 <= k < |db'.users| ==> db'.users[k].id == db.users[k].id && db'.users[k].email == db.users[k].email;
      assert forall id :: HasUser(db', id) <==> HasUser(db, id) by {
        forall id ensures HasUser(db', id) <==> HasUser(db, id) {
          if HasUser(db, id) {
            var k :| 0 <= k < |db.users| && db.users[k].id == id;
            assert db'.users[k].id == id;
          }
        }
      }
      Step(db', Success(()))
  }

  /** On a consistent store, the token read back by id is the one just
      stored: null after clearing, the hash after setting. */
  lemma RefreshTokenRoundTrip(db: Db, userId: string, token: Option<string>, hash: string -> string)
    requires Valid(db) && HasUser(db, userId)
    ensures var s := UpdateRefreshToken(db, userId, token, hash);
      && FindById(s.db, userId).Some?
      && FindById(s.db, userId).value.refreshToken == StoredToken(token, hash)
  {
    var s := UpdateRefreshToken(db, userId, token, hash);
    var i :| 0 <= i < |db.users| && db.users[i].id == userId
      && s.db.users == db.users[i := db.users[i].(refreshToken := StoredToken(token, hash))];
    assert s.db.users[i].id == userId;
    var found := UserById(s.db, userId).value;
    UniqueKeyDetermines(s.db.users, UserId, found, s.db.users[i]);
  }
}
