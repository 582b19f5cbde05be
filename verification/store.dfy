/** The record store the services talk to, as an immutable value.

    Each table is a sequence of rows in insertion order. The constraints the
    services rely on are checked when a row is created, and a create that
    would break one fails with a `Fault` (the store client's error) and leaves
    the store as it was:
    - ids are unique in every table;
    - a user's email is unique (users are looked up by email);
    - a wallet's owner is unique (wallets are looked up by owner);
    - a wallet holds at most one balance per currency;
    - a balance carries at most one virtual account (looked up by balance);
    - a ledger entry's reference is unique (entries are looked up by it);
    - a row that points at another row (`connect` by id) needs that row.

    An interactive store transaction runs its body on a snapshot: the body's
    final store is kept when it succeeds, and the original store is kept when
    it fails (`RunTransaction`). */
module Store {
  import opened Wrappers
  import opened Sorting

  datatype Currency = NGN | USD | GBP | EUR

  /** The position of a currency in the enum's declaration, which is the
      order `orderBy: { currency: 'asc' }` sorts by. */
  function CurrencyOrder(c: Currency): int {
    match c
    case NGN => 0
    case USD => 1
    case GBP => 2
    case EUR => 3
  }

  datatype TxnType = Deposit | Withdrawal | Conversion | Fee

  datatype TxnStatus = Pending | Completed | Failed

  datatype User = User(
    id: string,
    email: string,
    password: string,
    firstName: string,
    lastName: string,
    refreshToken: Option<string>)

  datatype Wallet = Wallet(id: string, userId: string)

  datatype Balance = Balance(id: string, walletId: string, currency: Currency, balance: real)

  datatype VirtualAccount = VirtualAccount(
    id: string,
    balanceId: string,
    accountNumber: string,
    accountName: string,
    bankName: string,
    currency: Currency,
    provider: string,
    providerAccountId: string,
    providerReference: string)

  /** One ledger entry. `amount` is an exact decimal; its sign tells credit
      from debit. */
  datatype Txn = Txn(
    id: string,
    userId: string,
    walletId: string,
    amount: real,
    currency: Currency,
    kind: TxnType,
    status: TxnStatus,
    reference: string,
    batchId: Option<string>,
    description: Option<string>,
    externalReference: Option<string>,
    metadata: Option<string>,
    createdAt: int)

  datatype Db = Db(
    users: seq<User>,
    wallets: seq<Wallet>,
    balances: seq<Balance>,
    accounts: seq<VirtualAccount>,
    txns: seq<Txn>)

  const EmptyDb := Db([], [], [], [], [])

  /** A store-client error: a violated unique constraint, a missing row that
      a create connects to, or a missing row that an update targets. */
  datatype Fault =
    | UniqueViolation(model: string, field: string)
    | ForeignKeyMissing(model: string, field: string)
    | RecordMissing(model: string)

  /** The errors a service call ends with: the HTTP exceptions the services
      throw, or a store-client error that no handler translated. */
  datatype Error =
    | BadRequest(message: string)
    | NotFound(message: string)
    | Conflict(message: string)
    | InternalServerError(message: string)
    | Storage(fault: Fault)

  /** The store after a service call, and what the call returned. */
  datatype Step<T> = Step(db: Db, result: Result<T, Error>)

  // Column accessors, used as the keys of the unique constraints.
  function UserId(u: User): string { u.id }
  function UserEmail(u: User): string { u.email }
  function WalletId(w: Wallet): string { w.id }
  function WalletOwner(w: Wallet): string { w.userId }
  function BalanceId(b: Balance): string { b.id }
  function BalanceSlot(b: Balance): (string, Currency) { (b.walletId, b.currency) }
  function AccountId(a: VirtualAccount): string { a.id }
  function AccountBalance(a: VirtualAccount): string { a.balanceId }
  function TxnId(t: Txn): string { t.id }
  function TxnReference(t: Txn): string { t.reference }

  predicate HasUser(db: Db, id: string) {
    exists i :: 0 <= i < |db.users| && db.users[i].id == id
  }

  predicate HasWallet(db: Db, id: string) {
    exists i :: 0 <= i < |db.wallets| && db.wallets[i].id == id
  }

  predicate HasBalance(db: Db, id: string) {
    exists i :: 0 <= i < |db.balances| && db.balances[i].id == id
  }

  /** `user.findUnique` by id: the first user row with that id. */
  function UserById(db: Db, id: string): (r: Option<User>)
    ensures r.None? <==> !HasUser(db, id)
    ensures r.Some? ==> r.value in db.users && r.value.id == id
  {
    var i := FindIndex(db.users, (u: User) => u.id == id);
    if i < |db.users| then Some(db.users[i]) else None
  }

  /** `user.findUnique` by email. */
  function UserByEmail(db: Db, email: string): (r: Option<User>)
    ensures r.None? <==> forall i :: 0 <= i < |db.users| ==> db.users[i].email != email
    ensures r.Some? ==> r.value in db.users && r.value.email == email
  {
    var i := FindIndex(db.users, (u: User) => u.email == email);
    if i < |db.users| then Some(db.users[i]) else None
  }

  predicate UsersOk(db: Db) {
    UniqueBy(db.users, UserId) && UniqueBy(db.users, UserEmail)
  }

  predicate WalletsOk(db: Db) {
    && UniqueBy(db.wallets, WalletId)
    && UniqueBy(db.wallets, WalletOwner)
    && forall i :: 0 <= i < |db.wallets| ==> HasUser(db, db.wallets[i].userId)
  }

  predicate BalancesOk(db: Db) {
    && UniqueBy(db.balances, BalanceId)
    && UniqueBy(db.balances, BalanceSlot)
    && forall i :: 0 <= i < |db.balances| ==> HasWallet(db, db.balances[i].walletId)
  }

  predicate AccountsOk(db: Db) {
    && UniqueBy(db.accounts, AccountId)
    && UniqueBy(db.accounts, AccountBalance)
    && forall i :: 0 <= i < |db.accounts| ==> HasBalance(db, db.accounts[i].balanceId)
  }

  predicate TxnsOk(db: Db) {
    && UniqueBy(db.txns, TxnId)
    && UniqueBy(db.txns, TxnReference)
    && forall i :: 0 <= i < |db.txns| ==> HasUser(db, db.txns[i].userId) && HasWallet(db, db.txns[i].walletId)
  }

  /** Every constraint of the store holds. */
  predicate Valid(db: Db) {
    UsersOk(db) && WalletsOk(db) && BalancesOk(db) && AccountsOk(db) && TxnsOk(db)
  }

  lemma EmptyDbValid()
    ensures Valid(EmptyDb)
  {
  }

  /** Rows only ever get added, so a row that existed still exists. */
  predicate Extends(db: Db, db': Db) {
    && db.users <= db'.users
    && db.wallets <= db'.wallets
    && db.balances <= db'.balances
    && db.accounts <= db'.accounts
    && db.txns <= db'.txns
  }

  lemma ExtendsKeepsRows(db: Db, db': Db)
    requires Extends(db, db')
    ensures forall id :: HasUser(db, id) ==> HasUser(db', id)
    ensures forall id :: HasWallet(db, id) ==> HasWallet(db', id)
    ensures forall id :: HasBalance(db, id) ==> HasBalance(db', id)
  {
    forall id | HasUser(db, id) ensures HasUser(db', id) {
      var i :| 0 <= i < |db.users| && db.users[i].id == id;
      assert db'.users[i] == db.users[i];
    }
    forall id | HasWallet(db, id) ensures HasWallet(db', id) {
      var i :| 0 <= i < |db.wallets| && db.wallets[i].id == id;
      assert db'.wallets[i] == db.wallets[i];
    }
    forall id | HasBalance(db, id) ensures HasBalance(db', id) {
      var i :| 0 <= i < |db.balances| && db.balances[i].id == id;
      assert db'.balances[i] == db.balances[i];
    }
  }

  /** `user.create`: fails on a taken id or email. */
  function InsertUser(db: Db, u: User): (r: Result<Db, Fault>)
    ensures r.Success? <==> KeyFree(db.users, UserId, u.id) && KeyFree(db.users, UserEmail, u.email)
    ensures r.Success? ==> r.value == db.(users := db.users + [u])
    ensures r.Success? ==> Extends(db, r.value)
    ensures r.Success? && Valid(db) ==> Valid(r.value)
  {
    if !KeyFree(db.users, UserId, u.id) then Failure(UniqueViolation("User", "id"))
    else if !KeyFree(db.users, UserEmail, u.email) then Failure(UniqueViolation("User", "email"))
    else
      var db' := db.(users := db.users + [u]);
      AppendUnique(db.users, UserId, u);
      AppendUnique(db.users, UserEmail, u);
      ExtendsKeepsRows(db, db');
      Success(db')
  }

  /** `wallet.create`: fails on a taken id, an owner that already has a
      wallet, or an owner that is not a user. */
  function InsertWallet(db: Db, w: Wallet): (r: Result<Db, Fault>)
    ensures r.Success? <==>
      && KeyFree(db.wallets, WalletId, w.id)
      && KeyFree(db.wallets, WalletOwner, w.userId)
      && HasUser(db, w.userId)
    ensures r.Success? ==> r.value == db.(wallets := db.wallets + [w])
    ensures r.Success? ==> Extends(db, r.value)
    ensures r.Success? && Valid(db) ==> Valid(r.value)
  {
    if !KeyFree(db.wallets, WalletId, w.id) then Failure(UniqueViolation("Wallet", "id"))
    else if !KeyFree(db.wallets, WalletOwner, w.userId) then Failure(UniqueViolation("Wallet", "userId"))
    else if !HasUser(db, w.userId) then Failure(ForeignKeyMissing("Wallet", "userId"))
    else
      var db' := db.(wallets := db.wallets + [w]);
      AppendUnique(db.wallets, WalletId, w);
      AppendUnique(db.wallets, WalletOwner, w);
      ExtendsKeepsRows(db, db');
      Success(db')
  }

  /** `balance.create`: fails on a taken id, a currency the wallet already
      holds, or a wallet that does not exist. */
  function InsertBalance(db: Db, b: Balance): (r: Result<Db, Fault>)
    ensures r.Success? <==>
      && KeyFree(db.balances, BalanceId, b.id)
      && KeyFree(db.balances, BalanceSlot, (b.walletId, b.currency))
      && HasWallet(db, b.walletId)
    ensures r.Success? ==> r.value == db.(balances := db.balances + [b])
    ensures r.Success? ==> Extends(db, r.value)
    ensures r.Success? && Valid(db) ==> Valid(r.value)
  {
    if !KeyFree(db.balances, BalanceId, b.id) then Failure(UniqueViolation("Balance", "id"))
    else if !KeyFree(db.balances, BalanceSlot, (b.walletId, b.currency)) then Failure(UniqueViolation("Balance", "walletId_currency"))
    else if !HasWallet(db, b.walletId) then Failure(ForeignKeyMissing("Balance", "walletId"))
    else
      var db' := db.(balances := db.balances + [b]);
      AppendUnique(db.balances, BalanceId, b);
      AppendUnique(db.balances, BalanceSlot, b);
      ExtendsKeepsRows(db, db');
      Success(db')
  }

  /** `virtualAccount.create`: fails on a taken id, a balance that already
      carries an account, or a balance that does not exist. */
  function InsertAccount(db: Db, a: VirtualAccount): (r: Result<Db, Fault>)
    ensures r.Success? <==>
      && KeyFree(db.accounts, AccountId, a.id)
      && KeyFree(db.accounts, AccountBalance, a.balanceId)
      && HasBalance(db, a.balanceId)
    ensures r.Success? ==> r.value == db.(accounts := db.accounts + [a])
    ensures r.Success? ==> Extends(db, r.value)
    ensures r.Success? && Valid(db) ==> Valid(r.value)
  {
    if !KeyFree(db.accounts, AccountId, a.id) then Failure(UniqueViolation("VirtualAccount", "id"))
    else if !KeyFree(db.accounts, AccountBalance, a.balanceId) then Failure(UniqueViolation("VirtualAccount", "balanceId"))
    else if !HasBalance(db, a.balanceId) then Failure(ForeignKeyMissing("VirtualAccount", "balanceId"))
    else
      var db' := db.(accounts := db.accounts + [a]);
      AppendUnique(db.accounts, AccountId, a);
      AppendUnique(db.accounts, AccountBalance, a);
      ExtendsKeepsRows(db, db');
      Success(db')
  }

  /** `transaction.create`: fails on a taken id or reference, or an owner or
      wallet that does not exist. */
  function InsertTxn(db: Db, t: Txn): (r: Result<Db, Fault>)
    ensures r.Success? <==>
      && KeyFree(db.txns, TxnId, t.id)
      && KeyFree(db.txns, TxnReference, t.reference)
      && HasUser(db, t.userId)
      && HasWallet(db, t.walletId)
    ensures r.Success? ==> r.value == db.(txns := db.txns + [t])
    ensures r.Success? ==> Extends(db, r.value)
    ensures r.Success? && Valid(db) ==> Valid(r.value)
  {
    if !KeyFree(db.txns, TxnId, t.id) then Failure(UniqueViolation("Transaction", "id"))
    else if !KeyFree(db.txns, TxnReference, t.reference) then Failure(UniqueViolation("Transaction", "reference"))
    else if !HasUser(db, t.userId) then Failure(ForeignKeyMissing("Transaction", "userId"))
    else if !HasWallet(db, t.walletId) then Failure(ForeignKeyMissing("Transaction", "walletId"))
    else
      var db' := db.(txns := db.txns + [t]);
      AppendUnique(db.txns, TxnId, t);
      AppendUnique(db.txns, TxnReference, t);
      ExtendsKeepsRows(db, db');
      Success(db')
  }

  /** An interactive `$transaction`: the body ran on a snapshot of `db` and
      produced a value and a new store, or failed. */
  function RunTransaction<T>(db: Db, body: Result<(T, Db), Error>): (s: Step<T>)
    ensures s.result.Success? <==> body.Success?
    ensures s.result.Failure? ==> s.db == db && s.result.error == body.error
    ensures s.result.Success? ==> s.db == body.value.1 && s.result.value == body.value.0
  {
    match body
    case Success((v, db')) => Step(db', Success(v))
    case Failure(e) => Step(db, Failure(e))
  }
}
