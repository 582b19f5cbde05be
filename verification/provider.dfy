/** The virtual-account provider call (`VirtualAccountService`): build the
    request, post it with a bounded retry and exponential backoff, validate
    the response, fill in defaulted fields and write the account row inside
    the caller's store transaction.

    The provider is an oracle: `oracle[k]` is what attempt `k` (0-based)
    observes. Waiting is not performed; the delays the retry would wait are
    computed and returned. */
module VirtualAccounts {
  import opened Wrappers
  import opened Sorting
  import opened Text
  import opened Store

  const MAX_RETRIES: nat := 3
  const PROVIDER := "FLUTTERWAVE"
  const BVN := "12345678901"
  const NARRATION := "Virtual Account Creation"
  const TX_REF_PREFIX := "v-acct-"
  const FAILURE_MESSAGE := "Failed to create virtual account. Please try again or contact support."

  /** The body posted to the provider. */
  datatype Request = Request(
    email: string,
    firstname: string,
    lastname: string,
    txRef: string,
    bvn: string,
    isPermanent: bool,
    narration: string,
    currency: string)

  /** What an attempt can fail with before a response is delivered: an HTTP
      error status, a network failure, or the per-attempt timeout of 15 s. */
  datatype TransportError = HttpStatus(code: int) | NetworkFailure | TimedOut

  /** The provider's `data` object. Every field is optional text: `id` is
      given as its string rendering. */
  datatype AccountData = AccountData(
    id: Option<string>,
    accountNumber: Option<string>,
    accountName: Option<string>,
    bankName: Option<string>,
    orderRef: Option<string>,
    flwRef: Option<string>)

  datatype ResponseBody = ResponseBody(status: string, message: string, data: Option<AccountData>)

  /** One attempt: it errored, or it delivered a (possibly absent) body. */
  datatype Attempt = Errored(cause: TransportError) | Responded(body: Option<ResponseBody>)

  /** The retried call: the final observation, how many attempts were made,
      and the delay waited before each retry, in order. */
  datatype Exchange = Exchange(outcome: Result<Option<ResponseBody>, TransportError>, attempts: nat, delays: seq<nat>)

  /** `tx_ref`: the prefix, the user id, a dash and the millisecond clock. */
  function TxRef(userId: string, now: nat): string {
    TX_REF_PREFIX + userId + "-" + NatToDecimal(now)
  }

  /** Two calls for the same user at different times carry different
      `tx_ref`s. */
  lemma TxRefDistinctTimes(userId: string, m: nat, n: nat)
    requires m != n
    ensures TxRef(userId, m) != TxRef(userId, n)
  {
    var p := TX_REF_PREFIX + userId + "-";
    if TxRef(userId, m) == TxRef(userId, n) {
      assert NatToDecimal(m) == TxRef(userId, m)[|p|..];
      assert NatToDecimal(n) == TxRef(userId, n)[|p|..];
      DecimalInjective(m, n);
    }
  }

  /** The payload of the post. Its `tx_ref` is "v-acct-", the user id, a
      dash and the clock's digits, which read back as the clock. */
  function BuildRequest(user: User, now: nat): (r: Request)
    ensures r.currency == "NGN" && r.isPermanent && r.bvn == BVN && r.narration == NARRATION
    ensures r.email == user.email && r.firstname == user.firstName && r.lastname == user.lastName
    ensures var p := TX_REF_PREFIX + user.id + "-";
      && |p| < |r.txRef| && r.txRef[..|p|] == p
      && AllDigits(r.txRef[|p|..]) && DecimalValue(r.txRef[|p|..]) == now
  {
    var r := Request(user.email, user.firstName, user.lastName, TxRef(user.id, now), BVN, true, NARRATION, "NGN");
    var p := TX_REF_PREFIX + user.id + "-";
    assert r.txRef[|p|..] == NatToDecimal(now);
    DecimalRoundTrip(now);
    r
  }

  function Pow2(n: nat): nat {
    if n == 0 then 1 else 2 * Pow2(n - 1)
  }

  /** The delay before retry number `retryCount` (1-based): 2^(retryCount-1)
      seconds, in milliseconds. */
  function BackoffDelay(retryCount: nat): nat
    requires retryCount >= 1
  {
    Pow2(retryCount - 1) * 1000
  }

  /** The schedule is 1 s, 2 s, 4 s. */
  lemma BackoffSchedule()
    ensures BackoffDelay(1) == 1000 && BackoffDelay(2) == 2000 && BackoffDelay(3) == 4000
  {
    assert Pow2(2) == 4 by {
      assert Pow2(1) == 2;
    }
  }

  /** Every retry waits at least one second. */
  lemma {:induction false} BackoffAtLeastOneSecond(k: nat)
    requires k >= 1
    ensures BackoffDelay(k) >= 1000
  {
    if k > 1 {
      BackoffAtLeastOneSecond(k - 1);
    }
  }

  /** Each retry waits twice as long as the one before, so the delays
      strictly increase. */
  lemma BackoffDoubles(k: nat)
    requires k >= 1
    ensures BackoffDelay(k + 1) == 2 * BackoffDelay(k)
    ensures BackoffDelay(k) < BackoffDelay(k + 1)
  {
    BackoffAtLeastOneSecond(k);
  }

  /** The retried post from attempt `k` on: an attempt that errors is
      retried after the backoff delay while retries remain; the first
      delivered response ends the call. */
  function RetryFrom(oracle: seq<Attempt>, k: nat): (x: Exchange)
    requires |oracle| == 1 + MAX_RETRIES && k < |oracle|
    ensures k < x.attempts <= |oracle|
    ensures |x.delays| == x.attempts - 1 - k
    ensures forall j :: 0 <= j < |x.delays| ==> x.delays[j] == BackoffDelay(k + j + 1)
    ensures forall j :: k <= j < x.attempts - 1 ==> oracle[j].Errored?
    ensures x.outcome.Success? ==> oracle[x.attempts - 1] == Responded(x.outcome.value)
    ensures x.outcome.Failure? ==> x.attempts == |oracle| && oracle[|oracle| - 1] == Errored(x.outcome.error)
    decreases |oracle| - k
  {
    match oracle[k]
    case Responded(body) => Exchange(Success(body), k + 1, [])
    case Errored(e) =>
      if k == MAX_RETRIES then Exchange(Failure(e), k + 1, [])
      else
        var rest := RetryFrom(oracle, k + 1);
        Exchange(rest.outcome, rest.attempts, [BackoffDelay(k + 1)] + rest.delays)
  }

  /** The post with `timeout` and `retry({count: MAX_RETRIES, delay})`: it
      delivers a response exactly when some attempt does, and then it is the
      first one; it fails only after every attempt errored, with the last
      attempt's error. */
  function CallWithRetry(oracle: seq<Attempt>): (x: Exchange)
    requires |oracle| == 1 + MAX_RETRIES
    ensures 1 <= x.attempts <= 1 + MAX_RETRIES
    ensures |x.delays| == x.attempts - 1
    ensures forall j :: 0 <= j < |x.delays| ==> x.delays[j] == BackoffDelay(j + 1)
    ensures x.outcome.Success? <==> exists j :: 0 <= j < |oracle| && oracle[j].Responded?
    ensures x.outcome.Success? ==>
      && oracle[x.attempts - 1] == Responded(x.outcome.value)
      && forall j :: 0 <= j < x.attempts - 1 ==> oracle[j].Errored?
    ensures x.outcome.Failure? ==> x.attempts == 1 + MAX_RETRIES && x.outcome.error == oracle[MAX_RETRIES].cause
  {
    RetryFrom(oracle, 0)
  }

  /** Two failed attempts and then a response: three attempts, after waits
      of one and two seconds. */
  lemma TwoFailuresThenSuccess(e1: TransportError, e2: TransportError, body: Option<ResponseBody>, tail: Attempt)
    ensures var x := CallWithRetry([Errored(e1), Errored(e2), Responded(body), tail]);
      x.outcome == Success(body) && x.attempts == 3 && x.delays == [1000, 2000]
  {
    var oracle := [Errored(e1), Errored(e2), Responded(body), tail];
    var x := CallWithRetry(oracle);
    assert oracle[0].Errored? && oracle[1].Errored? && oracle[2].Responded?;
    assert x.attempts == 3;
    BackoffSchedule();
    assert x.delays[0] == 1000 && x.delays[1] == 2000;
  }

  /** Every attempt failing: four attempts, after waits of 1, 2 and 4
      seconds. */
  lemma AllAttemptsFail(e: seq<TransportError>)
    requires |e| == 1 + MAX_RETRIES
    ensures var x := CallWithRetry([Errored(e[0]), Errored(e[1]), Errored(e[2]), Errored(e[3])]);
      x.outcome == Failure(e[3]) && x.attempts == 4 && x.delays == [1000, 2000, 4000]
  {
    var x := CallWithRetry([Errored(e[0]), Errored(e[1]), Errored(e[2]), Errored(e[3])]);
    BackoffSchedule();
    assert x.delays[0] == 1000 && x.delays[1] == 2000 && x.delays[2] == 4000;
  }

  /** JavaScript truthiness of an optional string: present and non-empty. */
  predicate Truthy(o: Option<string>) {
    o.Some? && |o.value| > 0
  }

  /** `a || fallback` for an optional string. */
  function OrElse(o: Option<string>, fallback: string): (r: string)
    ensures Truthy(o) ==> r == o.value
    ensures !Truthy(o) ==> r == fallback
  {
    if Truthy(o) then o.value else fallback
  }

  /** The validation of the delivered body: status `success`, a `data`
      object, and a non-empty account number and bank name. */
  function ValidData(body: Option<ResponseBody>): (r: Option<AccountData>)
    ensures r.Some? <==>
      && body.Some? && body.value.status == "success" && body.value.data.Some?
      && Truthy(body.value.data.value.accountNumber) && Truthy(body.value.data.value.bankName)
    ensures r.Some? ==> r.value == body.value.data.value
  {
    if body.None? || body.value.status != "success" || body.value.data.None? then None
    else
      var d := body.value.data.value;
      if !Truthy(d.accountNumber) || !Truthy(d.bankName) then None else Some(d)
  }

  /** The row written for a validated response. */
  function AccountRow(accountId: string, balanceId: string, user: User, d: AccountData, txRef: string): (a: VirtualAccount)
    requires Truthy(d.accountNumber) && Truthy(d.bankName)
    ensures a.id == accountId && a.balanceId == balanceId
    ensures a.currency == NGN && a.provider == PROVIDER
    ensures a.accountNumber == d.accountNumber.value && a.bankName == d.bankName.value
  {
    VirtualAccount(
      accountId,
      balanceId,
      d.accountNumber.value,
      OrElse(d.accountName, user.firstName + " " + user.lastName),
      d.bankName.value,
      NGN,
      PROVIDER,
      OrElse(d.id, d.accountNumber.value),
      OrElse(d.orderRef, OrElse(d.flwRef, txRef)))
  }

  /** The defaults: a missing name becomes the user's full name, a missing
      provider id the account number, and a missing reference the first of
      `order_ref`, `flw_ref`, `tx_ref` that is present. So every text column
      of the row is non-empty. */
  lemma AccountRowDefaults(accountId: string, balanceId: string, user: User, d: AccountData, txRef: string)
    requires Truthy(d.accountNumber) && Truthy(d.bankName) && |txRef| > 0
    ensures var a := AccountRow(accountId, balanceId, user, d, txRef);
      && (Truthy(d.accountName) ==> a.accountName == d.accountName.value)
      && (!Truthy(d.accountName) ==> a.accountName == user.firstName + " " + user.lastName)
      && (Truthy(d.id) ==> a.providerAccountId == d.id.value)
      && (!Truthy(d.id) ==> a.providerAccountId == a.accountNumber)
      && (Truthy(d.orderRef) ==> a.providerReference == d.orderRef.value)
      && (!Truthy(d.orderRef) && Truthy(d.flwRef) ==> a.providerReference == d.flwRef.value)
      && (!Truthy(d.orderRef) && !Truthy(d.flwRef) ==> a.providerReference == txRef)
      && |a.accountName| > 0 && |a.providerAccountId| > 0 && |a.providerReference| > 0
  {
  }

  /** The first delivered response passes validation. */
  predicate ProviderDelivers(oracle: seq<Attempt>)
    requires |oracle| == 1 + MAX_RETRIES
  {
    var x := CallWithRetry(oracle);
    x.outcome.Success? && ValidData(x.outcome.value).Some?
  }

  /** The account row the call writes for `balanceId`: none when the retried
      post fails or its response does not validate; otherwise the row built
      from the first delivered response, with the request's `tx_ref` as the
      last fallback reference. */
  function ProviderRow(balanceId: string, user: User, now: nat, accountId: string, oracle: seq<Attempt>)
    : (r: Option<VirtualAccount>)
    requires |oracle| == 1 + MAX_RETRIES
    ensures r.Some? <==> ProviderDelivers(oracle)
    ensures r.Some? ==>
      r.value == AccountRow(accountId, balanceId, user, ValidData(CallWithRetry(oracle).outcome.value).value, TxRef(user.id, now))
  {
    var x := CallWithRetry(oracle);
    if x.outcome.Failure? then None
    else
      match ValidData(x.outcome.value)
      case None => None
      case Some(d) => Some(AccountRow(accountId, balanceId, user, d, BuildRequest(user, now).txRef))
  }

  /** `createVirtualAccountWithTransaction` inside the caller's transaction
      store `db`: every failure (transport, invalid response, storage) is
      the one user-facing error, and the only write is the account row built
      from the first delivered response. */
  function CreateVirtualAccountWithTransaction(
    db: Db, balanceId: string, user: User, now: nat, accountId: string, oracle: seq<Attempt>): (s: Step<()>)
    requires |oracle| == 1 + MAX_RETRIES
    ensures s.result.Failure? ==> s.db == db && s.result.error == InternalServerError(FAILURE_MESSAGE)
    ensures s.result.Success? ==>
      && ProviderDelivers(oracle)
      && s.db == db.(accounts := db.accounts + [
           AccountRow(accountId, balanceId, user, ValidData(CallWithRetry(oracle).outcome.value).value, TxRef(user.id, now))])
    ensures Valid(db) ==> Valid(s.db)
  {
    match ProviderRow(balanceId, user, now, accountId, oracle)
    case None => Step(db, Failure(InternalServerError(FAILURE_MESSAGE)))
    case Some(a) =>
      match InsertAccount(db, a)
      case Failure(_) => Step(db, Failure(InternalServerError(FAILURE_MESSAGE)))
      case Success(db') => Step(db', Success(()))
  }

  /** The account is written exactly when some attempt delivers a valid
      response (the first delivered one is the one validated) and the store
      accepts the row: the balance exists and has no account yet. */
  lemma CreateVirtualAccountSucceeds(
    db: Db, balanceId: string, user: User, now: nat, accountId: string, oracle: seq<Attempt>)
    requires |oracle| == 1 + MAX_RETRIES
    ensures CreateVirtualAccountWithTransaction(db, balanceId, user, now, accountId, oracle).result.Success? <==>
        && ProviderDelivers(oracle)
        && KeyFree(db.accounts, AccountId, accountId)
        && KeyFree(db.accounts, AccountBalance, balanceId)
        && HasBalance(db, balanceId)
  {
  }

  /** `getVirtualAccount`: the account of a balance, if any. */
  function GetVirtualAccount(db: Db, balanceId: string): (r: Option<VirtualAccount>)
    ensures r.None? <==> forall i :: 0 <= i < |db.accounts| ==> db.accounts[i].balanceId != balanceId
    ensures r.Some? ==> r.value in db.accounts && r.value.balanceId == balanceId
  {
    var i := FindIndex(db.accounts, (a: VirtualAccount) => a.balanceId == balanceId);
    if i < |db.accounts| then Some(db.accounts[i]) else None
  }

  /** Under the store's constraints the account of a balance is unique. */
  lemma GetVirtualAccountUnique(db: Db, balanceId: string, a: VirtualAccount)
    requires Valid(db) && a in db.accounts && a.balanceId == balanceId
    ensures GetVirtualAccount(db, balanceId) == Some(a)
  {
    var r := GetVirtualAccount(db, balanceId);
    UniqueKeyDetermines(db.accounts, AccountBalance, r.value, a);
  }

  /** The account written by a successful call is what `getVirtualAccount`
      then returns for that balance. */
  lemma CreatedAccountIsFound(
    db: Db, balanceId: string, user: User, now: nat, accountId: string, oracle: seq<Attempt>)
    requires |oracle| == 1 + MAX_RETRIES && Valid(db)
    requires CreateVirtualAccountWithTransaction(db, balanceId, user, now, accountId, oracle).result.Success?
    ensures var s := CreateVirtualAccountWithTransaction(db, balanceId, user, now, accountId, oracle);
      && GetVirtualAccount(s.db, balanceId).Some?
      && GetVirtualAccount(s.db, balanceId).value.id == accountId
  {
    var s := CreateVirtualAccountWithTransaction(db, balanceId, user, now, accountId, oracle);
    var a := ProviderRow(balanceId, user, now, accountId, oracle).value;
    assert s.db.accounts[|db.accounts|] == a;
    GetVirtualAccountUnique(s.db, balanceId, a);
  }
}
