/** Wallet provisioning and the wallet read helpers (`WalletService`).

    Provisioning creates the wallet with one zero balance per default
    currency in one nested write, finds the NGN balance and obtains a
    virtual account for it, all inside the caller's store transaction: it
    returns the new store as the transaction body's result, or an error, in
    which case the enclosing transaction keeps nothing. */
module Wallets {
  import opened Wrappers
  import opened Sorting
  import opened Store
  import opened VirtualAccounts

  const DEFAULT_CURRENCIES: seq<Currency> := [NGN, USD, GBP, EUR]
  const NGN_BALANCE_MISSING := "Failed to create NGN balance"
  const WALLET_NOT_FOUND := "Wallet not found"
  const USER_NOT_FOUND := "User not found"

  /** The ids the store assigns to the rows one provisioning creates. */
  datatype WalletIds = WalletIds(walletId: string, balanceIds: seq<string>, accountId: string)

  /** A wallet with its balances, as the nested create returns it. */
  datatype WalletWithBalances = WalletWithBalances(wallet: Wallet, balances: seq<Balance>)

  /** A balance with its virtual account, if it has one. */
  datatype BalanceView = BalanceView(balance: Balance, virtualAccount: Option<VirtualAccount>)

  /** A wallet with its balances in currency order, each with its account. */
  datatype WalletView = WalletView(wallet: Wallet, balances: seq<BalanceView>)

  /** The balances the nested create writes: one zero balance per currency. */
  function ZeroBalances(walletId: string, currencies: seq<Currency>, ids: seq<string>): (bs: seq<Balance>)
    requires |ids| == |currencies|
    ensures |bs| == |currencies|
    ensures forall i :: 0 <= i < |bs| ==>
      bs[i].id == ids[i] && bs[i].walletId == walletId && bs[i].currency == currencies[i] && bs[i].balance == 0.0
  {
    seq(|currencies|, i requires 0 <= i < |currencies| => Balance(ids[i], walletId, currencies[i], 0.0))
  }

  /** `balance.create` for each of `bs` in turn, all or nothing. */
  function InsertBalances(db: Db, bs: seq<Balance>): (r: Result<Db, Fault>)
    ensures r.Success? ==> r.value == db.(balances := db.balances + bs)
    ensures r.Success? && Valid(db) ==> Valid(r.value)
    decreases |bs|
  {
    if |bs| == 0 then
      assert db.balances + bs == db.balances;
      Success(db)
    else
      match InsertBalance(db, bs[0])
      case Failure(fault) => Failure(fault)
      case Success(db1) =>
        match InsertBalances(db1, bs[1..])
        case Failure(fault) => Failure(fault)
        case Success(db2) =>
          assert db1.balances + bs[1..] == db.balances + bs;
          Success(db2)
  }

  /** `wallet.create` with nested `balances: { create: … }`: one atomic
      write of the wallet and its zero balances. */
  function CreateWallet(db: Db, userId: string, currencies: seq<Currency>, ids: WalletIds): (r: Result<(WalletWithBalances, Db), Fault>)
    requires |ids.balanceIds| == |currencies|
    ensures r.Success? ==>
      var (w, db') := r.value;
      && w.wallet == Wallet(ids.walletId, userId)
      && w.balances == ZeroBalances(ids.walletId, currencies, ids.balanceIds)
      && db' == db.(wallets := db.wallets + [w.wallet], balances := db.balances + w.balances)
    ensures r.Success? && Valid(db) ==> Valid(r.value.1)
  {
    var w := Wallet(ids.walletId, userId);
    var bs := ZeroBalances(ids.walletId, currencies, ids.balanceIds);
    match InsertWallet(db, w)
    case Failure(fault) => Failure(fault)
    case Success(db1) =>
      match InsertBalances(db1, bs)
      case Failure(fault) => Failure(fault)
      case Success(db2) => Success((WalletWithBalances(w, bs), db2))
  }

  /** The store accepts the balance creates in order: ids and
      wallet-and-currency slots are pairwise distinct and free, and every
      wallet exists. */
  predicate BalancesInsertable(db: Db, bs: seq<Balance>) {
    && FreshKeys(db.balances, bs, BalanceId)
    && FreshKeys(db.balances, bs, BalanceSlot)
    && forall i :: 0 <= i < |bs| ==> HasWallet(db, bs[i].walletId)
  }

  /** The balance creates are kept exactly when the store accepts them. */
  lemma {:induction false} InsertBalancesSucceeds(db: Db, bs: seq<Balance>)
    ensures InsertBalances(db, bs).Success? <==> BalancesInsertable(db, bs)
    decreases |bs|
  {
    if |bs| > 0 {
      var db1 := db.(balances := db.balances + [bs[0]]);
      InsertBalancesSucceeds(db1, bs[1..]);
      FreshKeysSplit(db.balances, bs, BalanceId);
      FreshKeysSplit(db.balances, bs, BalanceSlot);
      assert (forall i :: 0 <= i < |bs| ==> HasWallet(db, bs[i].walletId)) <==>
        HasWallet(db, bs[0].walletId) && forall i :: 0 <= i < |bs| - 1 ==> HasWallet(db1, bs[1..][i].walletId)
      by {
        forall i | 0 <= i < |bs| - 1 ensures bs[1..][i] == bs[i + 1] { }
      }
    }
  }

  /** On a consistent store the nested create succeeds exactly when the
      wallet id is free, the owner exists and has no wallet yet, the balance
      ids are distinct and free, and no currency is listed twice. */
  lemma CreateWalletSucceeds(db: Db, userId: string, currencies: seq<Currency>, ids: WalletIds)
    requires |ids.balanceIds| == |currencies| && Valid(db)
    ensures CreateWallet(db, userId, currencies, ids).Success? <==>
      && KeyFree(db.wallets, WalletId, ids.walletId)
      && KeyFree(db.wallets, WalletOwner, userId)
      && HasUser(db, userId)
      && Distinct(ids.balanceIds)
      && (forall i :: 0 <= i < |ids.balanceIds| ==> KeyFree(db.balances, BalanceId, ids.balanceIds[i]))
      && Distinct(currencies)
  {
    var w := Wallet(ids.walletId, userId);
    var bs := ZeroBalances(ids.walletId, currencies, ids.balanceIds);
    if InsertWallet(db, w).Success? {
      var db1 := InsertWallet(db, w).value;
      InsertBalancesSucceeds(db1, bs);
      assert HasWallet(db1, ids.walletId) by {
        assert db1.wallets[|db.wallets|] == w;
      }
      NewWalletSlotsFree(db, ids.walletId);
      ZeroBalancesFresh(db.balances, ids.walletId, currencies, ids.balanceIds);
    }
  }

  /** Next to balances none of which is in the new wallet, the zero
      balances' ids clash with nothing exactly when they are distinct and
      free, and their slots exactly when no currency is listed twice. */
  lemma ZeroBalancesFresh(before: seq<Balance>, walletId: string, currencies: seq<Currency>, ids: seq<string>)
    requires |ids| == |currencies|
    requires forall c :: KeyFree(before, BalanceSlot, (walletId, c))
    ensures var bs := ZeroBalances(walletId, currencies, ids);
      && (FreshKeys(before, bs, BalanceId) <==> Distinct(ids) && forall i :: 0 <= i < |ids| ==> KeyFree(before, BalanceId, ids[i]))
      && (FreshKeys(before, bs, BalanceSlot) <==> Distinct(currencies))
  {
    var bs := ZeroBalances(walletId, currencies, ids);
    assert forall i :: 0 <= i < |bs| ==> BalanceSlot(bs[i]) == (walletId, currencies[i]);
  }

  /** On a consistent store no balance sits in a wallet id that is not
      taken. */
  lemma NewWalletSlotsFree(db: Db, walletId: string)
    requires Valid(db) && KeyFree(db.wallets, WalletId, walletId)
    ensures forall c :: KeyFree(db.balances, BalanceSlot, (walletId, c))
  {
    forall c, k | 0 <= k < |db.balances| ensures BalanceSlot(db.balances[k]) != (walletId, c) {
      assert HasWallet(db, db.balances[k].walletId);
    }
  }

  function IsNgn(b: Balance): bool { b.currency == NGN }

  /** `createUserWalletWithTransaction` over a list of currencies: the nested
      create, the NGN balance lookup, then the virtual account for that
      balance. */
  function ProvisionWith(
    db: Db, user: User, currencies: seq<Currency>, ids: WalletIds, now: nat, oracle: seq<Attempt>)
    : (r: Result<(WalletWithBalances, Db), Error>)
    requires |ids.balanceIds| == |currencies| && |oracle| == 1 + MAX_RETRIES
    ensures r.Success? ==>
      var (w, db') := r.value;
      && w.wallet == Wallet(ids.walletId, user.id)
      && w.balances == ZeroBalances(ids.walletId, currencies, ids.balanceIds)
      && exists k :: (
        && 0 <= k < |currencies| && currencies[k] == NGN && (forall j :: 0 <= j < k ==> currencies[j] != NGN)
        && var a := ProviderRow(ids.balanceIds[k], user, now, ids.accountId, oracle);
        && a.Some?
        && db' == db.(wallets := db.wallets + [w.wallet], balances := db.balances + w.balances, accounts := db.accounts + [a.value]))
    ensures r.Failure? ==>
      || r.error.Storage?
      || r.error == InternalServerError(NGN_BALANCE_MISSING)
      || r.error == InternalServerError(FAILURE_MESSAGE)
    ensures r.Success? && Valid(db) ==> Valid(r.value.1)
  {
    match CreateWallet(db, user.id, currencies, ids)
    case Failure(fault) => Failure(Storage(fault))
    case Success((w, db1)) =>
      var k := FindIndex(w.balances, IsNgn);
      if k == |w.balances| then Failure(InternalServerError(NGN_BALANCE_MISSING))
      else
        assert forall j :: 0 <= j < k ==> currencies[j] != NGN by {
          forall j | 0 <= j < k ensures currencies[j] != NGN {
            assert !IsNgn(w.balances[j]);
          }
        }
        var s := CreateVirtualAccountWithTransaction(db1, w.balances[k].id, user, now, ids.accountId, oracle);
        match s.result
        case Failure(e) => Failure(e)
        case Success(_) => Success((w, s.db))
  }

  /** Without NGN among the currencies, provisioning whose nested create
      succeeds fails with the NGN error, before and whatever the provider
      would answer. */
  lemma NgnGuard(
    db: Db, user: User, currencies: seq<Currency>, ids: WalletIds, now: nat, oracle: seq<Attempt>)
    requires |ids.balanceIds| == |currencies| && |oracle| == 1 + MAX_RETRIES
    requires NGN !in currencies
    requires CreateWallet(db, user.id, currencies, ids).Success?
    ensures ProvisionWith(db, user, currencies, ids, now, oracle) == Failure(InternalServerError(NGN_BALANCE_MISSING))
  {
    var w := CreateWallet(db, user.id, currencies, ids).value.0;
    var k := FindIndex(w.balances, IsNgn);
    assert k == |w.balances|;
  }

  /** `createUserWalletWithTransaction`: the default currencies. */
  function CreateUserWalletWithTransaction(db: Db, user: User, ids: WalletIds, now: nat, oracle: seq<Attempt>)
    : (r: Result<(WalletWithBalances, Db), Error>)
    requires |ids.balanceIds| == |DEFAULT_CURRENCIES| && |oracle| == 1 + MAX_RETRIES
    ensures r.Success? ==>
      var (w, db') := r.value;
      && w.wallet == Wallet(ids.walletId, user.id)
      && |w.balances| == |DEFAULT_CURRENCIES|
      && (forall i :: 0 <= i < |w.balances| ==>
          && w.balances[i].id == ids.balanceIds[i]
          && w.balances[i].walletId == ids.walletId
          && w.balances[i].currency == DEFAULT_CURRENCIES[i]
          && w.balances[i].balance == 0.0)
      && var a := ProviderRow(w.balances[0].id, user, now, ids.accountId, oracle);
      && a.Some?
      && db' == db.(wallets := db.wallets + [w.wallet], balances := db.balances + w.balances, accounts := db.accounts + [a.value])
    ensures r.Success? ==> ProviderDelivers(oracle) && r.value.1 == Provisioned(db, user, ids, now, oracle)
    ensures r.Failure? ==> r.error.Storage? || r.error == InternalServerError(FAILURE_MESSAGE)
    ensures r.Success? && Valid(db) ==> Valid(r.value.1)
  {
    DefaultsPassNgnGuard(db, user, ids, now, oracle);
    var r := ProvisionWith(db, user, DEFAULT_CURRENCIES, ids, now, oracle);
    if r.Success? then
      assert r.value.0.balances == ZeroBalances(ids.walletId, DEFAULT_CURRENCIES, ids.balanceIds);
      r
    else r
  }

  /** The store after provisioning `user` with the default currencies: the
      wallet, its zero balances, and the provider's account row on the first
      (NGN) balance. Nothing else changes. */
  function Provisioned(db: Db, user: User, ids: WalletIds, now: nat, oracle: seq<Attempt>): Db
    requires |ids.balanceIds| == |DEFAULT_CURRENCIES| && |oracle| == 1 + MAX_RETRIES
    requires ProviderDelivers(oracle)
  {
    db.(wallets := db.wallets + [Wallet(ids.walletId, user.id)],
        balances := db.balances + ZeroBalances(ids.walletId, DEFAULT_CURRENCIES, ids.balanceIds),
        accounts := db.accounts + [ProviderRow(ids.balanceIds[0], user, now, ids.accountId, oracle).value])
  }

  /** The ids given to one provisioning are free in the store, and the
      balance ids are pairwise distinct. */
  predicate FreshWalletIds(db: Db, ids: WalletIds) {
    && KeyFree(db.wallets, WalletId, ids.walletId)
    && Distinct(ids.balanceIds)
    && (forall i :: 0 <= i < |ids.balanceIds| ==> KeyFree(db.balances, BalanceId, ids.balanceIds[i]))
    && KeyFree(db.accounts, AccountId, ids.accountId)
  }

  /** On a consistent store, provisioning succeeds exactly when the user
      exists and has no wallet yet, the new ids are fresh, and the first
      response the provider delivers validates. */
  lemma ProvisioningSucceeds(db: Db, user: User, ids: WalletIds, now: nat, oracle: seq<Attempt>)
    requires |ids.balanceIds| == |DEFAULT_CURRENCIES| && |oracle| == 1 + MAX_RETRIES
    requires Valid(db)
    ensures CreateUserWalletWithTransaction(db, user, ids, now, oracle).Success? <==>
      && HasUser(db, user.id)
      && KeyFree(db.wallets, WalletOwner, user.id)
      && FreshWalletIds(db, ids)
      && ProviderDelivers(oracle)
  {
    CreateWalletSucceeds(db, user.id, DEFAULT_CURRENCIES, ids);
    var c := CreateWallet(db, user.id, DEFAULT_CURRENCIES, ids);
    if c.Success? {
      var w := c.value.0;
      var db1 := c.value.1;
      var bid := ids.balanceIds[0];
      assert IsNgn(w.balances[0]);
      assert FindIndex(w.balances, IsNgn) == 0;
      assert HasBalance(db1, bid) by {
        assert db1.balances[|db.balances|] == w.balances[0];
      }
      FreshBalanceHasNoAccount(db, bid);
      CreateVirtualAccountSucceeds(db1, bid, user, now, ids.accountId, oracle);
    }
  }

  /** On a consistent store a balance id that is not taken carries no
      account. */
  lemma FreshBalanceHasNoAccount(db: Db, balanceId: string)
    requires Valid(db)
    ensures KeyFree(db.balances, BalanceId, balanceId) ==> KeyFree(db.accounts, AccountBalance, balanceId)
  {
    forall k | 0 <= k < |db.accounts| && KeyFree(db.balances, BalanceId, balanceId)
      ensures db.accounts[k].balanceId != balanceId
    {
      assert HasBalance(db, db.accounts[k].balanceId);
    }
  }

  /** With the default currencies the NGN guard never fires, and the NGN
      balance is the first one created. */
  lemma DefaultsPassNgnGuard(db: Db, user: User, ids: WalletIds, now: nat, oracle: seq<Attempt>)
    requires |ids.balanceIds| == |DEFAULT_CURRENCIES| && |oracle| == 1 + MAX_RETRIES
    ensures ProvisionWith(db, user, DEFAULT_CURRENCIES, ids, now, oracle) != Failure(InternalServerError(NGN_BALANCE_MISSING))
    ensures ProvisionWith(db, user, DEFAULT_CURRENCIES, ids, now, oracle).Success? ==>
      var (w, db') := ProvisionWith(db, user, DEFAULT_CURRENCIES, ids, now, oracle).value;
      var a := ProviderRow(ids.balanceIds[0], user, now, ids.accountId, oracle);
      && a.Some?
      && db' == db.(wallets := db.wallets + [w.wallet], balances := db.balances + w.balances, accounts := db.accounts + [a.value])
  {
    var r := ProvisionWith(db, user, DEFAULT_CURRENCIES, ids, now, oracle);
    var c := CreateWallet(db, user.id, DEFAULT_CURRENCIES, ids);
    if c.Success? {
      var w := c.value.0;
      assert IsNgn(w.balances[0]);
      assert FindIndex(w.balances, IsNgn) == 0;
    }
    if r.Success? {
      var k :| 0 <= k < |DEFAULT_CURRENCIES| && DEFAULT_CURRENCIES[k] == NGN
        && (forall j :: 0 <= j < k ==> DEFAULT_CURRENCIES[j] != NGN)
        && var a := ProviderRow(ids.balanceIds[k], user, now, ids.accountId, oracle);
        && a.Some?
        && r.value.1 == db.(wallets := db.wallets + [r.value.0.wallet], balances := db.balances + r.value.0.balances, accounts := db.accounts + [a.value]);
      assert k == 0;
    }
  }

  /** `wallet.findUnique` by owner. */
  function FindWallet(db: Db, userId: string): (r: Option<Wallet>)
    ensures r.None? <==> forall i :: 0 <= i < |db.wallets| ==> db.wallets[i].userId != userId
    ensures r.Some? ==> r.value in db.wallets && r.value.userId == userId
  {
    var i := FindIndex(db.wallets, (w: Wallet) => w.userId == userId);
    if i < |db.wallets| then Some(db.wallets[i]) else None
  }

  /** The sort key of `orderBy: { currency: 'asc' }`. */
  function BalanceOrder(b: Balance): int { CurrencyOrder(b.currency) }

  /** The relation filter `where: { walletId }` on balances. */
  function InWallet(walletId: string): Balance -> bool {
    (b: Balance) => b.walletId == walletId
  }

  /** A wallet's balances, in ascending currency order: each stored balance
      of the wallet exactly as often as the store holds it, and no other. */
  function BalancesOf(db: Db, walletId: string): (r: seq<Balance>)
    ensures SortedBy(r, BalanceOrder)
    ensures forall b :: b in r <==> b in db.balances && b.walletId == walletId
    ensures forall b :: multiset(r)[b] == if b.walletId == walletId then multiset(db.balances)[b] else 0
  {
    var own := Filter(db.balances, InWallet(walletId));
    var r := SortBy(own, BalanceOrder);
    assert forall b :: b in r <==> b in multiset(own);
    r
  }

  /** `getUserWallet`: NotFound without a wallet; otherwise the wallet with
      its balances in ascending currency order, each with its account. */
  function GetUserWallet(db: Db, userId: string): (r: Result<WalletView, Error>)
    ensures r.Failure? <==> forall i :: 0 <= i < |db.wallets| ==> db.wallets[i].userId != userId
    ensures r.Failure? ==> r.error == NotFound(WALLET_NOT_FOUND)
    ensures r.Success? ==>
      var v := r.value;
      && v.wallet in db.wallets && v.wallet.userId == userId
      && (forall i, j :: 0 <= i < j < |v.balances| ==>
          CurrencyOrder(v.balances[i].balance.currency) <= CurrencyOrder(v.balances[j].balance.currency))
      && (forall b :: (exists i :: 0 <= i < |v.balances| && v.balances[i].balance == b) <==>
          b in db.balances && b.walletId == v.wallet.id)
      && (forall b :: multiset(ViewBalances(v.balances))[b] == if b.walletId == v.wallet.id then multiset(db.balances)[b] else 0)
      && forall i :: 0 <= i < |v.balances| ==>
        var va := v.balances[i].virtualAccount;
        && (va.Some? ==> va.value in db.accounts && va.value.balanceId == v.balances[i].balance.id)
        && (va.None? ==> forall k :: 0 <= k < |db.accounts| ==> db.accounts[k].balanceId != v.balances[i].balance.id)
  {
    match FindWallet(db, userId)
    case None => Failure(NotFound(WALLET_NOT_FOUND))
    case Some(w) =>
      var bs := BalancesOf(db, w.id);
      var views := WithAccounts(db, bs);
      ViewsListBalances(db, bs);
      assert ViewBalances(views) == bs;
      Success(WalletView(w, views))
  }

  /** The balances of a list of views, in order. */
  function ViewBalances(views: seq<BalanceView>): (r: seq<Balance>)
    ensures |r| == |views|
    ensures forall i :: 0 <= i < |r| ==> r[i] == views[i].balance
  {
    seq(|views|, i requires 0 <= i < |views| => views[i].balance)
  }

  /** The views list exactly the balances they were made from. */
  lemma ViewsListBalances(db: Db, bs: seq<Balance>)
    ensures var views := WithAccounts(db, bs);
      forall b :: (exists i :: 0 <= i < |views| && views[i].balance == b) <==> b in bs
  {
    var views := WithAccounts(db, bs);
    forall b ensures (exists i :: 0 <= i < |views| && views[i].balance == b) <==> b in bs {
      if b in bs {
        var i :| 0 <= i < |bs| && bs[i] == b;
        assert views[i].balance == b;
      }
    }
  }

  /** `include: { virtualAccount: true }` on each balance. */
  function WithAccounts(db: Db, bs: seq<Balance>): (r: seq<BalanceView>)
    ensures |r| == |bs|
    ensures forall i :: 0 <= i < |r| ==>
      && r[i].balance == bs[i]
      && (r[i].virtualAccount.Some? ==>
          r[i].virtualAccount.value in db.accounts && r[i].virtualAccount.value.balanceId == bs[i].id)
      && (r[i].virtualAccount.None? ==> forall k :: 0 <= k < |db.accounts| ==> db.accounts[k].balanceId != bs[i].id)
  {
    seq(|bs|, i requires 0 <= i < |bs| => BalanceView(bs[i], GetVirtualAccount(db, bs[i].id)))
  }

  /** Whether balance `b` belongs to a wallet owned by `userId` (the
      relation filter `wallet: { userId }`). */
  predicate OwnedBy(db: Db, b: Balance, userId: string) {
    exists i :: 0 <= i < |db.wallets| && db.wallets[i].id == b.walletId && db.wallets[i].userId == userId
  }

  /** `getBalance`: the amount of the first balance in `currency` of a
      wallet the user owns, or 0 when there is none. */
  function GetBalance(db: Db, userId: string, currency: Currency): (r: real)
    ensures (forall i :: 0 <= i < |db.balances| ==> !(db.balances[i].currency == currency && OwnedBy(db, db.balances[i], userId)))
      ==> r == 0.0
    ensures (exists i :: 0 <= i < |db.balances| && db.balances[i].currency == currency && OwnedBy(db, db.balances[i], userId))
      ==> exists b :: b in db.balances && b.currency == currency && OwnedBy(db, b, userId) && r == b.balance
  {
    var i := FindIndex(db.balances, (b: Balance) => b.currency == currency && OwnedBy(db, b, userId));
    if i < |db.balances| then db.balances[i].balance else 0.0
  }

  /** `getBalances`: no wallet gives the empty list; otherwise the wallet's
      balances in ascending currency order. */
  function GetBalances(db: Db, userId: string): (r: seq<Balance>)
    ensures (forall i :: 0 <= i < |db.wallets| ==> db.wallets[i].userId != userId) ==> r == []
    ensures SortedBy(r, BalanceOrder)
    ensures forall b :: b in r ==> b in db.balances && OwnedBy(db, b, userId)
    ensures FindWallet(db, userId).Some? ==>
      forall b :: b in db.balances && b.walletId == FindWallet(db, userId).value.id ==> b in r
    ensures FindWallet(db, userId).Some? ==>
      forall b :: multiset(r)[b] == if b.walletId == FindWallet(db, userId).value.id then multiset(db.balances)[b] else 0
  {
    match FindWallet(db, userId)
    case None => []
    case Some(w) =>
      var r := BalancesOf(db, w.id);
      assert forall b :: b in r ==> OwnedBy(db, b, userId) by {
        var i :| 0 <= i < |db.wallets| && db.wallets[i] == w;
      }
      r
  }

  /** `getBalances` lists exactly the balances `getUserWallet` returns, in
      the same order. */
  lemma GetBalancesMatchesWallet(db: Db, userId: string)
    requires GetUserWallet(db, userId).Success?
    ensures var v := GetUserWallet(db, userId).value;
      && |GetBalances(db, userId)| == |v.balances|
      && forall i :: 0 <= i < |v.balances| ==> GetBalances(db, userId)[i] == v.balances[i].balance
  {
  }

  /** Under the store's constraints `getBalance` agrees with `getBalances`:
      for a listed balance it is that balance's amount. */
  lemma GetBalanceOfListed(db: Db, userId: string, b: Balance)
    requires Valid(db) && b in GetBalances(db, userId)
    ensures GetBalance(db, userId, b.currency) == b.balance
  {
    ListedInOwnWallet(db, userId, b);
    forall b' | b' in db.balances && OwnedBy(db, b', userId) ensures b'.walletId == b.walletId {
      OwnerWallet(db, userId, b');
    }
    OnlyWalletBalance(db, userId, b);
  }

  /** When every balance the user owns sits in the wallet of `b`, the
      wallet-and-currency constraint leaves `b` as the only candidate. */
  lemma OnlyWalletBalance(db: Db, userId: string, b: Balance)
    requires UniqueBy(db.balances, BalanceSlot)
    requires b in db.balances && OwnedBy(db, b, userId)
    requires forall b' :: b' in db.balances && OwnedBy(db, b', userId) ==> b'.walletId == b.walletId
    ensures GetBalance(db, userId, b.currency) == b.balance
  {
    var k :| 0 <= k < |db.balances| && db.balances[k] == b;
    assert db.balances[k].currency == b.currency && OwnedBy(db, db.balances[k], userId);
    var b' :| b' in db.balances && b'.currency == b.currency && OwnedBy(db, b', userId)
      && GetBalance(db, userId, b.currency) == b'.balance;
    assert BalanceSlot(b) == BalanceSlot(b');
    UniqueKeyDetermines(db.balances, BalanceSlot, b, b');
  }

  /** A balance `getBalances` lists is a stored balance of the user's
      wallet. */
  lemma ListedInOwnWallet(db: Db, userId: string, b: Balance)
    requires b in GetBalances(db, userId)
    ensures FindWallet(db, userId).Some? && b in db.balances && b.walletId == FindWallet(db, userId).value.id
    ensures OwnedBy(db, b, userId)
  {
    var w := FindWallet(db, userId).value;
    assert b in BalancesOf(db, w.id);
  }

  /** ... and a currency `getBalances` does not list has balance 0. */
  lemma GetBalanceOfUnlisted(db: Db, userId: string, currency: Currency)
    requires Valid(db)
    requires forall b :: b in GetBalances(db, userId) ==> b.currency != currency
    ensures GetBalance(db, userId, currency) == 0.0
  {
    if exists k :: 0 <= k < |db.balances| && db.balances[k].currency == currency && OwnedBy(db, db.balances[k], userId) {
      var k :| 0 <= k < |db.balances| && db.balances[k].currency == currency && OwnedBy(db, db.balances[k], userId);
      var b := db.balances[k];
      OwnerWallet(db, userId, b);
    }
  }

  /** Under the store's constraints a balance a user owns sits in the one
      wallet `findUnique` returns for that user. */
  lemma OwnerWallet(db: Db, userId: string, b: Balance)
    requires Valid(db) && OwnedBy(db, b, userId)
    ensures FindWallet(db, userId).Some? && b.walletId == FindWallet(db, userId).value.id
  {
    var i :| 0 <= i < |db.wallets| && db.wallets[i].id == b.walletId && db.wallets[i].userId == userId;
    var w := FindWallet(db, userId).value;
    UniqueKeyDetermines(db.wallets, WalletOwner, db.wallets[i], w);
  }

  /** Legacy `createUserWallet`: NotFound for an unknown user before any
      transaction; otherwise provisioning in its own transaction. */
  function CreateUserWallet(db: Db, userId: string, ids: WalletIds, now: nat, oracle: seq<Attempt>)
    : (s: Step<WalletWithBalances>)
    requires |ids.balanceIds| == |DEFAULT_CURRENCIES| && |oracle| == 1 + MAX_RETRIES
    ensures !HasUser(db, userId) ==> s == Step(db, Failure(NotFound(USER_NOT_FOUND)))
    ensures s.result.Failure? ==> s.db == db
    ensures s.result.Success? ==>
      && HasUser(db, userId)
      && s.result.value.wallet == Wallet(ids.walletId, userId)
      && s.db.wallets == db.wallets + [s.result.value.wallet]
      && s.db.balances == db.balances + s.result.value.balances
      && ProviderDelivers(oracle)
      && s.db == Provisioned(db, UserById(db, userId).value, ids, now, oracle)
    ensures Valid(db) ==> Valid(s.db)
  {
    match UserById(db, userId)
    case None => Step(db, Failure(NotFound(USER_NOT_FOUND)))
    case Some(user) => RunTransaction(db, CreateUserWalletWithTransaction(db, user, ids, now, oracle))
  }

  /** On a consistent store the legacy call succeeds exactly when the user
      exists and has no wallet, the new ids are fresh, and the provider
      delivers a usable account. */
  lemma CreateUserWalletSucceeds(db: Db, userId: string, ids: WalletIds, now: nat, oracle: seq<Attempt>)
    requires |ids.balanceIds| == |DEFAULT_CURRENCIES| && |oracle| == 1 + MAX_RETRIES
    requires Valid(db)
    ensures CreateUserWallet(db, userId, ids, now, oracle).result.Success? <==>
      && HasUser(db, userId)
      && KeyFree(db.wallets, WalletOwner, userId)
      && FreshWalletIds(db, ids)
      && ProviderDelivers(oracle)
  {
    if HasUser(db, userId) {
      ProvisioningSucceeds(db, UserById(db, userId).value, ids, now, oracle);
    }
  }

  /** The balances of a wallet that is new to a consistent store are the
      ones written with it; written in ascending currency order,
      they are listed in that order. */
  lemma BalancesOfNewWallet(db: Db, db': Db, walletId: string, bs: seq<Balance>)
    requires forall k :: 0 <= k < |db.balances| ==> db.balances[k].walletId != walletId
    requires db'.balances == db.balances + bs
    requires forall i :: 0 <= i < |bs| ==> bs[i].walletId == walletId
    requires SortedBy(bs, BalanceOrder)
    ensures BalancesOf(db', walletId) == bs
  {
    NewWalletFilter(db.balances, walletId, bs);
    SortBySorted(bs, BalanceOrder);
  }

  /** Of earlier balances none of which is in the new wallet, followed by
      the new wallet's balances, the wallet filter keeps exactly the new
      ones. */
  lemma NewWalletFilter(before: seq<Balance>, walletId: string, bs: seq<Balance>)
    requires forall k :: 0 <= k < |before| ==> before[k].walletId != walletId
    requires forall i :: 0 <= i < |bs| ==> bs[i].walletId == walletId
    ensures Filter(before + bs, InWallet(walletId)) == bs
  {
    var p := InWallet(walletId);
    assert Filter(before, p) == [] by {
      forall b | b in before ensures !p(b) {
        var k :| 0 <= k < |before| && before[k] == b;
      }
    }
    FilterConcat(before, bs, p);
    FilterKeepsAll(bs, p);
    assert [] + bs == bs;
  }

  /** A wallet written, with its balances, onto a consistent store is the
      one `getBalances` reads for its owner afterwards, and its balances are
      all that is listed. */
  lemma NewWalletListed(db: Db, db': Db, w: WalletWithBalances)
    requires Valid(db) && Valid(db')
    requires db'.wallets == db.wallets + [w.wallet] && db'.balances == db.balances + w.balances
    requires forall i :: 0 <= i < |w.balances| ==> w.balances[i].walletId == w.wallet.id
    requires SortedBy(w.balances, BalanceOrder)
    ensures GetBalances(db', w.wallet.userId) == w.balances
  {
    assert db'.wallets[|db.wallets|] == w.wallet;
    UniqueKeyDetermines(db'.wallets, WalletOwner, FindWallet(db', w.wallet.userId).value, w.wallet);
    LastKeyFree(db.wallets, WalletId, w.wallet);
    assert forall k :: 0 <= k < |db.balances| ==> db.balances[k].walletId != w.wallet.id by {
      forall k | 0 <= k < |db.balances| ensures db.balances[k].walletId != w.wallet.id {
        assert HasWallet(db, db.balances[k].walletId);
      }
    }
    BalancesOfNewWallet(db, db', w.wallet.id, w.balances);
  }

  /** After provisioning on a consistent store, `getBalances` for the user
      lists the four new zero balances in the order NGN, USD, GBP, EUR. */
  lemma ProvisionedBalancesListed(db: Db, user: User, ids: WalletIds, now: nat, oracle: seq<Attempt>)
    requires |ids.balanceIds| == |DEFAULT_CURRENCIES| && |oracle| == 1 + MAX_RETRIES
    requires Valid(db)
    requires CreateUserWalletWithTransaction(db, user, ids, now, oracle).Success?
    ensures var r := CreateUserWalletWithTransaction(db, user, ids, now, oracle);
      GetBalances(r.value.1, user.id) == r.value.0.balances
  {
    var r := CreateUserWalletWithTransaction(db, user, ids, now, oracle);
    var w := r.value.0;
    var db' := r.value.1;
    DefaultOrderAscends(w.balances);
    NewWalletListed(db, db', w);
  }

  /** Balances in the default currency order have strictly ascending sort
      keys. */
  lemma DefaultOrderAscends(bs: seq<Balance>)
    requires |bs| == |DEFAULT_CURRENCIES|
    requires forall i :: 0 <= i < |bs| ==> bs[i].currency == DEFAULT_CURRENCIES[i]
    ensures forall i, j :: 0 <= i < j < |bs| ==> BalanceOrder(bs[i]) < BalanceOrder(bs[j])
  {
    assert forall i :: 0 <= i < |bs| ==> BalanceOrder(bs[i]) == i by {
      forall i | 0 <= i < |bs| ensures BalanceOrder(bs[i]) == i {
        assert bs[i].currency == DEFAULT_CURRENCIES[i];
      }
    }
  }
}
