/** The ledger's per-currency summary (`getTransactionSummary`): over the
    user's COMPLETED entries that pass the filters, grouped by currency in
    order of first appearance, the income (sum of positive amounts), the
    expenses (sum of the absolute values of the other amounts) and the net
    (signed sum). Amounts are exact, as with the decimal type the service
    accumulates in. */
module LedgerSummary {
  import opened Wrappers
  import opened Sorting
  import opened Store
  import Ledger

  datatype SummaryFilters = SummaryFilters(
    currency: Option<Currency>,
    startDate: Option<int>,
    endDate: Option<int>)

  datatype CurrencyTotals = CurrencyTotals(
    currency: Currency,
    totalIncome: real,
    totalExpenses: real,
    netAmount: real)

  function TotalsCurrency(e: CurrencyTotals): Currency { e.currency }

  /** The summary's `where`: the owner, COMPLETED, and each filter present. */
  predicate Counted(userId: string, f: SummaryFilters, t: Txn) {
    && t.userId == userId
    && t.status == Completed
    && (f.currency.Some? ==> t.currency == f.currency.value)
    && Ledger.InDateRange(t, f.startDate, f.endDate)
  }

  /** The entries the summary adds up: every counted stored entry, each as
      often as the store holds it, and nothing else. */
  function Selected(db: Db, userId: string, f: SummaryFilters): (r: seq<Txn>)
    ensures forall t :: t in r <==> t in db.txns && Counted(userId, f, t)
    ensures forall t :: multiset(r)[t] == if Counted(userId, f, t) then multiset(db.txns)[t] else 0
  {
    Filter(db.txns, (t: Txn) => Counted(userId, f, t))
  }

  // Reference sums over a list of entries, for one currency.

  /** Sum of the positive amounts in currency `c`. */
  function Income(ts: seq<Txn>, c: Currency): real {
    if |ts| == 0 then 0.0
    else
      var t := ts[|ts| - 1];
      Income(ts[..|ts| - 1], c) + (if t.currency == c && t.amount > 0.0 then t.amount else 0.0)
  }

  /** Sum of the absolute values of the non-positive amounts in currency `c`. */
  function Expenses(ts: seq<Txn>, c: Currency): real {
    if |ts| == 0 then 0.0
    else
      var t := ts[|ts| - 1];
      Expenses(ts[..|ts| - 1], c) + (if t.currency == c && t.amount <= 0.0 then -t.amount else 0.0)
  }

  /** Signed sum of the amounts in currency `c`. */
  function Net(ts: seq<Txn>, c: Currency): real {
    if |ts| == 0 then 0.0
    else
      var t := ts[|ts| - 1];
      Net(ts[..|ts| - 1], c) + (if t.currency == c then t.amount else 0.0)
  }

  predicate Occurs(ts: seq<Txn>, c: Currency) {
    exists k :: 0 <= k < |ts| && ts[k].currency == c
  }

  predicate Listed(r: seq<CurrencyTotals>, c: Currency) {
    exists i :: 0 <= i < |r| && r[i].currency == c
  }

  /** Net is income minus expenses, and neither of those is negative. */
  lemma {:induction false} NetIsIncomeMinusExpenses(ts: seq<Txn>, c: Currency)
    ensures Net(ts, c) == Income(ts, c) - Expenses(ts, c)
    ensures Income(ts, c) >= 0.0 && Expenses(ts, c) >= 0.0
  {
    if |ts| > 0 {
      NetIsIncomeMinusExpenses(ts[..|ts| - 1], c);
    }
  }

  /** A currency no entry has sums to zero everywhere. */
  lemma {:induction false} AbsentSumsZero(ts: seq<Txn>, c: Currency)
    requires !Occurs(ts, c)
    ensures Income(ts, c) == 0.0 && Expenses(ts, c) == 0.0 && Net(ts, c) == 0.0
  {
    if |ts| > 0 {
      var p := ts[..|ts| - 1];
      assert !Occurs(p, c) by {
        forall k | 0 <= k < |p| ensures p[k].currency != c {
          assert p[k] == ts[k];
        }
      }
      AbsentSumsZero(p, c);
      assert ts[|ts| - 1].currency != c;
    }
  }

  /** One entry's contribution to its currency's running totals. */
  function AddAmount(e: CurrencyTotals, amount: real): CurrencyTotals {
    if amount > 0.0 then
      e.(totalIncome := e.totalIncome + amount, netAmount := e.netAmount + amount)
    else
      e.(totalExpenses := e.totalExpenses + (-amount), netAmount := e.netAmount + amount)
  }

  /** The position of the group of currency `c`, or `|acc|` when there is
      none yet (the lookup `acc[currency]`). */
  function GroupIndex(acc: seq<CurrencyTotals>, c: Currency): (i: nat)
    ensures i <= |acc|
    ensures i < |acc| ==> acc[i].currency == c
    ensures forall j :: 0 <= j < i ==> acc[j].currency != c
  {
    if |acc| == 0 then 0
    else if acc[0].currency == c then 0
    else 1 + GroupIndex(acc[1..], c)
  }

  /** One step of the `reduce`: start a zero group for a new currency, then
      add the entry to its group. Every existing group keeps its place and its
      currency, the entry's currency is listed afterwards, a group is added
      only when that currency had none, and groups of other currencies are
      untouched. */
  function Accumulate(acc: seq<CurrencyTotals>, t: Txn): (r: seq<CurrencyTotals>)
    ensures |r| == |acc| + (if Listed(acc, t.currency) then 0 else 1)
    ensures Listed(r, t.currency)
    ensures forall j :: 0 <= j < |acc| ==> r[j].currency == acc[j].currency
    ensures forall j :: 0 <= j < |acc| && acc[j].currency != t.currency ==> r[j] == acc[j]
  {
    var i := GroupIndex(acc, t.currency);
    if i < |acc| then
      var r := acc[i := AddAmount(acc[i], t.amount)];
      assert r[i].currency == t.currency;
      r
    else
      var r := acc + [AddAmount(CurrencyTotals(t.currency, 0.0, 0.0, 0.0), t.amount)];
      assert r[|acc|].currency == t.currency;
      r
  }

  /** The whole `reduce`, left to right, then `Object.values`: one group per
      currency that occurs, holding that currency's reference sums. */
  function Summarize(ts: seq<Txn>): (r: seq<CurrencyTotals>)
    ensures SummaryOf(ts, r)
  {
    if |ts| == 0 then
      assert forall c :: !Occurs(ts, c);
      []
    else
      var p := ts[..|ts| - 1];
      var t := ts[|ts| - 1];
      AccumulateStep(p, t, Summarize(p));
      assert p + [t] == ts;
      Accumulate(Summarize(p), t)
  }

  /** `getTransactionSummary`: the groups of the counted entries. */
  function GetTransactionSummary(db: Db, userId: string, f: SummaryFilters): (r: seq<CurrencyTotals>)
    ensures SummaryOf(Selected(db, userId, f), r)
  {
    Summarize(Selected(db, userId, f))
  }

  /** What the reduction computes: one group per currency that occurs, no
      other group, and each group's totals are the reference sums. */
  predicate SummaryOf(ts: seq<Txn>, r: seq<CurrencyTotals>) {
    && UniqueBy(r, TotalsCurrency)
    && (forall c :: Listed(r, c) <==> Occurs(ts, c))
    && forall i :: 0 <= i < |r| ==>
      && r[i].totalIncome == Income(ts, r[i].currency)
      && r[i].totalExpenses == Expenses(ts, r[i].currency)
      && r[i].netAmount == Net(ts, r[i].currency)
  }

  /** Adding entry `t` to the groups of `p` gives the groups of `p + [t]`. */
  lemma AccumulateStep(p: seq<Txn>, t: Txn, acc: seq<CurrencyTotals>)
    requires SummaryOf(p, acc)
    ensures SummaryOf(p + [t], Accumulate(acc, t))
  {
    var i := GroupIndex(acc, t.currency);
    if i < |acc| {
      AccumulateStepExisting(p, t, acc, i);
    } else {
      AccumulateStepNew(p, t, acc);
    }
  }

  /** The reference sums after appending one entry. */
  lemma SumsAppend(p: seq<Txn>, t: Txn, c: Currency)
    ensures Income(p + [t], c) == Income(p, c) + (if t.currency == c && t.amount > 0.0 then t.amount else 0.0)
    ensures Expenses(p + [t], c) == Expenses(p, c) + (if t.currency == c && t.amount <= 0.0 then -t.amount else 0.0)
    ensures Net(p + [t], c) == Net(p, c) + (if t.currency == c then t.amount else 0.0)
  {
    assert (p + [t])[..|p|] == p;
  }

  /** The currencies of `p + [t]` are those of `p` and the currency of `t`. */
  lemma OccursAppend(p: seq<Txn>, t: Txn)
    ensures forall c :: Occurs(p + [t], c) <==> Occurs(p, c) || c == t.currency
  {
    var ts := p + [t];
    forall c ensures Occurs(ts, c) <==> Occurs(p, c) || c == t.currency {
      if Occurs(p, c) {
        var k :| 0 <= k < |p| && p[k].currency == c;
        assert ts[k] == p[k];
      }
      if Occurs(ts, c) && c != t.currency {
        var k :| 0 <= k < |ts| && ts[k].currency == c;
        assert k < |p| && ts[k] == p[k];
      }
      if c == t.currency {
        assert ts[|p|].currency == c;
      }
    }
  }

  /** An entry whose currency has group `i` updates that group only, and
      the result is the summary of `p + [t]`. */
  lemma AccumulateStepExisting(p: seq<Txn>, t: Txn, acc: seq<CurrencyTotals>, i: nat)
    requires SummaryOf(p, acc)
    requires i < |acc| && acc[i].currency == t.currency
    ensures SummaryOf(p + [t], acc[i := AddAmount(acc[i], t.amount)])
  {
    var r := acc[i := AddAmount(acc[i], t.amount)];
    OccursAppend(p, t);
    assert forall c :: Listed(r, c) <==> Listed(acc, c) by {
      forall c ensures Listed(r, c) <==> Listed(acc, c) {
        if Listed(r, c) {
          var j :| 0 <= j < |r| && r[j].currency == c;
          assert acc[j].currency == c;
        }
        if Listed(acc, c) {
          var j :| 0 <= j < |acc| && acc[j].currency == c;
          assert r[j].currency == c;
        }
      }
    }
    forall a, b | 0 <= a < b < |r| ensures r[a].currency != r[b].currency {
      assert r[a].currency == acc[a].currency && r[b].currency == acc[b].currency;
    }
    forall j | 0 <= j < |r|
      ensures r[j].totalIncome == Income(p + [t], r[j].currency)
      ensures r[j].totalExpenses == Expenses(p + [t], r[j].currency)
      ensures r[j].netAmount == Net(p + [t], r[j].currency)
    {
      SumsAppend(p, t, r[j].currency);
      if j != i {
        assert acc[j].currency != acc[i].currency;
      }
    }
  }

  /** An entry in a currency without a group opens one at the end, and the
      result is the summary of `p + [t]`. */
  lemma AccumulateStepNew(p: seq<Txn>, t: Txn, acc: seq<CurrencyTotals>)
    requires SummaryOf(p, acc) && !Listed(acc, t.currency)
    ensures SummaryOf(p + [t], acc + [AddAmount(CurrencyTotals(t.currency, 0.0, 0.0, 0.0), t.amount)])
  {
    var r := acc + [AddAmount(CurrencyTotals(t.currency, 0.0, 0.0, 0.0), t.amount)];
    OccursAppend(p, t);
    AbsentSumsZero(p, t.currency);
    forall c ensures Listed(r, c) <==> Listed(acc, c) || c == t.currency {
      if Listed(acc, c) {
        var j :| 0 <= j < |acc| && acc[j].currency == c;
        assert r[j] == acc[j];
      }
      if c == t.currency {
        assert r[|acc|].currency == c;
      }
    }
    forall a, b | 0 <= a < b < |r| ensures r[a].currency != r[b].currency {
      if b == |acc| {
        assert r[a] == acc[a];
      } else {
        assert r[a] == acc[a] && r[b] == acc[b];
      }
    }
    forall j | 0 <= j < |r|
      ensures r[j].totalIncome == Income(p + [t], r[j].currency)
      ensures r[j].totalExpenses == Expenses(p + [t], r[j].currency)
      ensures r[j].netAmount == Net(p + [t], r[j].currency)
    {
      SumsAppend(p, t, r[j].currency);
      if j < |acc| {
        assert r[j] == acc[j];
      }
    }
  }

  /** The summary of the store: one group per currency among the user's
      counted entries, each currency once; income and expenses are never
      negative and net is their difference. */
  lemma SummaryProperties(db: Db, userId: string, f: SummaryFilters)
    ensures var ts := Selected(db, userId, f);
      var r := GetTransactionSummary(db, userId, f);
      && UniqueBy(r, TotalsCurrency)
      && (forall c :: Listed(r, c) <==> Occurs(ts, c))
      && forall i :: 0 <= i < |r| ==>
        && r[i].totalIncome == Income(ts, r[i].currency) >= 0.0
        && r[i].totalExpenses == Expenses(ts, r[i].currency) >= 0.0
        && r[i].netAmount == Net(ts, r[i].currency)
        && r[i].netAmount == r[i].totalIncome - r[i].totalExpenses
  {
    var ts := Selected(db, userId, f);
    var r := GetTransactionSummary(db, userId, f);
    forall i | 0 <= i < |r|
      ensures Income(ts, r[i].currency) >= 0.0 && Expenses(ts, r[i].currency) >= 0.0
      ensures Net(ts, r[i].currency) == Income(ts, r[i].currency) - Expenses(ts, r[i].currency)
    {
      NetIsIncomeMinusExpenses(ts, r[i].currency);
    }
  }

  /** Only counted entries contribute: a pending or failed entry, another
      user's entry, or one outside the filters changes nothing. */
  lemma UncountedEntryIgnored(db: Db, userId: string, f: SummaryFilters, t: Txn)
    requires !Counted(userId, f, t)
    ensures GetTransactionSummary(db.(txns := db.txns + [t]), userId, f) == GetTransactionSummary(db, userId, f)
  {
    var db' := db.(txns := db.txns + [t]);
    var p := (u: Txn) => Counted(userId, f, u);
    FilterAppend(db.txns, t, p);
    assert Selected(db', userId, f) == Filter(db.txns, p) + [];
    assert Filter(db.txns, p) + [] == Selected(db, userId, f);
  }

  /** An entry in a currency with no group yet opens a group at the end. */
  lemma AccumulateNew(acc: seq<CurrencyTotals>, t: Txn)
    requires !Listed(acc, t.currency)
    ensures Accumulate(acc, t) == acc + [AddAmount(CurrencyTotals(t.currency, 0.0, 0.0, 0.0), t.amount)]
  {
    var i := GroupIndex(acc, t.currency);
    assert i == |acc|;
  }

  /** An entry in a currency that has a group is added to that group only. */
  lemma AccumulateExisting(acc: seq<CurrencyTotals>, t: Txn, i: nat)
    requires i < |acc| && acc[i].currency == t.currency
    requires forall j :: 0 <= j < i ==> acc[j].currency != t.currency
    ensures Accumulate(acc, t) == acc[i := AddAmount(acc[i], t.amount)]
  {
    var k := GroupIndex(acc, t.currency);
    assert k == i;
  }

  /** The worked example opens with +100 NGN: one NGN group. */
  lemma WorkedExampleFirst(ts: seq<Txn>)
    requires |ts| >= 1
    requires ts[0].currency == NGN && ts[0].amount == 100.0
    ensures Summarize(ts[..1]) == [CurrencyTotals(NGN, 100.0, 0.0, 100.0)]
  {
    var p1 := ts[..1];
    assert p1[..0] == [] && p1[0] == ts[0];
    assert AddAmount(CurrencyTotals(NGN, 0.0, 0.0, 0.0), ts[0].amount) == CurrencyTotals(NGN, 100.0, 0.0, 100.0);
    AccumulateNew([], ts[0]);
  }

  /** Then -30 NGN is an expense in the same group. */
  lemma WorkedExampleSecond(ts: seq<Txn>)
    requires |ts| >= 2
    requires ts[0].currency == NGN && ts[0].amount == 100.0
    requires ts[1].currency == NGN && ts[1].amount == -30.0
    ensures Summarize(ts[..2]) == [CurrencyTotals(NGN, 100.0, 30.0, 70.0)]
  {
    var p2 := ts[..2];
    assert p2[..1] == ts[..1] && p2[1] == ts[1];
    ExpenseStep(ts[1]);
    WorkedExampleFirst(ts);
  }

  lemma ExpenseStep(t: Txn)
    requires t.currency == NGN && t.amount == -30.0
    ensures Accumulate([CurrencyTotals(NGN, 100.0, 0.0, 100.0)], t) == [CurrencyTotals(NGN, 100.0, 30.0, 70.0)]
  {
    var g1 := CurrencyTotals(NGN, 100.0, 0.0, 100.0);
    var g2 := CurrencyTotals(NGN, 100.0, 30.0, 70.0);
    assert [g1][0 := g2] == [g2];
    assert AddAmount(g1, t.amount) == g2;
    AccumulateExisting([g1], t, 0);
  }

  lemma UsdStep(t: Txn)
    requires t.currency == USD && t.amount == 50.0
    ensures Accumulate([CurrencyTotals(NGN, 100.0, 30.0, 70.0)], t)
      == [CurrencyTotals(NGN, 100.0, 30.0, 70.0), CurrencyTotals(USD, 50.0, 0.0, 50.0)]
  {
    var g2 := CurrencyTotals(NGN, 100.0, 30.0, 70.0);
    var g3 := CurrencyTotals(USD, 50.0, 0.0, 50.0);
    var acc := [g2];
    assert acc[1..] == [];
    assert GroupIndex(acc, USD) == 1;
    assert AddAmount(CurrencyTotals(USD, 0.0, 0.0, 0.0), t.amount) == g3;
    assert acc + [g3] == [g2, g3];
  }

  /** The worked example: +100 NGN, -30 NGN and +50 USD, all completed, give
      NGN 100 / 30 / 70 and USD 50 / 0 / 50, in that order. */
  lemma WorkedExample(ts: seq<Txn>)
    requires |ts| == 3
    requires ts[0].currency == NGN && ts[0].amount == 100.0
    requires ts[1].currency == NGN && ts[1].amount == -30.0
    requires ts[2].currency == USD && ts[2].amount == 50.0
    ensures Summarize(ts) == [
      CurrencyTotals(NGN, 100.0, 30.0, 70.0),
      CurrencyTotals(USD, 50.0, 0.0, 50.0)]
  {
    UsdStep(ts[2]);
    WorkedExampleSecond(ts);
  }
}
