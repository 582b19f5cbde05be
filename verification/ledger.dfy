/** The transaction ledger (`TransactionService`): posting single and batched
    entries, the filtered newest-first listing, and lookups by id, reference
    and batch.

    `randomUUID()` draws, store-assigned row ids and the clock are parameters:
    a posting is given the uuid its reference is built from, the id the store
    assigns to the row, and the instant it is written. */
module Ledger {
  import opened Wrappers
  import opened Sorting
  import opened Text
  import opened Store

  const REFERENCE_PREFIX := "TXN-"
  const BATCH_PREFIX := "BATCH-"
  const DEFAULT_LIMIT: nat := 50
  const NOT_FOUND_MESSAGE := "Transaction not found"
  const EMPTY_BATCH_MESSAGE := "Batch must contain at least one transaction"
  const MIXED_OWNER_MESSAGE := "All transactions in batch must belong to same user"

  /** The fields of one posting. `status` is optional for a single posting and
      ignored for a batch entry. */
  datatype EntryInput = EntryInput(
    userId: string,
    walletId: string,
    amount: real,
    currency: Currency,
    kind: TxnType,
    status: Option<TxnStatus>,
    description: Option<string>,
    externalReference: Option<string>,
    metadata: Option<string>)

  datatype BatchInput = BatchInput(
    userId: string,
    transactions: seq<EntryInput>,
    batchDescription: Option<string>)

  /** Listing filters; every one is optional. A missing filters object is
      `NoFilters`. Dates are instants on the store's clock. */
  datatype Filters = Filters(
    kind: Option<TxnType>,
    currency: Option<Currency>,
    status: Option<TxnStatus>,
    startDate: Option<int>,
    endDate: Option<int>,
    limit: Option<nat>,
    offset: Option<nat>)

  const NoFilters := Filters(None, None, None, None, None, None, None)

  function GenerateReference(uuid: string): string {
    REFERENCE_PREFIX + uuid
  }

  function GenerateBatchId(uuid: string): string {
    BATCH_PREFIX + uuid
  }

  predicate StartsWith(s: string, prefix: string) {
    |prefix| <= |s| && s[..|prefix|] == prefix
  }

  /** `createdAt >= startDate` and `createdAt <= endDate`, each only when given. */
  predicate InDateRange(t: Txn, startDate: Option<int>, endDate: Option<int>) {
    && (startDate.Some? ==> t.createdAt >= startDate.value)
    && (endDate.Some? ==> t.createdAt <= endDate.value)
  }

  /** The listing's `where`: the owner, and each filter that is present. */
  predicate MatchesQuery(userId: string, f: Filters, t: Txn) {
    && t.userId == userId
    && (f.kind.Some? ==> t.kind == f.kind.value)
    && (f.currency.Some? ==> t.currency == f.currency.value)
    && (f.status.Some? ==> t.status == f.status.value)
    && InDateRange(t, f.startDate, f.endDate)
  }

  /** `limit || 50`: a missing or zero limit means 50. */
  function EffectiveLimit(f: Filters): (n: nat)
    ensures n >= 1
    ensures f.limit.Some? && f.limit.value > 0 ==> n == f.limit.value
    ensures f.limit.None? || f.limit.value == 0 ==> n == DEFAULT_LIMIT
  {
    if f.limit.Some? && f.limit.value != 0 then f.limit.value else DEFAULT_LIMIT
  }

  /** `offset || 0`. */
  function EffectiveOffset(f: Filters): nat {
    f.offset.GetOr(0)
  }

  function Min(a: int, b: int): int { if a <= b then a else b }
  function Max(a: int, b: int): int { if a >= b then a else b }

  /** `skip` then `take`: the window of `s` that starts at `offset` and holds
      at most `limit` elements. */
  function Page<T>(s: seq<T>, offset: nat, limit: nat): (r: seq<T>)
    ensures |r| == Min(limit, Max(0, |s| - offset))
    ensures forall i :: 0 <= i < |r| ==> r[i] == s[offset + i]
  {
    var rest := if offset <= |s| then s[offset..] else [];
    if limit <= |rest| then rest[..limit] else rest
  }

  /** A page of `s` is a slice of `s`, so it keeps the order of `s` and
      holds nothing `s` does not. */
  lemma PageOfSorted<T>(s: seq<T>, key: T -> int, offset: nat, limit: nat)
    requires SortedBy(s, key)
    ensures SortedBy(Page(s, offset, limit), key)
    ensures multiset(Page(s, offset, limit)) <= multiset(s)
  {
    var r := Page(s, offset, limit);
    if offset <= |s| {
      var hi := offset + |r|;
      assert r == s[offset..hi];
      SliceSorted(s, key, offset, hi);
      assert s == s[..offset] + s[offset..hi] + s[hi..];
    } else {
      assert r == [];
    }
  }

  function NewestFirst(t: Txn): int { -t.createdAt }
  function OldestFirst(t: Txn): int { t.createdAt }

  /** The user's entries that pass the filters, in store order. */
  function Matching(db: Db, userId: string, f: Filters): (r: seq<Txn>)
    ensures forall t :: t in r <==> t in db.txns && MatchesQuery(userId, f, t)
  {
    Filter(db.txns, (t: Txn) => MatchesQuery(userId, f, t))
  }

  /** The listing before paging: the matching entries, newest first. */
  function NewestMatching(db: Db, userId: string, f: Filters): (r: seq<Txn>)
    ensures SortedBy(r, NewestFirst)
    ensures multiset(r) == multiset(Matching(db, userId, f))
  {
    SortBy(Matching(db, userId, f), NewestFirst)
  }

  /** `getUserTransactions`: the matching entries, newest first, after
      skipping `offset || 0` of them and keeping at most `limit || 50`. */
  function GetUserTransactions(db: Db, userId: string, f: Filters): (r: seq<Txn>)
    ensures |r| <= EffectiveLimit(f)
    ensures SortedBy(r, NewestFirst)
    ensures multiset(r) <= multiset(Matching(db, userId, f))
  {
    var ordered := NewestMatching(db, userId, f);
    PageOfSorted(ordered, NewestFirst, EffectiveOffset(f), EffectiveLimit(f));
    Page(ordered, EffectiveOffset(f), EffectiveLimit(f))
  }

  /** The listing holds only the user's entries that pass every filter, newest
      first, as many as the page allows, and no entry more often than the
      store does. */
  lemma ListingIsSortedSelection(db: Db, userId: string, f: Filters)
    ensures var r := GetUserTransactions(db, userId, f);
      && (forall t :: t in r ==> t in db.txns && MatchesQuery(userId, f, t))
      && (forall i, j :: 0 <= i < j < |r| ==> r[i].createdAt >= r[j].createdAt)
      && |r| == Min(EffectiveLimit(f), Max(0, |Matching(db, userId, f)| - EffectiveOffset(f)))
      && multiset(r) <= multiset(Matching(db, userId, f))
  {
    var ordered := NewestMatching(db, userId, f);
    var r := Page(ordered, EffectiveOffset(f), EffectiveLimit(f));
    PageOfSorted(ordered, NewestFirst, EffectiveOffset(f), EffectiveLimit(f));
    PageFacts(db, userId, f, ordered, r);
  }

  lemma PageFacts(db: Db, userId: string, f: Filters, ordered: seq<Txn>, r: seq<Txn>)
    requires multiset(ordered) == multiset(Matching(db, userId, f))
    requires multiset(r) <= multiset(ordered)
    requires SortedBy(r, NewestFirst)
    ensures forall t :: t in r ==> t in db.txns && MatchesQuery(userId, f, t)
    ensures forall i, j :: 0 <= i < j < |r| ==> r[i].createdAt >= r[j].createdAt
  {
    forall t | t in r ensures t in db.txns && MatchesQuery(userId, f, t) {
      assert t in multiset(r);
      assert t in multiset(Matching(db, userId, f));
    }
    forall i, j | 0 <= i < j < |r| ensures r[i].createdAt >= r[j].createdAt {
      assert NewestFirst(r[i]) <= NewestFirst(r[j]);
    }
  }

  /** The first page holds a newest matching entry: when the offset is 0 and
      some entry matches, no matching entry is newer than the first result. */
  lemma FirstPageStartsWithNewest(db: Db, userId: string, f: Filters)
    requires EffectiveOffset(f) == 0
    requires |Matching(db, userId, f)| > 0
    ensures |GetUserTransactions(db, userId, f)| >= 1
    ensures forall t :: t in Matching(db, userId, f) ==>
      t.createdAt <= GetUserTransactions(db, userId, f)[0].createdAt
  {
    var m := Matching(db, userId, f);
    var ordered := NewestMatching(db, userId, f);
    var r := GetUserTransactions(db, userId, f);
    ListingIsSortedSelection(db, userId, f);
    assert r[0] == ordered[0];
    forall t | t in m ensures t.createdAt <= r[0].createdAt {
      assert t in multiset(ordered);
      var k :| 0 <= k < |ordered| && ordered[k] == t;
      if k > 0 {
        assert NewestFirst(ordered[0]) <= NewestFirst(ordered[k]);
      }
    }
  }

  /** When the first page is large enough it holds every matching entry, each
      exactly as often as the store does. */
  lemma FirstPageIsComplete(db: Db, userId: string, f: Filters)
    requires EffectiveOffset(f) == 0
    requires |Matching(db, userId, f)| <= EffectiveLimit(f)
    ensures multiset(GetUserTransactions(db, userId, f)) == multiset(Matching(db, userId, f))
  {
    var ordered := NewestMatching(db, userId, f);
    var r := GetUserTransactions(db, userId, f);
    ListingIsSortedSelection(db, userId, f);
    assert ordered[0..] == ordered;
    assert r == ordered;
  }

  /** The same filters with an explicit offset and limit. */
  function WithPaging(f: Filters, offset: nat, limit: nat): Filters {
    f.(offset := Some(offset), limit := Some(limit))
  }

  /** The listing with an explicit non-zero limit is that page of the
      newest-first ordering of the matching entries. */
  lemma ListingWithPaging(db: Db, userId: string, f: Filters, offset: nat, limit: nat)
    requires limit > 0
    ensures GetUserTransactions(db, userId, WithPaging(f, offset, limit))
         == Page(NewestMatching(db, userId, f), offset, limit)
  {
    var g := WithPaging(f, offset, limit);
    MatchingIgnoresPaging(db, userId, f, g);
    assert EffectiveOffset(g) == offset && EffectiveLimit(g) == limit;
  }

  /** Pages tile an ordering: the page at `offset` of `limit1` elements,
      followed by the page right after it, is the page at `offset` of both
      sizes together. With `ListingWithPaging`, consecutive listing calls
      therefore neither skip nor repeat an entry. */
  lemma PagesConcatenate<T>(s: seq<T>, offset: nat, limit1: nat, limit2: nat)
    ensures Page(s, offset, limit1) + Page(s, offset + limit1, limit2) == Page(s, offset, limit1 + limit2)
  {
    var first := Page(s, offset, limit1);
    var second := Page(s, offset + limit1, limit2);
    var both := Page(s, offset, limit1 + limit2);
    assert |first + second| == |both|;
    forall i | 0 <= i < |both| ensures (first + second)[i] == both[i] {
      if i < |first| {
        assert (first + second)[i] == first[i];
      } else {
        assert (first + second)[i] == second[i - |first|];
      }
    }
  }

  /** Which entries match does not depend on `limit` and `offset`. */
  lemma MatchingIgnoresPaging(db: Db, userId: string, f: Filters, g: Filters)
    requires g == f.(offset := g.offset, limit := g.limit)
    ensures Matching(db, userId, g) == Matching(db, userId, f)
    ensures NewestMatching(db, userId, g) == NewestMatching(db, userId, f)
  {
    FilterAgrees(db.txns, (t: Txn) => MatchesQuery(userId, g, t), (t: Txn) => MatchesQuery(userId, f, t));
  }

  /** `getTransactionById`: NotFound exactly when no entry has the id. */
  function GetTransactionById(db: Db, id: string): (r: Result<Txn, Error>)
    ensures r.Failure? <==> forall i :: 0 <= i < |db.txns| ==> db.txns[i].id != id
    ensures r.Failure? ==> r.error == NotFound(NOT_FOUND_MESSAGE)
    ensures r.Success? ==> r.value in db.txns && r.value.id == id
    ensures r.Success? && Valid(db) ==> forall t :: t in db.txns && t.id == id ==> t == r.value
  {
    var i := FindIndex(db.txns, (t: Txn) => t.id == id);
    if i == |db.txns| then Failure(NotFound(NOT_FOUND_MESSAGE))
    else
      var t := db.txns[i];
      assert forall u :: u in db.txns && u.id == id && Valid(db) ==> u == t by {
        forall u | u in db.txns && u.id == id && Valid(db) ensures u == t {
          UniqueKeyDetermines(db.txns, TxnId, u, t);
        }
      }
      Success(t)
  }

  /** `getTransactionByReference`: NotFound exactly when no entry has the
      reference. */
  function GetTransactionByReference(db: Db, reference: string): (r: Result<Txn, Error>)
    ensures r.Failure? <==> forall i :: 0 <= i < |db.txns| ==> db.txns[i].reference != reference
    ensures r.Failure? ==> r.error == NotFound(NOT_FOUND_MESSAGE)
    ensures r.Success? ==> r.value in db.txns && r.value.reference == reference
    ensures r.Success? && Valid(db) ==> forall t :: t in db.txns && t.reference == reference ==> t == r.value
  {
    var i := FindIndex(db.txns, (t: Txn) => t.reference == reference);
    if i == |db.txns| then Failure(NotFound(NOT_FOUND_MESSAGE))
    else
      var t := db.txns[i];
      assert forall u :: u in db.txns && u.reference == reference && Valid(db) ==> u == t by {
        forall u | u in db.txns && u.reference == reference && Valid(db) ensures u == t {
          UniqueKeyDetermines(db.txns, TxnReference, u, t);
        }
      }
      Success(t)
  }

  /** `getTransactionsByBatchId`: every entry of the batch, oldest first; an
      unknown batch id gives the empty list, never NotFound. */
  function GetTransactionsByBatchId(db: Db, batchId: string): (r: seq<Txn>)
    ensures forall t :: t in r <==> t in db.txns && t.batchId == Some(batchId)
    ensures forall t :: multiset(r)[t] == if t.batchId == Some(batchId) then multiset(db.txns)[t] else 0
    ensures forall i, j :: 0 <= i < j < |r| ==> r[i].createdAt <= r[j].createdAt
  {
    var r := SortBy(Filter(db.txns, InBatch(batchId)), OldestFirst);
    assert forall t :: t in r <==> t in multiset(r);
    r
  }

  /** The filter `where: { batchId }`. */
  function InBatch(batchId: string): Txn -> bool {
    (t: Txn) => t.batchId == Some(batchId)
  }

  /** The entries created at one instant. */
  function AtInstant(instant: int): Txn -> bool {
    (t: Txn) => t.createdAt == instant
  }

  /** The store leaves the order of entries with equal `createdAt` open; the
      model lists them in the order the store holds them. */
  lemma ListingTiesInStoreOrder(db: Db, userId: string, f: Filters, instant: int)
    ensures Filter(NewestMatching(db, userId, f), AtInstant(instant)) == Filter(Matching(db, userId, f), AtInstant(instant))
  {
    SortByStable(Matching(db, userId, f), NewestFirst, -instant, AtInstant(instant));
  }

  /** Likewise for the entries of a batch, which share one instant. */
  lemma BatchTiesInStoreOrder(db: Db, batchId: string, instant: int)
    ensures Filter(GetTransactionsByBatchId(db, batchId), AtInstant(instant))
         == Filter(Filter(db.txns, InBatch(batchId)), AtInstant(instant))
  {
    SortByStable(Filter(db.txns, InBatch(batchId)), OldestFirst, instant, AtInstant(instant));
  }

  /** The entry `createTransaction` writes: the given status, else COMPLETED;
      a fresh reference; no batch. */
  function SingleRecord(input: EntryInput, uuid: string, rowId: string, now: int): Txn {
    Txn(rowId, input.userId, input.walletId, input.amount, input.currency, input.kind,
        input.status.GetOr(Completed), GenerateReference(uuid), None,
        input.description, input.externalReference, input.metadata, now)
  }

  /** `createTransaction`: writes one entry, or fails with the store's error
      and writes nothing. */
  function CreateTransaction(db: Db, input: EntryInput, uuid: string, rowId: string, now: int): (s: Step<Txn>)
    ensures s.result.Success? ==>
      var t := s.result.value;
      && t.status == (if input.status.Some? then input.status.value else Completed)
      && StartsWith(t.reference, REFERENCE_PREFIX) && t.reference[|REFERENCE_PREFIX|..] == uuid
      && t.batchId.None?
      && t.userId == input.userId && t.walletId == input.walletId
      && t.amount == input.amount && t.currency == input.currency && t.kind == input.kind
      && t.description == input.description && t.createdAt == now
      && t.externalReference == input.externalReference && t.metadata == input.metadata
      && s.db == db.(txns := db.txns + [t])
    ensures s.result.Success? <==>
      && KeyFree(db.txns, TxnReference, GenerateReference(uuid))
      && KeyFree(db.txns, TxnId, rowId)
      && HasUser(db, input.userId) && HasWallet(db, input.walletId)
    ensures s.result.Failure? ==> s.db == db && s.result.error.Storage?
    ensures Valid(db) ==> Valid(s.db)
  {
    var t := SingleRecord(input, uuid, rowId, now);
    match InsertTxn(db, t)
    case Success(db') => Step(db', Success(t))
    case Failure(fault) => Step(db, Failure(Storage(fault)))
  }

  /** On a consistent store, the entry a successful `createTransaction`
      writes is what the lookups by its reference and by its id return. */
  lemma CreatedTransactionIsFound(db: Db, input: EntryInput, uuid: string, rowId: string, now: int)
    requires Valid(db)
    requires CreateTransaction(db, input, uuid, rowId, now).result.Success?
    ensures var s := CreateTransaction(db, input, uuid, rowId, now);
      && GetTransactionByReference(s.db, GenerateReference(uuid)) == Success(s.result.value)
      && GetTransactionById(s.db, rowId) == Success(s.result.value)
  {
    var s := CreateTransaction(db, input, uuid, rowId, now);
    var t := s.result.value;
    assert t == SingleRecord(input, uuid, rowId, now);
    StoredEntryFound(s.db, t);
  }

  /** On a consistent store, a stored entry is what the lookups by its
      reference and by its id return. */
  lemma StoredEntryFound(db: Db, t: Txn)
    requires Valid(db) && t in db.txns
    ensures GetTransactionByReference(db, t.reference) == Success(t)
    ensures GetTransactionById(db, t.id) == Success(t)
  {
  }

  /** The description a batch entry gets: with a non-empty batch
      description `d`, `trim(d + " - " + (own || ""))`; otherwise its own. */
  function BatchEntryDescription(batchDescription: Option<string>, own: Option<string>): (r: Option<string>)
    ensures r.None? <==> own.None? && (batchDescription.None? || batchDescription.value == "")
    ensures batchDescription.Some? && batchDescription.value != "" && |r.value| > 0 ==>
      !IsWhitespace(r.value[0]) && !IsWhitespace(r.value[|r.value| - 1])
  {
    if batchDescription.Some? && batchDescription.value != "" then
      Some(Trim(batchDescription.value + " - " + own.GetOr("")))
    else own
  }

  /** Without a (non-empty) batch description an entry keeps its own. */
  lemma DescriptionKeptWithoutBatchDescription(batchDescription: Option<string>, own: Option<string>)
    requires batchDescription.None? || batchDescription.value == ""
    ensures BatchEntryDescription(batchDescription, own) == own
  {
  }

  /** With a batch description and an entry description that are already
      trimmed, the entry reads "<batch> - <own>". */
  lemma DescriptionJoinsBoth(d: string, e: string)
    requires d != "" && !IsWhitespace(d[0])
    requires e != "" && !IsWhitespace(e[|e| - 1])
    ensures BatchEntryDescription(Some(d), Some(e)) == Some(d + " - " + e)
  {
    var joined := d + " - " + e;
    assert joined[0] == d[0];
    assert joined[|joined| - 1] == e[|e| - 1];
    TrimOfTrimmed(joined);
  }

  /** With a trimmed batch description and no entry description, the
      separator's trailing space is trimmed away: "<batch> -". */
  lemma DescriptionWithoutOwn(d: string, own: Option<string>)
    requires d != "" && !IsWhitespace(d[0])
    requires own.None? || own.value == ""
    ensures BatchEntryDescription(Some(d), own) == Some(d + " -")
  {
    var s := d + " -";
    assert s[0] == d[0];
    assert d + " - " + own.GetOr("") == s + " ";
    TrimDropsTrailing(s, " ");
  }

  /** The entry a batch writes for input entry `e`: COMPLETED whatever `e`
      says, the shared batch id, its own fresh reference. */
  function BatchRecord(input: BatchInput, e: EntryInput, batchId: string, uuid: string, rowId: string, now: int): Txn {
    Txn(rowId, e.userId, e.walletId, e.amount, e.currency, e.kind, Completed,
        GenerateReference(uuid), Some(batchId),
        BatchEntryDescription(input.batchDescription, e.description),
        e.externalReference, e.metadata, now)
  }

  function BatchRecords(input: BatchInput, batchId: string, uuids: seq<string>, rowIds: seq<string>, now: int): (r: seq<Txn>)
    requires |uuids| == |input.transactions| && |rowIds| == |input.transactions|
    ensures |r| == |input.transactions|
    ensures forall i :: 0 <= i < |r| ==>
      r[i] == BatchRecord(input, input.transactions[i], batchId, uuids[i], rowIds[i], now)
  {
    seq(|input.transactions|, i requires 0 <= i < |input.transactions| =>
      BatchRecord(input, input.transactions[i], batchId, uuids[i], rowIds[i], now))
  }

  /** The array form of `$transaction`: the creates run in order and either
      all of them are kept or none is. */
  function InsertTxns(db: Db, recs: seq<Txn>): (r: Result<Db, Fault>)
    ensures r.Success? ==> r.value == db.(txns := db.txns + recs)
    ensures r.Success? ==> UniqueBy(recs, TxnReference) && UniqueBy(recs, TxnId)
    ensures r.Success? ==> forall i :: 0 <= i < |recs| ==> KeyFree(db.txns, TxnReference, recs[i].reference)
    ensures r.Success? ==> forall i :: 0 <= i < |recs| ==> KeyFree(db.txns, TxnId, recs[i].id)
    ensures r.Success? && Valid(db) ==> Valid(r.value)
    decreases |recs|
  {
    if |recs| == 0 then
      assert db.txns + recs == db.txns;
      Success(db)
    else
      match InsertTxn(db, recs[0])
      case Failure(fault) => Failure(fault)
      case Success(db1) =>
        match InsertTxns(db1, recs[1..])
        case Failure(fault) => Failure(fault)
        case Success(db2) =>
          InsertTxnsDistinct(db, recs, db1);
          Success(db2)
  }

  lemma InsertTxnsDistinct(db: Db, recs: seq<Txn>, db1: Db)
    requires |recs| > 0 && db1 == db.(txns := db.txns + [recs[0]])
    requires KeyFree(db.txns, TxnReference, recs[0].reference) && KeyFree(db.txns, TxnId, recs[0].id)
    requires UniqueBy(recs[1..], TxnReference) && UniqueBy(recs[1..], TxnId)
    requires forall i :: 0 <= i < |recs| - 1 ==> KeyFree(db1.txns, TxnReference, recs[1..][i].reference)
    requires forall i :: 0 <= i < |recs| - 1 ==> KeyFree(db1.txns, TxnId, recs[1..][i].id)
    ensures UniqueBy(recs, TxnReference) && UniqueBy(recs, TxnId)
    ensures forall i :: 0 <= i < |recs| ==> KeyFree(db.txns, TxnReference, recs[i].reference)
    ensures forall i :: 0 <= i < |recs| ==> KeyFree(db.txns, TxnId, recs[i].id)
    ensures db1.txns + recs[1..] == db.txns + recs
  {
    assert db1.txns + recs[1..] == db.txns + recs;
    forall i, j | 0 <= i < j < |recs|
      ensures recs[i].reference != recs[j].reference && recs[i].id != recs[j].id
    {
      if i == 0 {
        assert db1.txns[|db.txns|] == recs[0];
        assert recs[j] == recs[1..][j - 1];
      } else {
        assert recs[i] == recs[1..][i - 1] && recs[j] == recs[1..][j - 1];
      }
    }
    forall i | 0 <= i < |recs|
      ensures KeyFree(db.txns, TxnReference, recs[i].reference) && KeyFree(db.txns, TxnId, recs[i].id)
    {
      if i > 0 {
        assert recs[i] == recs[1..][i - 1];
        forall k | 0 <= k < |db.txns|
          ensures db.txns[k].reference != recs[i].reference && db.txns[k].id != recs[i].id
        {
          assert db1.txns[k] == db.txns[k];
        }
      }
    }
  }

  /** The store accepts the entry creates in order: ids and references are
      pairwise distinct and free, and every owner and wallet exists. */
  predicate TxnsInsertable(db: Db, recs: seq<Txn>) {
    && FreshKeys(db.txns, recs, TxnId)
    && FreshKeys(db.txns, recs, TxnReference)
    && forall i :: 0 <= i < |recs| ==> HasUser(db, recs[i].userId) && HasWallet(db, recs[i].walletId)
  }

  /** The batched creates are kept exactly when the store accepts them. */
  lemma {:induction false} InsertTxnsSucceeds(db: Db, recs: seq<Txn>)
    ensures InsertTxns(db, recs).Success? <==> TxnsInsertable(db, recs)
    decreases |recs|
  {
    if |recs| > 0 {
      var db1 := db.(txns := db.txns + [recs[0]]);
      InsertTxnsSucceeds(db1, recs[1..]);
      FreshKeysSplit(db.txns, recs, TxnId);
      FreshKeysSplit(db.txns, recs, TxnReference);
      LinkedSplit(db, db1, recs);
    }
  }

  /** The owners and wallets of `recs` exist exactly when those of the first
      one exist and, in a store that differs only in its entries, those of
      the rest. */
  lemma LinkedSplit(db: Db, db1: Db, recs: seq<Txn>)
    requires |recs| > 0 && db1 == db.(txns := db1.txns)
    ensures (forall i :: 0 <= i < |recs| ==> HasUser(db, recs[i].userId) && HasWallet(db, recs[i].walletId)) <==>
      && HasUser(db, recs[0].userId) && HasWallet(db, recs[0].walletId)
      && forall i :: 0 <= i < |recs| - 1 ==> HasUser(db1, recs[1..][i].userId) && HasWallet(db1, recs[1..][i].walletId)
  {
    assert db1.users == db.users && db1.wallets == db.wallets;
    var tail := recs[1..];
    if forall i :: 0 <= i < |tail| ==> HasUser(db1, tail[i].userId) && HasWallet(db1, tail[i].walletId) {
      forall i | 1 <= i < |recs| ensures HasUser(db, recs[i].userId) && HasWallet(db, recs[i].walletId) {
        assert recs[i] == tail[i - 1];
      }
    }
    if forall i :: 0 <= i < |recs| ==> HasUser(db, recs[i].userId) && HasWallet(db, recs[i].walletId) {
      forall i | 0 <= i < |tail| ensures HasUser(db1, tail[i].userId) && HasWallet(db1, tail[i].walletId) {
        assert tail[i] == recs[i + 1];
      }
    }
  }

  /** A reference determines the uuid it was built from. */
  lemma GenerateReferenceInjective(a: string, b: string)
    ensures GenerateReference(a) == GenerateReference(b) ==> a == b
  {
    if GenerateReference(a) == GenerateReference(b) {
      assert GenerateReference(a)[|REFERENCE_PREFIX|..] == a;
      assert GenerateReference(b)[|REFERENCE_PREFIX|..] == b;
    }
  }

  /** A batch `createBatchTransactions` writes: not empty, every entry of
      the batch's owner, who exists, every wallet exists, and uuids and row
      ids pairwise distinct and not used by a stored entry. */
  predicate BatchAcceptable(db: Db, input: BatchInput, uuids: seq<string>, rowIds: seq<string>)
    requires |uuids| == |input.transactions| && |rowIds| == |input.transactions|
  {
    && |input.transactions| > 0
    && HasUser(db, input.userId)
    && Distinct(uuids) && Distinct(rowIds)
    && forall i :: 0 <= i < |input.transactions| ==>
      && input.transactions[i].userId == input.userId
      && HasWallet(db, input.transactions[i].walletId)
      && KeyFree(db.txns, TxnReference, GenerateReference(uuids[i]))
      && KeyFree(db.txns, TxnId, rowIds[i])
  }

  /** Entries built from distinct, unused uuids and row ids clash with
      nothing, and conversely. */
  lemma BatchKeysFresh(txns: seq<Txn>, recs: seq<Txn>, uuids: seq<string>, rowIds: seq<string>)
    requires |uuids| == |recs| && |rowIds| == |recs|
    requires forall i :: 0 <= i < |recs| ==> recs[i].reference == GenerateReference(uuids[i]) && recs[i].id == rowIds[i]
    ensures FreshKeys(txns, recs, TxnReference) <==>
      Distinct(uuids) && forall i :: 0 <= i < |recs| ==> KeyFree(txns, TxnReference, GenerateReference(uuids[i]))
    ensures FreshKeys(txns, recs, TxnId) <==>
      Distinct(rowIds) && forall i :: 0 <= i < |recs| ==> KeyFree(txns, TxnId, rowIds[i])
  {
    forall i, j | 0 <= i < j < |recs| ensures recs[i].reference == recs[j].reference <==> uuids[i] == uuids[j] {
      GenerateReferenceInjective(uuids[i], uuids[j]);
    }
  }

  /** `createBatchTransactions` writes the batch exactly when it is
      acceptable; otherwise it fails and writes nothing. */
  lemma CreateBatchSucceeds(
    db: Db, input: BatchInput, batchUuid: string, uuids: seq<string>, rowIds: seq<string>, now: int)
    requires |uuids| == |input.transactions| && |rowIds| == |input.transactions|
    ensures CreateBatchTransactions(db, input, batchUuid, uuids, rowIds, now).result.Success? <==>
      BatchAcceptable(db, input, uuids, rowIds)
  {
    var n := |input.transactions|;
    if n > 0 && forall i :: 0 <= i < n ==> input.transactions[i].userId == input.userId {
      var recs := BatchRecords(input, GenerateBatchId(batchUuid), uuids, rowIds, now);
      var k := FindIndex(input.transactions, (e: EntryInput) => e.userId != input.userId);
      assert k == n;
      InsertTxnsSucceeds(db, recs);
      BatchRecordsInsertable(db, input, recs, uuids, rowIds);
    }
  }

  /** The entries of a non-empty single-owner batch are accepted by the
      store exactly when the batch is acceptable. */
  lemma BatchRecordsInsertable(db: Db, input: BatchInput, recs: seq<Txn>, uuids: seq<string>, rowIds: seq<string>)
    requires |input.transactions| > 0
    requires |uuids| == |input.transactions| && |rowIds| == |input.transactions| && |recs| == |input.transactions|
    requires forall i :: 0 <= i < |recs| ==>
      && input.transactions[i].userId == input.userId
      && recs[i].userId == input.userId && recs[i].walletId == input.transactions[i].walletId
      && recs[i].reference == GenerateReference(uuids[i]) && recs[i].id == rowIds[i]
    ensures TxnsInsertable(db, recs) <==> BatchAcceptable(db, input, uuids, rowIds)
  {
    BatchKeysFresh(db.txns, recs, uuids, rowIds);
    assert recs[0].userId == input.userId;
    assert (forall i :: 0 <= i < |recs| ==> HasWallet(db, recs[i].walletId)) <==>
      forall i :: 0 <= i < |recs| ==> HasWallet(db, input.transactions[i].walletId);
  }

  /** `createBatchTransactions`: rejects an empty batch and a batch with a
      foreign entry before writing anything; otherwise writes one entry per
      input entry under one fresh batch id, all or none. */
  function CreateBatchTransactions(
    db: Db, input: BatchInput, batchUuid: string, uuids: seq<string>, rowIds: seq<string>, now: int): (s: Step<seq<Txn>>)
    requires |uuids| == |input.transactions| && |rowIds| == |input.transactions|
    ensures |input.transactions| == 0 ==> s == Step(db, Failure(BadRequest(EMPTY_BATCH_MESSAGE)))
    ensures |input.transactions| > 0 && (exists i :: 0 <= i < |input.transactions| && input.transactions[i].userId != input.userId)
      ==> s == Step(db, Failure(BadRequest(MIXED_OWNER_MESSAGE)))
    ensures s.result.Failure? ==> s.db == db
    ensures s.result.Success? ==>
      var r := s.result.value;
      && |r| == |input.transactions| > 0
      && s.db == db.(txns := db.txns + r)
      && UniqueBy(r, TxnReference)
      && forall i :: 0 <= i < |r| ==>
        && r[i].batchId == Some(GenerateBatchId(batchUuid))
        && r[i].status == Completed
        && r[i].reference == GenerateReference(uuids[i])
        && r[i].userId == input.userId
        && r[i].walletId == input.transactions[i].walletId
        && r[i].amount == input.transactions[i].amount
        && r[i].currency == input.transactions[i].currency
        && r[i].kind == input.transactions[i].kind
        && r[i].description == BatchEntryDescription(input.batchDescription, input.transactions[i].description)
        && r[i].externalReference == input.transactions[i].externalReference
        && r[i].metadata == input.transactions[i].metadata
        && r[i].createdAt == now
    ensures Valid(db) ==> Valid(s.db)
  {
    if |input.transactions| == 0 then Step(db, Failure(BadRequest(EMPTY_BATCH_MESSAGE)))
    else
      var batchId := GenerateBatchId(batchUuid);
      var k := FindIndex(input.transactions, (e: EntryInput) => e.userId != input.userId);
      if k < |input.transactions| then Step(db, Failure(BadRequest(MIXED_OWNER_MESSAGE)))
      else
        var recs := BatchRecords(input, batchId, uuids, rowIds, now);
        match InsertTxns(db, recs)
        case Failure(fault) => Step(db, Failure(Storage(fault)))
        case Success(db') => Step(db', Success(recs))
  }

  /** A batch written under a batch id no earlier entry carries is what the
      lookup by that batch id returns: the same entries, each once. */
  lemma BatchIsFound(
    db: Db, input: BatchInput, batchUuid: string, uuids: seq<string>, rowIds: seq<string>, now: int)
    requires |uuids| == |input.transactions| && |rowIds| == |input.transactions|
    requires forall i :: 0 <= i < |db.txns| ==> db.txns[i].batchId != Some(GenerateBatchId(batchUuid))
    requires CreateBatchTransactions(db, input, batchUuid, uuids, rowIds, now).result.Success?
    ensures var s := CreateBatchTransactions(db, input, batchUuid, uuids, rowIds, now);
      multiset(GetTransactionsByBatchId(s.db, GenerateBatchId(batchUuid))) == multiset(s.result.value)
  {
    var s := CreateBatchTransactions(db, input, batchUuid, uuids, rowIds, now);
    FreshBatchFound(db.txns, s.result.value, GenerateBatchId(batchUuid), s.db);
  }

  /** Entries under batch id `id` appended after entries none of which has
      it are exactly what the lookup by `id` finds. */
  lemma FreshBatchFound(before: seq<Txn>, r: seq<Txn>, id: string, db: Db)
    requires db.txns == before + r
    requires forall i :: 0 <= i < |before| ==> before[i].batchId != Some(id)
    requires forall i :: 0 <= i < |r| ==> r[i].batchId == Some(id)
    ensures multiset(GetTransactionsByBatchId(db, id)) == multiset(r)
  {
    var g := GetTransactionsByBatchId(db, id);
    forall t: Txn ensures multiset(g)[t] == multiset(r)[t] {
      if t.batchId == Some(id) {
        assert t !in before;
      } else {
        assert t !in r;
      }
    }
    assert multiset(g) == multiset(r);
  }

  /** Recording +100 NGN and -30 NGN as one batch of an existing user and
      wallet, with fresh uuids and row ids, writes exactly two entries. */
  lemma TwoEntryBatch(
    db: Db, userId: string, walletId: string, batchUuid: string, uuids: seq<string>, rowIds: seq<string>, now: int)
    requires HasUser(db, userId) && HasWallet(db, walletId)
    requires |uuids| == 2 && |rowIds| == 2 && Distinct(uuids) && Distinct(rowIds)
    requires forall i :: 0 <= i < 2 ==>
      KeyFree(db.txns, TxnReference, GenerateReference(uuids[i])) && KeyFree(db.txns, TxnId, rowIds[i])
    ensures var input := BatchInput(userId, [
        EntryInput(userId, walletId, 100.0, NGN, Deposit, None, None, None, None),
        EntryInput(userId, walletId, -30.0, NGN, Withdrawal, None, None, None, None)], None);
      var s := CreateBatchTransactions(db, input, batchUuid, uuids, rowIds, now);
      && s.result.Success?
      && |s.result.value| == 2 && |s.db.txns| == |db.txns| + 2
      && s.result.value[0].amount == 100.0 && s.result.value[1].amount == -30.0
  {
    var input := BatchInput(userId, [
      EntryInput(userId, walletId, 100.0, NGN, Deposit, None, None, None, None),
      EntryInput(userId, walletId, -30.0, NGN, Withdrawal, None, None, None, None)], None);
    CreateBatchSucceeds(db, input, batchUuid, uuids, rowIds, now);
  }
}
