/** Ordering and selection over record sequences: what a store query's
    `where` (a filter) and `orderBy` (a sort on an integer key) return. */
module Sorting {

  /** `s` is in non-decreasing order of `key`. */
  predicate SortedBy<T>(s: seq<T>, key: T -> int) {
    forall i, j :: 0 <= i < j < |s| ==> key(s[i]) <= key(s[j])
  }

  /** Places `x` into the sorted `s`, after every element with a smaller key
      and before the first element whose key is not smaller. */
  function Insert<T(!new)>(x: T, s: seq<T>, key: T -> int): (r: seq<T>)
    requires SortedBy(s, key)
    ensures SortedBy(r, key)
    ensures multiset(r) == multiset(s) + multiset{x}
    ensures |r| == |s| + 1
    ensures r[0] == x || (|s| > 0 && r[0] == s[0])
  {
    if |s| == 0 then [x]
    else if key(x) <= key(s[0]) then [x] + s
    else
      var rest := Insert(x, s[1..], key);
      assert s == [s[0]] + s[1..];
      assert key(s[0]) <= key(rest[0]);
      [s[0]] + rest
  }

  /** `orderBy` on `key`: a non-decreasing rearrangement of `s`. */
  function SortBy<T(!new)>(s: seq<T>, key: T -> int): (r: seq<T>)
    ensures SortedBy(r, key)
    ensures multiset(r) == multiset(s)
    ensures |r| == |s|
  {
    if |s| == 0 then []
    else
      assert s == [s[0]] + s[1..];
      Insert(s[0], SortBy(s[1..], key), key)
  }

  /** Filtering a sequence that starts with `a`. */
  lemma FilterCons<T(!new)>(a: T, t: seq<T>, p: T -> bool)
    ensures Filter([a] + t, p) == (if p(a) then [a] else []) + Filter(t, p)
  {
    assert ([a] + t)[1..] == t;
  }

  /** Inserting `x` ahead of the elements with an equal key: among the
      elements of one key, `x` comes first and the others keep their order. */
  lemma {:induction false} InsertKeepsTies<T(!new)>(x: T, s: seq<T>, key: T -> int, k: int, p: T -> bool)
    requires SortedBy(s, key)
    requires forall y :: p(y) <==> key(y) == k
    ensures Filter(Insert(x, s, key), p) == (if p(x) then [x] else []) + Filter(s, p)
    decreases |s|
  {
    if |s| == 0 {
      FilterCons(x, s, p);
      assert [x] + s == [x];
    } else if key(x) <= key(s[0]) {
      FilterCons(x, s, p);
    } else {
      var t := s[1..];
      var rest := Insert(x, t, key);
      assert s == [s[0]] + t;
      SliceSorted(s, key, 1, |s|);
      InsertKeepsTies(x, t, key, k, p);
      assert !(p(x) && p(s[0]));
      InsertBehindHead(x, s[0], t, rest, p);
    }
  }

  /** When `x` and `a` are not both selected, putting `x` behind `a` does
      not change the order in which the selected ones appear. */
  lemma InsertBehindHead<T(!new)>(x: T, a: T, t: seq<T>, rest: seq<T>, p: T -> bool)
    requires !(p(x) && p(a))
    requires Filter(rest, p) == (if p(x) then [x] else []) + Filter(t, p)
    ensures Filter([a] + rest, p) == (if p(x) then [x] else []) + Filter([a] + t, p)
  {
    FilterCons(a, rest, p);
    FilterCons(a, t, p);
    var head: seq<T> := if p(a) then [a] else [];
    if p(x) {
      assert head == [];
      assert Filter([a] + rest, p) == Filter(rest, p);
      assert Filter([a] + t, p) == Filter(t, p);
    } else {
      assert Filter(rest, p) == Filter(t, p);
    }
  }

  /** `SortBy` is stable: the elements that share any one key come out in the
      order they had in `s`. */
  lemma {:induction false} SortByStable<T(!new)>(s: seq<T>, key: T -> int, k: int, p: T -> bool)
    requires forall y :: p(y) <==> key(y) == k
    ensures Filter(SortBy(s, key), p) == Filter(s, p)
  {
    if |s| > 0 {
      assert s == [s[0]] + s[1..];
      SortByStable(s[1..], key, k, p);
      InsertKeepsTies(s[0], SortBy(s[1..], key), key, k, p);
    }
  }

  /** `where`: the elements of `s` that satisfy `p`, in their original order. */
  function Filter<T(!new)>(s: seq<T>, p: T -> bool): (r: seq<T>)
    ensures forall x :: x in r <==> x in s && p(x)
    ensures forall x :: multiset(r)[x] == if p(x) then multiset(s)[x] else 0
    ensures |r| <= |s|
  {
    if |s| == 0 then []
    else
      assert s == [s[0]] + s[1..];
      var rest := Filter(s[1..], p);
      if p(s[0]) then [s[0]] + rest else rest
  }

  /** Filtering with two predicates that agree on every element gives the
      same result. */
  lemma FilterAgrees<T(!new)>(s: seq<T>, p: T -> bool, q: T -> bool)
    requires forall x :: p(x) == q(x)
    ensures Filter(s, p) == Filter(s, q)
  {
    if |s| > 0 {
      FilterAgrees(s[1..], p, q);
    }
  }

  /** Filtering distributes over concatenation. */
  lemma {:induction false} FilterConcat<T(!new)>(a: seq<T>, b: seq<T>, p: T -> bool)
    ensures Filter(a + b, p) == Filter(a, p) + Filter(b, p)
  {
    if |a| == 0 {
      assert a + b == b;
    } else {
      assert (a + b)[0] == a[0];
      assert (a + b)[1..] == a[1..] + b;
      FilterConcat(a[1..], b, p);
    }
  }

  /** Filtering distributes over appending one element. */
  lemma FilterAppend<T(!new)>(s: seq<T>, x: T, p: T -> bool)
    ensures Filter(s + [x], p) == Filter(s, p) + (if p(x) then [x] else [])
  {
    FilterConcat(s, [x], p);
    assert [x][1..] == [];
  }

  /** Filtering keeps a sequence whose every element passes. */
  lemma {:induction false} FilterKeepsAll<T(!new)>(s: seq<T>, p: T -> bool)
    requires forall i :: 0 <= i < |s| ==> p(s[i])
    ensures Filter(s, p) == s
  {
    if |s| > 0 {
      assert p(s[0]);
      FilterKeepsAll(s[1..], p);
      assert [s[0]] + s[1..] == s;
    }
  }

  /** Sorting a sequence that is already in order changes nothing: the sort
      is stable, so not even elements with equal keys move. */
  lemma {:induction false} SortBySorted<T(!new)>(s: seq<T>, key: T -> int)
    requires SortedBy(s, key)
    ensures SortBy(s, key) == s
  {
    if |s| > 0 {
      var t := s[1..];
      SliceSorted(s, key, 1, |s|);
      SortBySorted(t, key);
      assert [s[0]] + t == s;
      if |t| > 0 {
        assert key(s[0]) <= key(t[0]);
      }
    }
  }

  /** A contiguous piece of a sorted sequence is sorted. */
  lemma SliceSorted<T>(s: seq<T>, key: T -> int, lo: nat, hi: nat)
    requires SortedBy(s, key) && lo <= hi <= |s|
    ensures SortedBy(s[lo..hi], key)
  {
    var t := s[lo..hi];
    forall i, j | 0 <= i < j < |t| ensures key(t[i]) <= key(t[j]) {
      assert t[i] == s[lo + i] && t[j] == s[lo + j];
    }
  }

  /** The position of the first element of `s` that satisfies `p`, or `|s|`
      when there is none (`Array.prototype.find` and `findFirst`). */
  function FindIndex<T>(s: seq<T>, p: T -> bool): (i: nat)
    ensures i <= |s|
    ensures i < |s| ==> p(s[i])
    ensures forall j :: 0 <= j < i ==> !p(s[j])
  {
    if |s| == 0 then 0
    else if p(s[0]) then 0
    else 1 + FindIndex(s[1..], p)
  }

  /** Every element of `s` has a distinct `key`. */
  predicate UniqueBy<T, K(==)>(s: seq<T>, key: T -> K) {
    forall i, j :: 0 <= i < j < |s| ==> key(s[i]) != key(s[j])
  }

  /** No element of `s` has key `k`. */
  predicate KeyFree<T, K(==)>(s: seq<T>, key: T -> K, k: K) {
    forall i :: 0 <= i < |s| ==> key(s[i]) != k
  }

  /** Appending an element whose key is new keeps the keys distinct. */
  lemma AppendUnique<T, K>(s: seq<T>, key: T -> K, x: T)
    requires KeyFree(s, key, key(x))
    ensures UniqueBy(s, key) ==> UniqueBy(s + [x], key)
  {
    var t := s + [x];
    forall i, j | UniqueBy(s, key) && 0 <= i < j < |t|
      ensures key(t[i]) != key(t[j])
    {
      if j == |s| {
        assert t[i] == s[i];
      } else {
        assert t[i] == s[i] && t[j] == s[j];
      }
    }
  }

  /** In a sequence with distinct keys, the last element's key is not taken
      by any earlier one. */
  lemma LastKeyFree<T, K>(s: seq<T>, key: T -> K, x: T)
    requires UniqueBy(s + [x], key)
    ensures KeyFree(s, key, key(x))
  {
    forall i | 0 <= i < |s| ensures key(s[i]) != key(x) {
      assert (s + [x])[i] == s[i] && (s + [x])[|s|] == x;
    }
  }

  /** In a sequence with distinct keys an element is determined by its key. */
  lemma UniqueKeyDetermines<T, K>(s: seq<T>, key: T -> K, x: T, y: T)
    requires UniqueBy(s, key)
    requires x in s && y in s && key(x) == key(y)
    ensures x == y
  {
    var i :| 0 <= i < |s| && s[i] == x;
    var j :| 0 <= j < |s| && s[j] == y;
    assert i == j;
  }

  /** No value occurs twice in `s`. */
  predicate Distinct<T(==)>(s: seq<T>) {
    forall i, j :: 0 <= i < j < |s| ==> s[i] != s[j]
  }

  /** The keys of `xs` are pairwise distinct and none is taken in `s`: the
      rows `xs` can be appended to `s` one by one without a clash. */
  predicate FreshKeys<T, K(==)>(s: seq<T>, xs: seq<T>, key: T -> K) {
    && UniqueBy(xs, key)
    && forall i :: 0 <= i < |xs| ==> KeyFree(s, key, key(xs[i]))
  }

  /** Appending `xs` clashes with nothing exactly when its first row's key
      is free and the rest of `xs` clashes with nothing once that row is
      appended. */
  lemma FreshKeysSplit<T, K>(s: seq<T>, xs: seq<T>, key: T -> K)
    requires |xs| > 0
    ensures FreshKeys(s, xs, key) <==> KeyFree(s, key, key(xs[0])) && FreshKeys(s + [xs[0]], xs[1..], key)
  {
    var s1 := s + [xs[0]];
    var rest := xs[1..];
    if FreshKeys(s, xs, key) {
      forall i | 0 <= i < |rest| ensures KeyFree(s1, key, key(rest[i])) {
        assert rest[i] == xs[i + 1];
        forall k | 0 <= k < |s1| ensures key(s1[k]) != key(rest[i]) {
          if k == |s| {
            assert s1[k] == xs[0];
          } else {
            assert s1[k] == s[k];
          }
        }
      }
      assert UniqueBy(rest, key) by {
        forall i, j | 0 <= i < j < |rest| ensures key(rest[i]) != key(rest[j]) {
          assert rest[i] == xs[i + 1] && rest[j] == xs[j + 1];
        }
      }
    }
    if KeyFree(s, key, key(xs[0])) && FreshKeys(s1, rest, key) {
      forall i, j | 0 <= i < j < |xs| ensures key(xs[i]) != key(xs[j]) {
        assert xs[j] == rest[j - 1];
        if i == 0 {
          assert s1[|s|] == xs[0];
        } else {
          assert xs[i] == rest[i - 1];
        }
      }
      forall i | 0 <= i < |xs| ensures KeyFree(s, key, key(xs[i])) {
        if i > 0 {
          assert xs[i] == rest[i - 1];
          forall k | 0 <= k < |s| ensures key(s[k]) != key(xs[i]) {
            assert s1[k] == s[k];
          }
        }
      }
    }
  }
}
