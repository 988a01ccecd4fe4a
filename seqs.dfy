/**
 * Sequence helpers for the record tables: order-preserving filtering (Dexie's
 * `where(...).equals(...).delete()` and `Array.prototype.filter`) and the stable
 * descending sort behind `orderBy(...).reverse()` and `sort((a, b) => b.t - a.t)`.
 */
module Seqs {
  import opened Wrappers

  /** The elements of `s` that satisfy `keep`, in their original order. */
  function Filter<T>(s: seq<T>, keep: T -> bool): (r: seq<T>)
    ensures |r| <= |s|
    ensures forall i :: 0 <= i < |r| ==> r[i] in s && keep(r[i])
    ensures forall i :: 0 <= i < |s| && keep(s[i]) ==> s[i] in r
    ensures multiset(r) <= multiset(s)
    decreases |s|
  {
    if s == [] then []
    else
      assert s == [s[0]] + s[1..];
      if keep(s[0]) then [s[0]] + Filter(s[1..], keep)
      else Filter(s[1..], keep)
  }

  /** Index of the first element satisfying `p` (`find`/`first()` in table order). */
  function FirstIndex<T>(s: seq<T>, p: T -> bool): (r: Option<nat>)
    ensures r.Some? <==> exists i :: 0 <= i < |s| && p(s[i])
    ensures r.Some? ==> r.value < |s| && p(s[r.value])
    ensures r.Some? ==> forall j :: 0 <= j < r.value ==> !p(s[j])
    decreases |s|
  {
    if s == [] then None
    else if p(s[0]) then Some(0)
    else
      match FirstIndex(s[1..], p)
      case None =>
        assert forall i :: 1 <= i < |s| ==> s[i] == s[1..][i - 1];
        None
      case Some(k) =>
        assert s[k + 1] == s[1..][k];
        Some(k + 1)
  }

  /** The first element satisfying `p`. */
  function First<T>(s: seq<T>, p: T -> bool): (r: Option<T>)
    ensures r.Some? <==> exists i :: 0 <= i < |s| && p(s[i])
    ensures r.Some? ==> exists i :: 0 <= i < |s| && s[i] == r.value && p(r.value) &&
                          forall j :: 0 <= j < i ==> !p(s[j])
  {
    match FirstIndex(s, p)
    case None => None
    case Some(i) => Some(s[i])
  }

  /** Dropping only elements that fail `p` leaves the first `p`-element where it was found. */
  lemma {:induction false} FirstOfFilter<T>(s: seq<T>, keep: T -> bool, p: T -> bool)
    requires forall i :: 0 <= i < |s| && p(s[i]) ==> keep(s[i])
    ensures First(Filter(s, keep), p) == First(s, p)
    decreases |s|
  {
    if s != [] {
      FirstOfFilter(s[1..], keep, p);
      if keep(s[0]) {
        var r := [s[0]] + Filter(s[1..], keep);
        assert r[1..] == Filter(s[1..], keep);
        FirstIndexCons(s, p);
        FirstIndexCons(r, p);
      } else {
        FirstIndexCons(s, p);
      }
    }
  }

  /** `First` on a non-empty sequence looks at the head, then at the tail. */
  lemma FirstIndexCons<T>(s: seq<T>, p: T -> bool)
    requires s != []
    ensures First(s, p) == if p(s[0]) then Some(s[0]) else First(s[1..], p)
  {
  }

  /** `First` of `s + [x]`: the first in `s`, else `x` when it qualifies. */
  lemma {:induction false} FirstOfAppend<T>(s: seq<T>, x: T, p: T -> bool)
    ensures First(s + [x], p) == if First(s, p).Some? then First(s, p) else if p(x) then Some(x) else None
    decreases |s|
  {
    if s == [] {
      FirstIndexCons([x], p);
    } else {
      assert (s + [x])[1..] == s[1..] + [x];
      FirstOfAppend(s[1..], x, p);
      FirstIndexCons(s + [x], p);
      FirstIndexCons(s, p);
    }
  }

  /** Filtering distributes over appending one element. */
  lemma {:induction false} FilterAppend<T>(s: seq<T>, x: T, keep: T -> bool)
    ensures Filter(s + [x], keep) == Filter(s, keep) + (if keep(x) then [x] else [])
    decreases |s|
  {
    if s == [] {
      assert [x][1..] == [];
    } else {
      assert (s + [x])[0] == s[0];
      assert (s + [x])[1..] == s[1..] + [x];
      FilterAppend(s[1..], x, keep);
    }
  }

  /** Keys strictly increase along `s` (a table read in primary-key order). */
  predicate Ascending<T>(s: seq<T>, key: T -> int) {
    forall i, j :: 0 <= i < j < |s| ==> key(s[i]) < key(s[j])
  }

  /** Filtering keeps a lower bound on the keys. */
  lemma {:induction false} FilterBounded<T>(s: seq<T>, keep: T -> bool, key: T -> int, bound: int)
    requires forall i :: 0 <= i < |s| ==> bound < key(s[i])
    ensures forall i :: 0 <= i < |Filter(s, keep)| ==> bound < key(Filter(s, keep)[i])
  {
    var r := Filter(s, keep);
    forall i | 0 <= i < |r| ensures bound < key(r[i]) {
      assert r[i] in s;
    }
  }

  /** Filtering keeps a table in primary-key order. */
  lemma {:induction false} FilterAscending<T>(s: seq<T>, keep: T -> bool, key: T -> int)
    requires Ascending(s, key)
    ensures Ascending(Filter(s, keep), key)
    decreases |s|
  {
    if s != [] {
      var rest := s[1..];
      var tail := Filter(rest, keep);
      assert Ascending(rest, key) by {
        forall i, j | 0 <= i < j < |rest| ensures key(rest[i]) < key(rest[j]) {
          assert rest[i] == s[i + 1] && rest[j] == s[j + 1];
        }
      }
      FilterAscending(rest, keep, key);
      if keep(s[0]) {
        assert forall i :: 0 <= i < |rest| ==> key(s[0]) < key(rest[i]) by {
          forall i | 0 <= i < |rest| ensures key(s[0]) < key(rest[i]) {
            assert rest[i] == s[i + 1];
          }
        }
        FilterBounded(rest, keep, key, key(s[0]));
        var r := [s[0]] + tail;
        forall i, j | 0 <= i < j < |r| ensures key(r[i]) < key(r[j]) {
          assert r[j] == tail[j - 1];
          if i > 0 {
            assert r[i] == tail[i - 1];
          }
        }
      }
    }
  }

  /** Appending an element whose key exceeds every key keeps the order. */
  lemma AppendAscending<T>(s: seq<T>, x: T, key: T -> int)
    requires Ascending(s, key)
    requires forall i :: 0 <= i < |s| ==> key(s[i]) < key(x)
    ensures Ascending(s + [x], key)
  {
    var r := s + [x];
    forall i, j | 0 <= i < j < |r| ensures key(r[i]) < key(r[j]) {
      assert r[i] == s[i];
    }
  }

  /** Keys never increase along `s`. */
  predicate SortedDesc<T>(s: seq<T>, key: T -> int) {
    forall i, j :: 0 <= i < j < |s| ==> key(s[i]) >= key(s[j])
  }

  /** `x` placed before the first element whose key does not exceed its own. */
  function Insert<T>(x: T, s: seq<T>, key: T -> int): (r: seq<T>)
    ensures multiset(r) == multiset(s) + multiset{x}
    ensures |r| == |s| + 1
    decreases |s|
  {
    if s == [] || key(x) >= key(s[0]) then [x] + s
    else
      assert s == [s[0]] + s[1..];
      [s[0]] + Insert(x, s[1..], key)
  }

  /** Every element of `Insert(x, s)` has a key at most `bound` when `x` and `s` do. */
  lemma {:induction false} InsertBounded<T>(x: T, s: seq<T>, key: T -> int, bound: int)
    requires key(x) <= bound
    requires forall k :: 0 <= k < |s| ==> key(s[k]) <= bound
    ensures forall k :: 0 <= k < |Insert(x, s, key)| ==> key(Insert(x, s, key)[k]) <= bound
    decreases |s|
  {
    if s != [] && key(x) < key(s[0]) {
      InsertBounded(x, s[1..], key, bound);
    }
  }

  /** Insertion keeps a descending sequence descending. */
  lemma {:induction false} InsertSorted<T>(x: T, s: seq<T>, key: T -> int)
    requires SortedDesc(s, key)
    ensures SortedDesc(Insert(x, s, key), key)
    decreases |s|
  {
    var r := Insert(x, s, key);
    if s == [] || key(x) >= key(s[0]) {
      forall i, j | 0 <= i < j < |r| ensures key(r[i]) >= key(r[j]) {
        assert r[j] == s[j - 1];
        if i > 0 {
          assert r[i] == s[i - 1];
        } else {
          assert key(s[0]) >= key(s[j - 1]);
        }
      }
    } else {
      var rest := Insert(x, s[1..], key);
      InsertSorted(x, s[1..], key);
      InsertBounded(x, s[1..], key, key(s[0]));
      assert r == [s[0]] + rest;
      forall i, j | 0 <= i < j < |r| ensures key(r[i]) >= key(r[j]) {
        assert r[j] == rest[j - 1];
        if i > 0 {
          assert r[i] == rest[i - 1];
        }
      }
    }
  }

  /** A stable sort by descending key: a permutation of `s` whose keys never increase. */
  function SortDesc<T>(s: seq<T>, key: T -> int): (r: seq<T>)
    ensures SortedDesc(r, key)
    ensures multiset(r) == multiset(s)
    ensures |r| == |s|
    decreases |s|
  {
    if s == [] then []
    else
      assert s == [s[0]] + s[1..];
      var rest := SortDesc(s[1..], key);
      InsertSorted(s[0], rest, key);
      Insert(s[0], rest, key)
  }

  /** `s` back to front. */
  function Reverse<T>(s: seq<T>): (r: seq<T>)
    ensures |r| == |s|
    ensures forall i :: 0 <= i < |s| ==> r[i] == s[|s| - 1 - i]
    ensures multiset(r) == multiset(s)
    decreases |s|
  {
    if s == [] then []
    else
      assert s == [s[0]] + s[1..];
      Reverse(s[1..]) + [s[0]]
  }

  /** `s.indexOf(x)`: the first index holding `x`, or -1. */
  function IndexOf<T(==)>(s: seq<T>, x: T): (i: int)
    ensures -1 <= i < |s|
    ensures i == -1 <==> x !in s
    ensures 0 <= i ==> s[i] == x && forall j :: 0 <= j < i ==> s[j] != x
  {
    if s == [] then -1
    else if s[0] == x then 0
    else
      var k := IndexOf(s[1..], x);
      if k == -1 then -1 else k + 1
  }

  /** In a sequence without repetitions, the first index of an element is its index. */
  lemma IndexOfDistinct<T>(s: seq<T>, k: nat)
    requires k < |s|
    requires forall i, j :: 0 <= i < j < |s| ==> s[i] != s[j]
    ensures IndexOf(s, s[k]) == k
  {
    var i := IndexOf(s, s[k]);
    assert s[k] in s;
    assert s[i] == s[k];
  }
}
