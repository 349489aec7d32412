/** Stable sorting by a total preorder, the behaviour of Rust's `slice::sort_by`
    for a comparator that never fails. The model is an insertion sort: a
    stable sort's output is determined by its input, so any stable algorithm
    yields the same sequence. */
module Sorting {

  /** `le(a, b)`: `a` may come before `b`. Every pair is comparable and the relation is transitive. */
  ghost predicate TotalPreorder<T(!new)>(le: (T, T) -> bool) {
    && (forall a, b :: le(a, b) || le(b, a))
    && (forall a, b, c :: le(a, b) && le(b, c) ==> le(a, c))
  }

  ghost predicate SortedBy<T>(s: seq<T>, le: (T, T) -> bool) {
    forall i, j :: 0 <= i < j < |s| ==> le(s[i], s[j])
  }

  /** The elements of `s` that the order cannot tell apart from `k`, in their order in `s`. */
  function Equivalents<T>(s: seq<T>, k: T, le: (T, T) -> bool): seq<T> {
    if s == [] then []
    else (if le(s[0], k) && le(k, s[0]) then [s[0]] else []) + Equivalents(s[1..], k, le)
  }

  /** `x` placed before the first element it may precede. */
  function Insert<T>(x: T, s: seq<T>, le: (T, T) -> bool): (r: seq<T>)
    ensures multiset(r) == multiset(s) + multiset{x}
    ensures |r| == |s| + 1
  {
    if s == [] || le(x, s[0]) then [x] + s
    else
      assert s == [s[0]] + s[1..];
      [s[0]] + Insert(x, s[1..], le)
  }

  function SortBy<T>(s: seq<T>, le: (T, T) -> bool): (r: seq<T>)
    ensures multiset(r) == multiset(s)
    ensures |r| == |s|
  {
    if s == [] then []
    else
      assert s == [s[0]] + s[1..];
      Insert(s[0], SortBy(s[1..], le), le)
  }

  lemma {:induction false} InsertSorted<T(!new)>(x: T, s: seq<T>, le: (T, T) -> bool)
    requires TotalPreorder(le)
    requires SortedBy(s, le)
    ensures SortedBy(Insert(x, s, le), le)
    decreases |s|
  {
    if s == [] || le(x, s[0]) {
    } else {
      var tail := Insert(x, s[1..], le);
      InsertSorted(x, s[1..], le);
      forall y | y in multiset(tail)
        ensures le(s[0], y)
      {
        assert y in multiset(s[1..]) + multiset{x};
        if y in multiset(s[1..]) {
          var j :| 0 <= j < |s[1..]| && s[1..][j] == y;
          assert s[1 + j] == y;
        }
      }
      var r := Insert(x, s, le);
      forall i, j | 0 <= i < j < |r|
        ensures le(r[i], r[j])
      {
        if i == 0 {
          assert r[j] == tail[j - 1];
          assert tail[j - 1] in multiset(tail);
        } else {
          assert r[i] == tail[i - 1] && r[j] == tail[j - 1];
        }
      }
    }
  }

  lemma {:induction false} InsertEquivalents<T(!new)>(x: T, s: seq<T>, k: T, le: (T, T) -> bool)
    requires TotalPreorder(le)
    ensures Equivalents(Insert(x, s, le), k, le)
         == (if le(x, k) && le(k, x) then [x] else []) + Equivalents(s, k, le)
    decreases |s|
  {
    if s == [] || le(x, s[0]) {
      EquivalentsCons(x, s, k, le);
    } else {
      var y := s[0];
      var t := Insert(x, s[1..], le);
      InsertEquivalents(x, s[1..], k, le);
      assert s == [y] + s[1..];
      EquivalentsCons(y, s[1..], k, le);
      EquivalentsCons(y, t, k, le);
      // x and y cannot both be equivalent to k, or x would precede y
      assert le(x, k) && le(k, y) ==> le(x, y);
      SwapAroundEmpty(
        if le(y, k) && le(k, y) then [y] else [],
        if le(x, k) && le(k, x) then [x] else [],
        Equivalents(s[1..], k, le));
    }
  }

  lemma EquivalentsCons<T>(y: T, t: seq<T>, k: T, le: (T, T) -> bool)
    ensures Equivalents([y] + t, k, le) == (if le(y, k) && le(k, y) then [y] else []) + Equivalents(t, k, le)
  {
    assert ([y] + t)[1..] == t;
  }

  lemma SwapAroundEmpty<T>(a: seq<T>, b: seq<T>, e: seq<T>)
    requires a == [] || b == []
    ensures a + (b + e) == b + (a + e)
  {
    if a == [] {
      assert a + (b + e) == b + e;
    } else {
      assert b + (a + e) == a + e;
    }
  }

  /** The sort orders its output and keeps every class of equivalent elements
      in input order (stability). */
  lemma {:induction false} SortByCorrect<T(!new)>(s: seq<T>, le: (T, T) -> bool)
    requires TotalPreorder(le)
    ensures SortedBy(SortBy(s, le), le)
    ensures forall k :: Equivalents(SortBy(s, le), k, le) == Equivalents(s, k, le)
    decreases |s|
  {
    if s != [] {
      SortByCorrect(s[1..], le);
      InsertSorted(s[0], SortBy(s[1..], le), le);
      forall k
        ensures Equivalents(SortBy(s, le), k, le) == Equivalents(s, k, le)
      {
        InsertEquivalents(s[0], SortBy(s[1..], le), k, le);
      }
    }
  }
}
