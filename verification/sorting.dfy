/** Stable sorting by a total preorder, the model of Java's `List.sort` and
    `Stream.sorted` with a comparator (both are stable merge sorts). */
module Sorting {
  import Seqs

  /** `le` is total and transitive: what a Java `Comparator` promises. */
  ghost predicate TotalPreorder<T(!new)>(le: (T, T) -> bool)
  {
    && (forall a, b :: le(a, b) || le(b, a))
    && (forall a, b, c :: le(a, b) && le(b, c) ==> le(a, c))
  }

  predicate SortedBy<T>(s: seq<T>, le: (T, T) -> bool)
  {
    forall i, j :: 0 <= i < j < |s| ==> le(s[i], s[j])
  }

  /** Ascending by a numeric key (`Comparator.comparing(key)`). */
  function Ascending<T>(key: T -> real): (T, T) -> bool
  {
    (a: T, b: T) => key(a) <= key(b)
  }

  /** Descending by a numeric key (`Comparator.comparing(key).reversed()`). */
  function Descending<T>(key: T -> real): (T, T) -> bool
  {
    (a: T, b: T) => key(a) >= key(b)
  }

  lemma KeyOrdersArePreorders<T(!new)>(key: T -> real)
    ensures TotalPreorder(Ascending(key))
    ensures TotalPreorder(Descending(key))
  {
  }

  /** Inserts `x` before the first element it is not greater than. */
  function Insert<T>(x: T, s: seq<T>, le: (T, T) -> bool): (r: seq<T>)
    ensures multiset(r) == multiset(s) + multiset{x}
    ensures |r| == |s| + 1
  {
    if |s| == 0 then [x]
    else if le(x, s[0]) then [x] + s
    else
      assert s == [s[0]] + s[1..];
      [s[0]] + Insert(x, s[1..], le)
  }

  lemma {:induction false} InsertSorted<T(!new)>(x: T, s: seq<T>, le: (T, T) -> bool)
    requires TotalPreorder(le)
    requires SortedBy(s, le)
    ensures SortedBy(Insert(x, s, le), le)
  {
    if |s| > 0 && !le(x, s[0]) {
      InsertSorted(x, s[1..], le);
      var r := Insert(x, s, le);
      var t := Insert(x, s[1..], le);
      assert r == [s[0]] + t;
      forall j | 0 < j < |r|
        ensures le(r[0], r[j])
      {
        assert r[j] in multiset(t);
        assert r[j] in multiset(s[1..]) + multiset{x};
        if r[j] == x {
          assert le(s[0], x);
        } else {
          assert r[j] in s[1..];
        }
      }
    }
  }

  /** Stable sort: a sorted permutation of `s`. */
  function SortBy<T(!new)>(s: seq<T>, le: (T, T) -> bool): (r: seq<T>)
    requires TotalPreorder(le)
    ensures multiset(r) == multiset(s)
    ensures |r| == |s|
    ensures SortedBy(r, le)
  {
    if |s| == 0 then []
    else
      var rest := SortBy(s[1..], le);
      InsertSorted(s[0], rest, le);
      assert s == [s[0]] + s[1..];
      Insert(s[0], rest, le)
  }

  /** In a sorted sequence every element of a prefix comes before every
      element after it. */
  lemma PrefixDominates<T>(s: seq<T>, le: (T, T) -> bool, n: nat, j: int)
    requires SortedBy(s, le)
    requires n <= j < |s|
    ensures forall t :: t in s[..n] ==> le(t, s[j])
  {
    forall t | t in s[..n]
      ensures le(t, s[j])
    {
      var i :| 0 <= i < n && s[i] == t;
    }
  }

  /** What a sorted list's first `n` elements leave out comes after each of them. */
  lemma TakeDominates<T>(s: seq<T>, le: (T, T) -> bool, n: nat, x: T)
    requires SortedBy(s, le)
    requires x in s && x !in Seqs.Take(s, n)
    ensures forall t :: t in Seqs.Take(s, n) ==> le(t, x)
  {
    var j :| 0 <= j < |s| && s[j] == x;
    assert j >= n;
    PrefixDominates(s, le, n, j);
  }

  /** The first `n` elements of a sorted list are sorted. */
  lemma TakeSorted<T>(s: seq<T>, le: (T, T) -> bool, n: nat)
    requires SortedBy(s, le)
    ensures SortedBy(Seqs.Take(s, n), le)
  {
  }
}
