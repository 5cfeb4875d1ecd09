/** Generic sequence helpers shared by the services: filtering (Java
    `stream().filter`), bounded prefixes (`limit`), counting and averaging. */
module Seqs {

  /** Order-preserving filter, `stream().filter(p).collect(toList())`. */
  function Filter<T>(s: seq<T>, p: T -> bool): (r: seq<T>)
    ensures |r| <= |s|
    ensures forall x :: x in r ==> x in s && p(x)
    ensures forall x :: x in s && p(x) ==> x in r
  {
    if |s| == 0 then []
    else (if p(s[0]) then [s[0]] else []) + Filter(s[1..], p)
  }

  lemma {:induction false} FilterAppend<T>(a: seq<T>, b: seq<T>, p: T -> bool)
    ensures Filter(a + b, p) == Filter(a, p) + Filter(b, p)
  {
    if |a| == 0 {
      assert a + b == b;
    } else {
      assert (a + b)[1..] == a[1..] + b;
      FilterAppend(a[1..], b, p);
    }
  }

  /** `s` can be obtained from `t` by deleting elements. */
  predicate IsSubsequence<T(==)>(s: seq<T>, t: seq<T>)
  {
    if |s| == 0 then true
    else if |t| == 0 then false
    else if s[0] == t[0] then IsSubsequence(s[1..], t[1..])
    else IsSubsequence(s, t[1..])
  }

  lemma {:induction false} FilterIsSubsequence<T>(s: seq<T>, p: T -> bool)
    ensures IsSubsequence(Filter(s, p), s)
  {
    if |s| > 0 {
      FilterIsSubsequence(s[1..], p);
      var f := Filter(s[1..], p);
      if p(s[0]) {
        assert Filter(s, p) == [s[0]] + f;
        assert ([s[0]] + f)[1..] == f;
      } else {
        assert Filter(s, p) == f;
        SubsequenceExtend(f, s);
      }
    }
  }

  /** A subsequence of the tail is a subsequence of the whole. */
  lemma {:induction false} SubsequenceExtend<T>(a: seq<T>, u: seq<T>)
    requires |u| > 0 && IsSubsequence(a, u[1..])
    ensures IsSubsequence(a, u)
    decreases |u|, 0
  {
    if |a| > 0 && a[0] == u[0] {
      SubsequenceDropHead(a, u[1..]);
    }
  }

  /** Dropping the head of a subsequence keeps it a subsequence. */
  lemma {:induction false} SubsequenceDropHead<T>(a: seq<T>, u: seq<T>)
    requires |a| > 0 && IsSubsequence(a, u)
    ensures IsSubsequence(a[1..], u)
    decreases |u|, 1
  {
    if a[0] == u[0] {
      if |a[1..]| > 0 {
        SubsequenceExtend(a[1..], u);
      }
    } else {
      SubsequenceDropHead(a, u[1..]);
      if |a[1..]| > 0 {
        SubsequenceExtend(a[1..], u);
      }
    }
  }

  /** The first `n` elements, or all of them when there are fewer (`stream().limit(n)`). */
  function Take<T>(s: seq<T>, n: nat): (r: seq<T>)
    ensures |r| == if n < |s| then n else |s|
    ensures r <= s
  {
    if n < |s| then s[..n] else s
  }

  /** Taking a prefix never adds or duplicates an element. */
  lemma TakeSubMultiset<T>(s: seq<T>, n: nat)
    ensures multiset(Take(s, n)) <= multiset(s)
  {
    if n < |s| {
      assert s == s[..n] + s[n..];
    }
  }

  /** Number of elements satisfying `p` (`stream().filter(p).count()`). */
  function Count<T>(s: seq<T>, p: T -> bool): (n: nat)
    ensures n <= |s|
    ensures n == |Filter(s, p)|
  {
    if |s| == 0 then 0
    else (if p(s[0]) then 1 else 0) + Count(s[1..], p)
  }

  /** Two predicates no element satisfies together count at most |s|. */
  lemma {:induction false} CountDisjoint<T>(s: seq<T>, p: T -> bool, q: T -> bool)
    requires forall i :: 0 <= i < |s| ==> !(p(s[i]) && q(s[i]))
    ensures Count(s, p) + Count(s, q) <= |s|
  {
    if |s| > 0 {
      CountDisjoint(s[1..], p, q);
    }
  }

  /** Predicates that agree on every element count the same elements. */
  lemma {:induction false} CountCongruent<T>(s: seq<T>, p: T -> bool, q: T -> bool)
    requires forall i :: 0 <= i < |s| ==> p(s[i]) == q(s[i])
    ensures Count(s, p) == Count(s, q)
  {
    if |s| > 0 {
      CountCongruent(s[1..], p, q);
    }
  }

  /** A predicate that holds exactly when one of two exclusive predicates
      does counts as many elements as the two together. */
  lemma {:induction false} CountSplit<T>(s: seq<T>, p: T -> bool, q: T -> bool, r: T -> bool)
    requires forall i :: 0 <= i < |s| ==> (p(s[i]) <==> q(s[i]) || r(s[i]))
    requires forall i :: 0 <= i < |s| ==> !(q(s[i]) && r(s[i]))
    ensures Count(s, p) == Count(s, q) + Count(s, r)
  {
    if |s| > 0 {
      CountSplit(s[1..], p, q, r);
    }
  }

  /** Appending an element counts it when it satisfies the predicate. */
  lemma CountSnoc<T>(s: seq<T>, x: T, p: T -> bool)
    ensures Count(s + [x], p) == Count(s, p) + (if p(x) then 1 else 0)
  {
    FilterAppend(s, [x], p);
    assert Filter([x], p) == (if p(x) then [x] else []) + Filter([x][1..], p);
  }

  /** Filtering twice keeps the elements that pass both filters. */
  lemma {:induction false} FilterFilter<T>(s: seq<T>, p: T -> bool, q: T -> bool)
    ensures Filter(Filter(s, p), q) == Filter(s, (x: T) => p(x) && q(x))
  {
    if |s| > 0 {
      FilterFilter(s[1..], p, q);
      var rest := Filter(s[1..], p);
      if p(s[0]) {
        assert Filter(s, p) == [s[0]] + rest;
        FilterAppend([s[0]], rest, q);
        assert Filter([s[0]], q) == (if q(s[0]) then [s[0]] else []) + Filter([s[0]][1..], q);
      } else {
        assert Filter(s, p) == rest;
      }
    }
  }

  function Sum(xs: seq<real>): real
  {
    if |xs| == 0 then 0.0 else xs[0] + Sum(xs[1..])
  }

  function SumNat(xs: seq<nat>): nat
  {
    if |xs| == 0 then 0 else xs[0] + SumNat(xs[1..])
  }

  /** Incrementing one entry increments the total. */
  lemma {:induction false} SumNatIncrement(xs: seq<nat>, k: int)
    requires 0 <= k < |xs|
    ensures SumNat(xs[k := xs[k] + 1]) == SumNat(xs) + 1
  {
    if k > 0 {
      SumNatIncrement(xs[1..], k - 1);
      assert xs[k := xs[k] + 1][1..] == xs[1..][k - 1 := xs[k] + 1];
    }
  }

  lemma {:induction false} SumAppend(a: seq<real>, b: seq<real>)
    ensures Sum(a + b) == Sum(a) + Sum(b)
  {
    if |a| == 0 {
      assert a + b == b;
    } else {
      assert (a + b)[1..] == a[1..] + b;
      SumAppend(a[1..], b);
    }
  }

  /** The sum does not depend on the order of the terms. */
  lemma {:induction false} SumPermutation(a: seq<real>, b: seq<real>)
    requires multiset(a) == multiset(b)
    ensures Sum(a) == Sum(b)
    decreases |a|
  {
    if |a| == 0 {
      assert |b| == |multiset(b)| == 0;
    } else {
      assert a[0] in multiset(b);
      var j :| 0 <= j < |b| && b[j] == a[0];
      var rest := b[..j] + b[j + 1..];
      PermutationTail(a, b, j);
      SumPermutation(a[1..], rest);
      SumRemove(b, j);
      assert Sum(a) == a[0] + Sum(a[1..]);
    }
  }

  /** Matching the head of `a` with `b[j]` leaves permutations of each other. */
  lemma PermutationTail<T>(a: seq<T>, b: seq<T>, j: int)
    requires multiset(a) == multiset(b)
    requires |a| > 0 && 0 <= j < |b| && b[j] == a[0]
    ensures multiset(a[1..]) == multiset(b[..j] + b[j + 1..])
  {
    assert a[..0] + a[1..] == a[1..];
    calc {
      multiset(a[1..]);
      { MultisetRemove(a, 0); }
      multiset(a) - multiset{a[0]};
      multiset(b) - multiset{b[j]};
      { MultisetRemove(b, j); }
      multiset(b[..j] + b[j + 1..]);
    }
  }

  /** Permutations count the same elements. */
  lemma {:induction false} CountPermutation<T>(a: seq<T>, b: seq<T>, p: T -> bool)
    requires multiset(a) == multiset(b)
    ensures Count(a, p) == Count(b, p)
    decreases |a|
  {
    if |a| == 0 {
      assert |b| == |multiset(b)| == 0;
    } else {
      assert a[0] in multiset(b);
      var j :| 0 <= j < |b| && b[j] == a[0];
      PermutationTail(a, b, j);
      CountPermutation(a[1..], b[..j] + b[j + 1..], p);
      assert b == b[..j] + [b[j]] + b[j + 1..];
      CountRemove(b[..j], b[j], b[j + 1..], p);
    }
  }

  /** The count is that of `x` plus that of the elements around it. */
  lemma CountRemove<T>(head: seq<T>, x: T, rest: seq<T>, p: T -> bool)
    ensures Count(head + [x] + rest, p) == (if p(x) then 1 else 0) + Count(head + rest, p)
  {
    CountAppend(head + [x], rest, p);
    CountAppend(head, [x], p);
    CountAppend(head, rest, p);
    assert [x][1..] == [];
  }

  /** Counting over a concatenation adds the counts of the parts. */
  lemma {:induction false} CountAppend<T>(a: seq<T>, b: seq<T>, p: T -> bool)
    ensures Count(a + b, p) == Count(a, p) + Count(b, p)
  {
    if |a| == 0 {
      assert a + b == b;
    } else {
      assert (a + b)[0] == a[0] && (a + b)[1..] == a[1..] + b;
      CountAppend(a[1..], b, p);
    }
  }

  /** When no element from index `k` on satisfies `p`, at most `k` do. */
  lemma {:induction false} CountAtMostPrefix<T>(s: seq<T>, p: T -> bool, k: nat)
    requires k <= |s|
    requires forall j :: k <= j < |s| ==> !p(s[j])
    ensures Count(s, p) <= k
  {
    if |s| > 0 {
      if k == 0 {
        CountAtMostPrefix(s[1..], p, 0);
      } else {
        CountAtMostPrefix(s[1..], p, k - 1);
      }
    }
  }

  /** When the first `k` elements satisfy `p`, at least `k` do. */
  lemma {:induction false} CountAtLeastPrefix<T>(s: seq<T>, p: T -> bool, k: nat)
    requires k <= |s|
    requires forall j :: 0 <= j < k ==> p(s[j])
    ensures Count(s, p) >= k
  {
    if k > 0 {
      CountAtLeastPrefix(s[1..], p, k - 1);
    }
  }

  /** Dropping the element at `j` removes one occurrence of it. */
  lemma MultisetRemove<T>(b: seq<T>, j: int)
    requires 0 <= j < |b|
    ensures multiset(b[..j] + b[j + 1..]) == multiset(b) - multiset{b[j]}
  {
    assert b == b[..j] + [b[j]] + b[j + 1..];
  }

  /** The sum is the element at `j` plus the sum of the others. */
  lemma SumRemove(b: seq<real>, j: int)
    requires 0 <= j < |b|
    ensures Sum(b) == b[j] + Sum(b[..j] + b[j + 1..])
  {
    var rest := b[j + 1..];
    var tail := [b[j]] + rest;
    assert tail[1..] == rest;
    assert Sum(tail) == b[j] + Sum(rest);
    assert b == b[..j] + tail;
    SumAppend(b[..j], tail);
    SumAppend(b[..j], rest);
  }

  lemma {:induction false} SumBounds(xs: seq<real>, lo: real, hi: real)
    requires forall i :: 0 <= i < |xs| ==> lo <= xs[i] <= hi
    ensures lo * |xs| as real <= Sum(xs) <= hi * |xs| as real
  {
    if |xs| > 0 {
      SumBounds(xs[1..], lo, hi);
    }
  }

  /** Arithmetic mean, 0 for an empty sequence
      (`mapToDouble(...).average().orElse(0.0)`). */
  function Mean(xs: seq<real>): (m: real)
    ensures |xs| == 0 ==> m == 0.0
  {
    if |xs| == 0 then 0.0 else Sum(xs) / |xs| as real
  }

  /** Adding `c` to every element adds `c` once per element to the sum. */
  lemma {:induction false} SumShift(xs: seq<real>, ys: seq<real>, c: real)
    requires |xs| == |ys|
    requires forall i :: 0 <= i < |xs| ==> ys[i] == xs[i] + c
    ensures Sum(ys) == Sum(xs) + |xs| as real * c
  {
    if |xs| > 0 {
      SumShift(xs[1..], ys[1..], c);
    }
  }

  /** Adding `c` to every element adds `c` to a non-empty mean. */
  lemma MeanShift(xs: seq<real>, ys: seq<real>, c: real)
    requires 0 < |xs| == |ys|
    requires forall i :: 0 <= i < |xs| ==> ys[i] == xs[i] + c
    ensures Mean(ys) == Mean(xs) + c
  {
    SumShift(xs, ys, c);
    var n := |xs| as real;
    assert (Sum(xs) + n * c) / n == Sum(xs) / n + c;
  }

  /** The mean lies between any lower and upper bound of the elements. */
  lemma MeanBounds(xs: seq<real>, lo: real, hi: real)
    requires |xs| > 0
    requires forall i :: 0 <= i < |xs| ==> lo <= xs[i] <= hi
    ensures lo <= Mean(xs) <= hi
  {
    SumBounds(xs, lo, hi);
    var n := |xs| as real;
    assert Mean(xs) == Sum(xs) / n;
    assert lo * n <= Sum(xs);
    assert Sum(xs) <= hi * n;
  }

  /** The concatenation of the images of the elements, in order
      (`stream().flatMap(f)` or a loop appending to one list). */
  function FlatMap<T, U>(s: seq<T>, f: T -> seq<U>): seq<U>
  {
    if |s| == 0 then [] else FlatMap(s[..|s| - 1], f) + f(s[|s| - 1])
  }

  /** An element is in the concatenation exactly when it is in one image. */
  lemma {:induction false} FlatMapMembers<T, U>(s: seq<T>, f: T -> seq<U>, x: U)
    ensures x in FlatMap(s, f) <==> exists i :: 0 <= i < |s| && x in f(s[i])
  {
    if |s| > 0 {
      var n := |s| - 1;
      var init := s[..n];
      FlatMapMembers(init, f, x);
      if x in FlatMap(init, f) {
        var i :| 0 <= i < |init| && x in f(init[i]);
        assert init[i] == s[i];
      }
      if i :| 0 <= i < |s| && x in f(s[i]) {
        if i < n {
          assert init[i] == s[i];
        }
      }
    }
  }

  /** Pointwise image of a sequence (`stream().map(f)`). */
  function Map<T, U>(s: seq<T>, f: T -> U): (r: seq<U>)
    ensures |r| == |s|
    ensures forall i :: 0 <= i < |s| ==> r[i] == f(s[i])
  {
    seq(|s|, i requires 0 <= i < |s| => f(s[i]))
  }

  /** `part` as a percentage of a positive `whole` (`part * 100.0 / whole`,
      or `(double) part / whole * 100`; the two agree over the reals). */
  function Percent(part: nat, whole: nat): (r: real)
    requires whole > 0
    ensures r * whole as real == part as real * 100.0
    ensures r >= 0.0
    ensures part <= whole ==> r <= 100.0
  {
    var q := part as real / whole as real;
    assert q * whole as real == part as real;
    assert part <= whole ==> q * 100.0 * whole as real <= 100.0 * whole as real;
    q * 100.0
  }

  /** The shares of the two parts of a whole add up to 100. */
  lemma PercentComplement(part: nat, whole: nat)
    requires 0 < whole && part <= whole
    ensures Percent(part, whole) + Percent(whole - part, whole) == 100.0
  {
    var w := whole as real;
    var p := part as real;
    assert (whole - part) as real == w - p;
    assert p / w + (w - p) / w == w / w == 1.0;
  }


}
