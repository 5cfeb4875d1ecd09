/** `Collectors.groupingBy`: the distinct keys of a sequence and the members
    of each group. Java collects the groups into a `HashMap`, whose iteration
    order is unspecified; the model lists the keys in order of first
    appearance. */
module Grouping {
  import opened Seqs

  /** The predicate "has key `k`" used to select one group. */
  function KeyIs<T, K(==)>(key: T -> K, k: K): T -> bool
  {
    (x: T) => key(x) == k
  }

  /** The members of group `k`, in their original order. */
  function Members<T, K(==)>(s: seq<T>, key: T -> K, k: K): (g: seq<T>)
    ensures forall x :: x in g ==> x in s && key(x) == k
    ensures forall x :: x in s && key(x) == k ==> x in g
  {
    Filter(s, KeyIs(key, k))
  }

  predicate Distinct<K(==)>(ks: seq<K>)
  {
    forall i, j :: 0 <= i < j < |ks| ==> ks[i] != ks[j]
  }

  /** `seed` followed by the keys of `s` not already listed, in order of
      first appearance: the key order of a map pre-filled with `seed` and
      then updated for every element of `s`. */
  function KeysFrom<T, K(==)>(seed: seq<K>, s: seq<T>, key: T -> K): (ks: seq<K>)
    ensures seed <= ks
    ensures Distinct(seed) ==> Distinct(ks)
    ensures forall x :: x in s ==> key(x) in ks
    ensures forall k :: k in ks ==> k in seed || |Members(s, key, k)| > 0
    ensures |ks| <= |seed| + |s|
  {
    if |s| == 0 then seed
    else
      var init := s[..|s| - 1];
      var x := s[|s| - 1];
      var ks := KeysFrom(seed, init, key);
      assert s == init + [x];
      FilterAppend(init, [x], KeyIs(key, key(x)));
      forall k | k in ks && k !in seed
        ensures |Members(s, key, k)| > 0
      {
        FilterAppend(init, [x], KeyIs(key, k));
      }
      if key(x) in ks then ks else ks + [key(x)]
  }

  /** The distinct keys of `s`, in order of first appearance. */
  function Keys<T, K(==)>(s: seq<T>, key: T -> K): (ks: seq<K>)
    ensures Distinct(ks)
    ensures forall x :: x in s ==> key(x) in ks
    ensures forall k :: k in ks ==> |Members(s, key, k)| > 0
    ensures |ks| <= |s|
  {
    KeysFrom([], s, key)
  }

  lemma {:induction false} AbsentKeyHasNoMembers<T, K>(s: seq<T>, key: T -> K, k: K)
    requires forall i :: 0 <= i < |s| ==> key(s[i]) != k
    ensures |Members(s, key, k)| == 0
  {
    if |s| > 0 {
      AbsentKeyHasNoMembers(s[1..], key, k);
    }
  }

  /** The sizes of the groups named by `ks`. */
  function Sizes<T, K(==)>(ks: seq<K>, s: seq<T>, key: T -> K): (r: seq<nat>)
    ensures |r| == |ks|
    ensures forall i :: 0 <= i < |ks| ==> r[i] == |Members(s, key, ks[i])|
  {
    if |ks| == 0 then [] else [|Members(s, key, ks[0])|] + Sizes(ks[1..], s, key)
  }

  lemma {:induction false} SizesAppendElement<T, K>(ks: seq<K>, s: seq<T>, x: T, key: T -> K)
    requires Distinct(ks)
    ensures SumNat(Sizes(ks, s + [x], key)) == SumNat(Sizes(ks, s, key)) + (if key(x) in ks then 1 else 0)
  {
    if |ks| > 0 {
      SizesAppendElement(ks[1..], s, x, key);
      FilterAppend(s, [x], KeyIs(key, ks[0]));
      assert key(x) in ks[1..] ==> key(x) != ks[0];
      assert key(x) in ks <==> key(x) == ks[0] || key(x) in ks[1..];
    }
  }

  lemma {:induction false} SizesOfEmpty<T, K>(ks: seq<K>, key: T -> K)
    ensures SumNat(Sizes(ks, [], key)) == 0
  {
    if |ks| > 0 {
      SizesOfEmpty(ks[1..], key);
    }
  }

  /** Groups named by distinct keys that cover every element partition the
      input: their sizes add up to its length. */
  lemma {:induction false} SizesOfCoveringKeys<T, K>(ks: seq<K>, s: seq<T>, key: T -> K)
    requires Distinct(ks)
    requires forall i :: 0 <= i < |s| ==> key(s[i]) in ks
    ensures SumNat(Sizes(ks, s, key)) == |s|
  {
    if |s| == 0 {
      SizesOfEmpty(ks, key);
    } else {
      var init := s[..|s| - 1];
      assert s == init + [s[|s| - 1]];
      SizesOfCoveringKeys(ks, init, key);
      SizesAppendElement(ks, init, s[|s| - 1], key);
    }
  }

  /** The groups partition the input: their sizes add up to its length. */
  lemma GroupSizesSum<T, K>(s: seq<T>, key: T -> K)
    ensures SumNat(Sizes(Keys(s, key), s, key)) == |s|
  {
    SizesOfCoveringKeys(Keys(s, key), s, key);
  }

  /** A distinct sequence holds each value at most once. */
  lemma {:induction false} DistinctOccursOnce<K>(ks: seq<K>, k: K)
    requires Distinct(ks)
    ensures multiset(ks)[k] <= 1
  {
    if |ks| > 0 {
      assert ks == [ks[0]] + ks[1..];
      DistinctOccursOnce(ks[1..], k);
      assert ks[0] !in ks[1..];
    }
  }

  /** A rearrangement of distinct keys is distinct. */
  lemma DistinctPermutation<K>(a: seq<K>, b: seq<K>)
    requires Distinct(a) && multiset(a) == multiset(b)
    ensures Distinct(b)
  {
    forall i, j | 0 <= i < j < |b|
      ensures b[i] != b[j]
    {
      if b[i] == b[j] {
        assert b == b[..j] + b[j..];
        assert b[i] in b[..j] && b[j] in b[j..];
        assert multiset(b)[b[j]] == multiset(b[..j])[b[j]] + multiset(b[j..])[b[j]];
        DistinctOccursOnce(a, b[j]);
        assert false;
      }
    }
  }

  /** A key is listed exactly when some element has it. */
  lemma KeyPresent<T, K>(s: seq<T>, key: T -> K, k: K)
    ensures k in Keys(s, key) <==> exists i :: 0 <= i < |s| && key(s[i]) == k
  {
    if k in Keys(s, key) {
      var x := Members(s, key, k)[0];
      assert x in Members(s, key, k);
      var i :| 0 <= i < |s| && s[i] == x;
    }
    if i :| 0 <= i < |s| && key(s[i]) == k {
      assert s[i] in s;
    }
  }

  /** The key of every element has a position among the keys. */
  lemma KeyIndex<T, K>(s: seq<T>, key: T -> K, x: T)
    requires x in s
    ensures exists i :: 0 <= i < |Keys(s, key)| && Keys(s, key)[i] == key(x)
  {
    assert key(x) in Keys(s, key);
  }

  /** The group `k` of the elements passing `p` holds as many elements as
      satisfy a predicate `q` that means "passes `p` and has key `k`". */
  lemma FilteredGroupCount<T, K>(s: seq<T>, p: T -> bool, key: T -> K, k: K, q: T -> bool)
    requires forall i :: 0 <= i < |s| ==> q(s[i]) == (p(s[i]) && key(s[i]) == k)
    ensures |Members(Filter(s, p), key, k)| == Count(s, q)
  {
    FilterFilter(s, p, KeyIs(key, k));
    CountCongruent(s, (x: T) => p(x) && KeyIs(key, k)(x), q);
  }
}
