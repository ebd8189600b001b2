/** The list operations the pages use on fetched rows: `filter`, `filter().length`, `reduce` sums,
    `slice(0, n)` and de-duplication through a `Set`. */
module Seqs {

  /** `s.filter(p)`: the elements of `s` that satisfy `p`, in their original order. */
  function Filter<T(!new)>(s: seq<T>, p: T -> bool): (r: seq<T>)
    ensures |r| <= |s|
    ensures forall x :: x in r <==> x in s && p(x)
    decreases |s|
  {
    if s == [] then []
    else Filter(s[..|s| - 1], p) + (if p(s[|s| - 1]) then [s[|s| - 1]] else [])
  }

  /** The positions of `s` whose elements satisfy `p`, in increasing order. */
  function KeptIndices<T(!new)>(s: seq<T>, p: T -> bool): (idx: seq<nat>)
    ensures |idx| == |Filter(s, p)|
    ensures forall k :: 0 <= k < |idx| ==> idx[k] < |s|
    decreases |s|
  {
    if s == [] then []
    else KeptIndices(s[..|s| - 1], p) + (if p(s[|s| - 1]) then [|s| - 1] else [])
  }

  /** `idx` embeds `r` into `s`: the elements of `r` sit at the strictly increasing positions `idx` of `s`. */
  ghost predicate Embeds<T(!new)>(idx: seq<nat>, r: seq<T>, s: seq<T>) {
    && |idx| == |r|
    && (forall k :: 0 <= k < |idx| ==> idx[k] < |s| && r[k] == s[idx[k]])
    && (forall k, l :: 0 <= k < l < |idx| ==> idx[k] < idx[l])
  }

  /** `r` is an order-preserving sub-list of `s`. */
  ghost predicate IsSublist<T(!new)>(r: seq<T>, s: seq<T>) {
    exists idx: seq<nat> :: Embeds(idx, r, s)
  }

  /** `KeptIndices` embeds the filtered list into the input. */
  lemma {:induction false} KeptIndicesEmbed<T(!new)>(s: seq<T>, p: T -> bool)
    ensures Embeds(KeptIndices(s, p), Filter(s, p), s)
    decreases |s|
  {
    if s != [] {
      var prefix, last := s[..|s| - 1], s[|s| - 1];
      KeptIndicesEmbed(prefix, p);
      var rest, r := KeptIndices(prefix, p), Filter(prefix, p);
      forall k | 0 <= k < |rest|
        ensures rest[k] < |prefix| && r[k] == s[rest[k]]
      {
        assert s[rest[k]] == prefix[rest[k]];
      }
      if p(last) {
        var idx, f := rest + [|s| - 1], r + [last];
        assert KeptIndices(s, p) == idx && Filter(s, p) == f;
        forall k | 0 <= k < |idx|
          ensures idx[k] < |s| && f[k] == s[idx[k]]
        {
          if k < |rest| {
            assert idx[k] == rest[k] && f[k] == r[k];
          }
        }
        forall k, l | 0 <= k < l < |idx|
          ensures idx[k] < idx[l]
        {
          if l < |rest| {
            assert idx[k] == rest[k] && idx[l] == rest[l];
          } else {
            assert idx[k] == rest[k] < |prefix|;
          }
        }
      } else {
        assert KeptIndices(s, p) == rest && Filter(s, p) == r;
      }
    }
  }

  /** Filtering never reorders and never invents elements. */
  lemma FilterIsSublist<T(!new)>(s: seq<T>, p: T -> bool)
    ensures IsSublist(Filter(s, p), s)
  {
    KeptIndicesEmbed(s, p);
    assert Embeds(KeptIndices(s, p), Filter(s, p), s);
  }

  /** A filter whose predicate holds everywhere keeps the list as it is. */
  lemma {:induction false} FilterAll<T(!new)>(s: seq<T>, p: T -> bool)
    requires forall x :: x in s ==> p(x)
    ensures Filter(s, p) == s
    decreases |s|
  {
    if s != [] {
      var init, last := s[..|s| - 1], s[|s| - 1];
      forall x | x in init
        ensures p(x)
      {
        var i :| 0 <= i < |init| && init[i] == x;
        assert s[i] == x;
      }
      FilterAll(init, p);
      assert last in s;
      assert init + [last] == s;
    }
  }

  /** Two filters whose predicates never hold together select at most as many elements as there are. */
  lemma {:induction false} FilterDisjointCounts<T(!new)>(s: seq<T>, p: T -> bool, q: T -> bool)
    requires forall x :: x in s ==> !(p(x) && q(x))
    ensures |Filter(s, p)| + |Filter(s, q)| <= |s|
    decreases |s|
  {
    if s != [] {
      FilterDisjointCounts(s[..|s| - 1], p, q);
    }
  }

  /** `s.reduce((sum, x) => sum + f(x), 0)`, folded from the left as `reduce` does. */
  function Sum<T(!new)>(s: seq<T>, f: T -> int): int
    decreases |s|
  {
    if s == [] then 0 else Sum(s[..|s| - 1], f) + f(s[|s| - 1])
  }

  /** The sum over a concatenation is the sum of the sums. */
  lemma {:induction false} SumAppend<T(!new)>(a: seq<T>, b: seq<T>, f: T -> int)
    ensures Sum(a + b, f) == Sum(a, f) + Sum(b, f)
    decreases |b|
  {
    if b != [] {
      var ab := a + b;
      assert ab[..|ab| - 1] == a + b[..|b| - 1];
      assert ab[|ab| - 1] == b[|b| - 1];
      SumAppend(a, b[..|b| - 1], f);
      assert Sum(ab, f) == Sum(a + b[..|b| - 1], f) + f(b[|b| - 1]);
    } else {
      assert a + b == a;
    }
  }

  /** A sum of non-negative terms is non-negative. */
  lemma {:induction false} SumNonNegative<T(!new)>(s: seq<T>, f: T -> int)
    requires forall x :: x in s ==> f(x) >= 0
    ensures Sum(s, f) >= 0
    decreases |s|
  {
    if s != [] {
      SumNonNegative(s[..|s| - 1], f);
    }
  }

  /** With non-negative terms, the sum over a filtered list is at most the sum over the whole list. */
  lemma {:induction false} SumFilterAtMost<T(!new)>(s: seq<T>, p: T -> bool, f: T -> int)
    requires forall x :: x in s ==> f(x) >= 0
    ensures Sum(Filter(s, p), f) <= Sum(s, f)
    decreases |s|
  {
    if s != [] {
      var prefix := s[..|s| - 1];
      SumFilterAtMost(prefix, p, f);
      var last := s[|s| - 1];
      assert f(last) >= 0;
      if p(last) {
        assert Filter(s, p) == Filter(prefix, p) + [last];
        SumAppend(Filter(prefix, p), [last], f);
        assert [last][..0] == [];
      } else {
        assert Filter(s, p) == Filter(prefix, p);
      }
    }
  }

  /** `s.slice(0, n)` for `n >= 0`: at most the first `n` elements. */
  function Take<T(!new)>(s: seq<T>, n: nat): (r: seq<T>)
    ensures |r| <= n && |r| <= |s|
    ensures r <= s
    ensures |s| <= n ==> r == s
    ensures n <= |s| ==> |r| == n
  {
    if |s| <= n then s else s[..n]
  }

  /** `[...new Set(s)]`: each distinct element once, in the order of its first occurrence. */
  function Dedup<T(==,!new)>(s: seq<T>): (r: seq<T>)
    ensures forall x :: x in r <==> x in s
    ensures |r| <= |s|
    decreases |s|
  {
    if s == [] then []
    else
      var d := Dedup(s[..|s| - 1]);
      if s[|s| - 1] in d then d else d + [s[|s| - 1]]
  }

  /** No element occurs twice in `s`. */
  predicate Distinct<T(==,!new)>(s: seq<T>) {
    forall i, j :: 0 <= i < j < |s| ==> s[i] != s[j]
  }

  /** The position of the first occurrence of `x` in `s`. */
  function FirstIndex<T(==,!new)>(s: seq<T>, x: T): (i: nat)
    requires x in s
    ensures i < |s| && s[i] == x
    ensures forall j :: 0 <= j < i ==> s[j] != x
  {
    if s[0] == x then 0 else 1 + FirstIndex(s[1..], x)
  }

  lemma {:induction false} DedupDistinct<T(!new)>(s: seq<T>)
    ensures Distinct(Dedup(s))
    decreases |s|
  {
    if s != [] {
      DedupDistinct(s[..|s| - 1]);
    }
  }

  /** Extending a list leaves the first occurrence of an element it already has where it was. */
  lemma FirstIndexExtend<T(!new)>(s: seq<T>, t: seq<T>, x: T)
    requires x in s
    ensures x in s + t && FirstIndex(s + t, x) == FirstIndex(s, x)
  {
    var i := FirstIndex(s, x);
    assert (s + t)[i] == x;
    var j := FirstIndex(s + t, x);
    assert j <= i;
    assert s[j] == x;
  }

  /** The de-duplicated list orders its elements by where they first occur in the input. */
  lemma {:induction false} DedupFirstOccurrenceOrder<T(!new)>(s: seq<T>)
    ensures forall i, j :: 0 <= i < j < |Dedup(s)| ==>
      Dedup(s)[i] in s && Dedup(s)[j] in s && FirstIndex(s, Dedup(s)[i]) < FirstIndex(s, Dedup(s)[j])
    decreases |s|
  {
    if s != [] {
      var prefix := s[..|s| - 1];
      var last := s[|s| - 1];
      assert s == prefix + [last];
      var d := Dedup(prefix);
      assert Dedup(s) == if last in d then d else d + [last];
      DedupFirstOccurrenceOrder(prefix);
      assert forall k :: 0 <= k < |prefix| ==> s[k] == prefix[k];
      forall i, j | 0 <= i < j < |Dedup(s)|
        ensures Dedup(s)[i] in s && Dedup(s)[j] in s
        ensures FirstIndex(s, Dedup(s)[i]) < FirstIndex(s, Dedup(s)[j])
      {
        assert Dedup(s)[i] == d[i] && d[i] in prefix;
        FirstIndexExtend(prefix, [last], d[i]);
        if j < |d| {
          assert Dedup(s)[j] == d[j] && d[j] in prefix;
          FirstIndexExtend(prefix, [last], d[j]);
        } else {
          assert Dedup(s)[j] == last && last !in prefix;
          assert FirstIndex(s, last) == |prefix|;
        }
      }
    } else {
      assert |Dedup(s)| == 0;
    }
  }
}
