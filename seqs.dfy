/** The list primitives the source uses: `filter`, `find`, `findIndex`, `some`. */
module Seqs {

  import opened Wrappers

  /** `xs` occurs in `ys` in order, possibly with gaps (greedy matching). */
  predicate IsSubseq<T(==)>(xs: seq<T>, ys: seq<T>)
    decreases |ys|
  {
    xs == [] || (ys != [] && if xs[0] == ys[0] then IsSubseq(xs[1..], ys[1..]) else IsSubseq(xs, ys[1..]))
  }

  /** No element occurs twice. */
  predicate Distinct<T(==)>(xs: seq<T>) {
    forall i, j :: 0 <= i < j < |xs| ==> xs[i] != xs[j]
  }

  /** `Array.prototype.filter`: the elements of `xs` satisfying `p`, in their order. */
  function Filter<T(==,!new)>(xs: seq<T>, p: T -> bool): (r: seq<T>)
    ensures |r| <= |xs|
    ensures forall x :: x in r <==> x in xs && p(x)
    ensures forall i :: 0 <= i < |r| ==> p(r[i])
    ensures IsSubseq(r, xs)
    decreases |xs|
  {
    if xs == [] then []
    else
      var rest := Filter(xs[1..], p);
      assert xs == [xs[0]] + xs[1..];
      if p(xs[0]) then
        [xs[0]] + rest
      else
        assert rest != [] ==> rest[0] != xs[0];
        rest
  }

  /** Filtering distributes over concatenation. */
  lemma {:induction false} FilterAppend<T(!new)>(xs: seq<T>, ys: seq<T>, p: T -> bool)
    ensures Filter(xs + ys, p) == Filter(xs, p) + Filter(ys, p)
    decreases |xs|
  {
    if xs == [] {
      assert xs + ys == ys;
    } else {
      assert (xs + ys)[1..] == xs[1..] + ys;
      FilterAppend(xs[1..], ys, p);
    }
  }

  /** Each element passing the filter keeps its number of occurrences; the others have none. */
  lemma {:induction false} FilterMultiset<T(!new)>(xs: seq<T>, p: T -> bool)
    ensures forall x :: multiset(Filter(xs, p))[x] == if p(x) then multiset(xs)[x] else 0
    decreases |xs|
  {
    if xs != [] {
      FilterMultiset(xs[1..], p);
      assert xs == [xs[0]] + xs[1..];
    }
  }

  lemma SplitLast<T>(xs: seq<T>)
    requires xs != []
    ensures xs[..|xs| - 1] + [xs[|xs| - 1]] == xs
  {
  }

  lemma FilterOne<T(!new)>(x: T, p: T -> bool)
    ensures Filter([x], p) == if p(x) then [x] else []
  {
    assert [x][1..] == [];
  }

  /** Filtering twice is filtering once by the conjunction. */
  lemma {:induction false} FilterFilter<T(!new)>(xs: seq<T>, p: T -> bool, q: T -> bool, pq: T -> bool)
    requires forall x :: pq(x) == (p(x) && q(x))
    ensures Filter(Filter(xs, p), q) == Filter(xs, pq)
    decreases |xs|
  {
    if xs != [] {
      FilterFilter(xs[1..], p, q, pq);
    }
  }

  /** A filter that keeps everything returns its input. */
  lemma {:induction false} FilterAll<T(!new)>(xs: seq<T>, p: T -> bool)
    requires forall i :: 0 <= i < |xs| ==> p(xs[i])
    ensures Filter(xs, p) == xs
    decreases |xs|
  {
    if xs != [] {
      FilterAll(xs[1..], p);
    }
  }

  /** Dropping the first element keeps the rest distinct, and the first is not among them. */
  lemma DistinctTail<T>(xs: seq<T>)
    requires xs != [] && Distinct(xs)
    ensures Distinct(xs[1..]) && xs[0] !in xs[1..]
  {
  }

  /** A new element in front of distinct elements keeps them distinct. */
  lemma DistinctCons<T>(x: T, ys: seq<T>)
    requires Distinct(ys) && x !in ys
    ensures Distinct([x] + ys)
  {
    var r := [x] + ys;
    forall i, j | 0 <= i < j < |r| ensures r[i] != r[j] {
      assert r[j] == ys[j - 1];
      if i > 0 {
        assert r[i] == ys[i - 1];
      }
    }
  }

  /** Filtering keeps distinct elements distinct. */
  lemma {:induction false} FilterDistinct<T(!new)>(xs: seq<T>, p: T -> bool)
    requires Distinct(xs)
    ensures Distinct(Filter(xs, p))
    decreases |xs|
  {
    if xs != [] {
      DistinctTail(xs);
      FilterDistinct(xs[1..], p);
      if p(xs[0]) {
        DistinctCons(xs[0], Filter(xs[1..], p));
      }
    }
  }

  /** Every element stands in relation `r` to every element after it. */
  predicate Pairwise<T>(xs: seq<T>, r: (T, T) -> bool) {
    forall i, j :: 0 <= i < j < |xs| ==> r(xs[i], xs[j])
  }

  /** Filtering keeps a pairwise relation: its survivors keep their order. */
  lemma {:induction false} FilterPairwise<T(!new)>(xs: seq<T>, p: T -> bool, r: (T, T) -> bool)
    requires Pairwise(xs, r)
    ensures Pairwise(Filter(xs, p), r)
    decreases |xs|
  {
    if xs != [] {
      var tail := xs[1..];
      assert Pairwise(tail, r) by {
        forall i, j | 0 <= i < j < |tail| ensures r(tail[i], tail[j]) {
          assert tail[i] == xs[i + 1] && tail[j] == xs[j + 1];
        }
      }
      FilterPairwise(tail, p, r);
      var rest := Filter(tail, p);
      if p(xs[0]) {
        var f := [xs[0]] + rest;
        forall i, j | 0 <= i < j < |f| ensures r(f[i], f[j]) {
          assert f[j] == rest[j - 1];
          if i == 0 {
            assert rest[j - 1] in tail;
            var k :| 0 <= k < |tail| && tail[k] == rest[j - 1];
            assert xs[k + 1] == f[j];
          } else {
            assert f[i] == rest[i - 1];
          }
        }
      }
    }
  }

  /** A filter that keeps nothing returns the empty sequence. */
  lemma {:induction false} FilterNone<T(!new)>(xs: seq<T>, p: T -> bool)
    requires forall i :: 0 <= i < |xs| ==> !p(xs[i])
    ensures Filter(xs, p) == []
    decreases |xs|
  {
    if xs != [] {
      FilterNone(xs[1..], p);
    }
  }

  /** A slice none of whose elements passes filters to nothing. */
  lemma FilterSliceNone<T(!new)>(t: seq<T>, p: T -> bool, i: nat, j: nat)
    requires i <= j <= |t|
    requires forall k :: i <= k < j ==> !p(t[k])
    ensures Filter(t[i..j], p) == []
  {
    var s := t[i..j];
    forall m | 0 <= m < |s| ensures !p(s[m]) {
      assert s[m] == t[i + m];
    }
    FilterNone(s, p);
  }

  /** A slice all of whose elements pass filters to itself. */
  lemma FilterSliceAll<T(!new)>(t: seq<T>, p: T -> bool, i: nat, j: nat)
    requires i <= j <= |t|
    requires forall k :: i <= k < j ==> p(t[k])
    ensures Filter(t[i..j], p) == t[i..j]
  {
    var s := t[i..j];
    forall m | 0 <= m < |s| ensures p(s[m]) {
      assert s[m] == t[i + m];
    }
    FilterAll(s, p);
  }

  /** A filter picks out exactly the elements `lo..hi` of a sequence when those elements, and no others, pass. */
  lemma FilterRange<T(!new)>(t: seq<T>, p: T -> bool, lo: nat, hi: nat)
    requires lo <= hi <= |t|
    requires forall k :: 0 <= k < |t| ==> (p(t[k]) <==> lo <= k < hi)
    ensures Filter(t, p) == t[lo..hi]
  {
    FilterSliceNone(t, p, 0, lo);
    FilterSliceAll(t, p, lo, hi);
    FilterSliceNone(t, p, hi, |t|);
    SplitThree(t, lo, hi);
    FilterMiddle(t[0..lo], t[lo..hi], t[hi..|t|], p);
  }

  lemma SplitThree<T>(t: seq<T>, lo: nat, hi: nat)
    requires lo <= hi <= |t|
    ensures t == t[0..lo] + t[lo..hi] + t[hi..|t|]
  {
  }

  /** Filtering three parts of which only the middle one passes gives the middle one. */
  lemma FilterMiddle<T(!new)>(a: seq<T>, b: seq<T>, c: seq<T>, p: T -> bool)
    requires Filter(a, p) == [] && Filter(b, p) == b && Filter(c, p) == []
    ensures Filter(a + b + c, p) == b
  {
    FilterAppend(a + b, c, p);
    FilterAppend(a, b, p);
    assert [] + b + [] == b;
  }

  /** `Array.prototype.findIndex`, with "not found" as `|xs|` instead of -1. */
  function FindIndex<T>(xs: seq<T>, p: T -> bool): (i: nat)
    ensures i <= |xs|
    ensures i < |xs| ==> p(xs[i])
    ensures forall j :: 0 <= j < i ==> !p(xs[j])
    decreases |xs|
  {
    if xs == [] then 0
    else if p(xs[0]) then 0
    else 1 + FindIndex(xs[1..], p)
  }

  /** The first index satisfying `p` is the one found. */
  lemma FindIndexAt<T>(xs: seq<T>, p: T -> bool, i: nat)
    requires i < |xs| && p(xs[i])
    requires forall j :: 0 <= j < i ==> !p(xs[j])
    ensures FindIndex(xs, p) == i
  {
  }

  /** Nothing satisfying `p` is "not found". */
  lemma FindIndexNone<T>(xs: seq<T>, p: T -> bool)
    requires forall j :: 0 <= j < |xs| ==> !p(xs[j])
    ensures FindIndex(xs, p) == |xs|
  {
  }

  /** `Array.prototype.find`: the first element satisfying `p`, or `None` (`undefined`). */
  function Find<T(==,!new)>(xs: seq<T>, p: T -> bool): (r: Option<T>)
    ensures r.Some? ==> r.value in xs && p(r.value)
    ensures r.Some? ==> r.value == xs[FindIndex(xs, p)]
    ensures r.None? <==> forall x :: x in xs ==> !p(x)
  {
    var i := FindIndex(xs, p);
    if i < |xs| then Some(xs[i]) else None
  }

  /** `Array.prototype.some`. */
  function Any<T(==,!new)>(xs: seq<T>, p: T -> bool): (b: bool)
    ensures b <==> exists x :: x in xs && p(x)
    decreases |xs|
  {
    if xs == [] then false
    else
      assert xs == [xs[0]] + xs[1..];
      p(xs[0]) || Any(xs[1..], p)
  }
}
