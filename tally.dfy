/** Counting over lists of naturals: how often a value occurs, how many
    values lie below a bound, and the sum of a histogram. The histograms of
    the gap statistics are stated through these. */
module Tally {

  /** Number of occurrences of x in xs. */
  function Occ(xs: seq<nat>, x: nat): nat {
    if xs == [] then 0
    else Occ(xs[..|xs| - 1], x) + (if xs[|xs| - 1] == x then 1 else 0)
  }

  /** A value that occurs in xs is counted at least once. */
  lemma {:induction false} OccPositive(xs: seq<nat>, x: nat)
    requires x in xs
    ensures Occ(xs, x) > 0
  {
    if xs[|xs| - 1] != x {
      assert xs == xs[..|xs| - 1] + [xs[|xs| - 1]];
      OccPositive(xs[..|xs| - 1], x);
    }
  }

  /** Number of elements of xs that are smaller than n. */
  function CountBelow(xs: seq<nat>, n: nat): nat {
    if xs == [] then 0
    else CountBelow(xs[..|xs| - 1], n) + (if xs[|xs| - 1] < n then 1 else 0)
  }

  /** Sum of all entries. */
  function Sum(h: seq<nat>): nat {
    if h == [] then 0 else Sum(h[..|h| - 1]) + h[|h| - 1]
  }

  /** No entry is positive: what the writers test with find_if(s > 0). */
  predicate AllZero(xs: seq<nat>) {
    forall k :: 0 <= k < |xs| ==> xs[k] == 0
  }

  predicate AllBelow(xs: seq<nat>, n: nat) {
    forall k :: 0 <= k < |xs| ==> xs[k] < n
  }

  /** h is the histogram of xs: entry L counts the occurrences of L. */
  predicate IsHistogramOf(h: seq<nat>, xs: seq<nat>) {
    forall L :: 0 <= L < |h| ==> h[L] == Occ(xs, L)
  }

  lemma {:induction false} OccAppend(a: seq<nat>, b: seq<nat>, x: nat)
    ensures Occ(a + b, x) == Occ(a, x) + Occ(b, x)
    decreases |b|
  {
    if b == [] {
      assert a + b == a;
    } else {
      assert (a + b)[..|a + b| - 1] == a + b[..|b| - 1];
      OccAppend(a, b[..|b| - 1], x);
    }
  }

  lemma {:induction false} OccBounded(xs: seq<nat>, n: nat, x: nat)
    requires AllBelow(xs, n) && x >= n
    ensures Occ(xs, x) == 0
    decreases |xs|
  {
    if xs != [] {
      OccBounded(xs[..|xs| - 1], n, x);
    }
  }

  lemma {:induction false} CountBelowStep(xs: seq<nat>, n: nat)
    ensures CountBelow(xs, n + 1) == CountBelow(xs, n) + Occ(xs, n)
    decreases |xs|
  {
    if xs != [] {
      CountBelowStep(xs[..|xs| - 1], n);
    }
  }

  lemma {:induction false} CountBelowAll(xs: seq<nat>, n: nat)
    requires AllBelow(xs, n)
    ensures CountBelow(xs, n) == |xs|
    decreases |xs|
  {
    if xs != [] {
      CountBelowAll(xs[..|xs| - 1], n);
    }
  }

  /** Summing the first n entries of the histogram of xs counts the elements
      of xs below n. */
  lemma {:induction false} SumPrefixOfHistogram(h: seq<nat>, xs: seq<nat>, n: nat)
    requires IsHistogramOf(h, xs) && n <= |h|
    ensures Sum(h[..n]) == CountBelow(xs, n)
    decreases n
  {
    if n == 0 {
      CountBelowZero(xs);
    } else {
      SumPrefixOfHistogram(h, xs, n - 1);
      assert h[..n][..n - 1] == h[..n - 1];
      CountBelowStep(xs, n - 1);
    }
  }

  lemma {:induction false} CountBelowZero(xs: seq<nat>)
    ensures CountBelow(xs, 0) == 0
    decreases |xs|
  {
    if xs != [] {
      CountBelowZero(xs[..|xs| - 1]);
    }
  }

  /** Conservation: a histogram wide enough for every value sums to the
      number of values it was built from. */
  lemma SumOfHistogram(h: seq<nat>, xs: seq<nat>)
    requires IsHistogramOf(h, xs) && AllBelow(xs, |h|)
    ensures Sum(h) == |xs|
  {
    SumPrefixOfHistogram(h, xs, |h|);
    assert h[..|h|] == h;
    CountBelowAll(xs, |h|);
  }

  /** Recording one more value y bumps entry y and no other. */
  lemma OccSnoc(xs: seq<nat>, y: nat, x: nat)
    ensures Occ(xs + [y], x) == Occ(xs, x) + (if y == x then 1 else 0)
  {
    assert (xs + [y])[..|xs|] == xs;
  }

  /** A histogram grown with zero entries is still the histogram of values
      that all lie below its old size. */
  lemma HistogramGrow(h: seq<nat>, xs: seq<nat>, n: nat)
    requires IsHistogramOf(h, xs) && AllBelow(xs, |h|)
    ensures IsHistogramOf(h + seq(n, _ => 0), xs)
  {
    var h' := h + seq(n, _ => 0);
    forall L | 0 <= L < |h'|
      ensures h'[L] == Occ(xs, L)
    {
      if L >= |h| {
        OccBounded(xs, |h|, L);
      }
    }
  }

  /** r is base with the occurrences of the values xs added. */
  predicate Tallied(r: seq<nat>, base: seq<nat>, xs: seq<nat>) {
    |r| == |base| && forall L :: 0 <= L < |base| ==> r[L] == base[L] + Occ(xs, L)
  }

  /** Bumping entry y of a running tally records one more occurrence of y. */
  lemma TallyBump(r: seq<nat>, base: seq<nat>, xs: seq<nat>, y: nat)
    requires Tallied(r, base, xs) && y < |r|
    ensures Tallied(r[y := r[y] + 1], base, xs + [y])
  {
    forall L | 0 <= L < |base|
      ensures r[y := r[y] + 1][L] == base[L] + Occ(xs + [y], L)
    {
      OccSnoc(xs, y, L);
    }
  }

  lemma HistogramExtend(h: seq<nat>, h': seq<nat>, xs: seq<nat>, ys: seq<nat>)
    requires IsHistogramOf(h, xs) && Tallied(h', h, ys)
    ensures IsHistogramOf(h', xs + ys)
  {
    forall L | 0 <= L < |h'|
      ensures h'[L] == Occ(xs + ys, L)
    {
      OccAppend(xs, ys, L);
    }
  }

  /** When every value is 0, all of them are counted at 0. */
  lemma {:induction false} OccAllZero(xs: seq<nat>)
    requires AllBelow(xs, 1)
    ensures Occ(xs, 0) == |xs|
    decreases |xs|
  {
    if xs != [] {
      OccAllZero(xs[..|xs| - 1]);
    }
  }

  /** Adding the tally of ys to the histogram of xs gives the histogram of
      xs + ys. */
  lemma HistogramAdd(h: seq<nat>, h': seq<nat>, xs: seq<nat>, ys: seq<nat>)
    requires IsHistogramOf(h, xs) && AllBelow(xs, |h|)
    requires Tallied(h', h, ys) && AllBelow(ys, |h|)
    ensures IsHistogramOf(h', xs + ys) && AllBelow(xs + ys, |h'|)
  {
    forall L | 0 <= L < |h'|
      ensures h'[L] == Occ(xs + ys, L)
    {
      OccAppend(xs, ys, L);
    }
  }

  /** Two tallies in a row are one tally of both value lists. */
  lemma TalliedTrans(h0: seq<nat>, h1: seq<nat>, h2: seq<nat>, xs: seq<nat>, ys: seq<nat>)
    requires Tallied(h1, h0, xs) && Tallied(h2, h1, ys)
    ensures Tallied(h2, h0, xs + ys)
  {
    forall L | 0 <= L < |h0|
      ensures h2[L] == h0[L] + Occ(xs + ys, L)
    {
      OccAppend(xs, ys, L);
    }
  }
}
