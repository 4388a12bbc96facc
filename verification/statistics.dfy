/** The statistical reduction of src/CoreWarEvaluator.cpp: the sum and mean
    of the per-opponent scores, their population variance (squared
    deviations divided by N) and the penalised fitness
    mean - VARIANCE_LAMBDA * variance, computed over the reals. */
module Statistics {
  import opened Config

  /** Sum accumulated from left to right, as the source's `sum += f`. */
  function Sum(xs: seq<real>): (s: real)
    ensures (forall i :: 0 <= i < |xs| ==> xs[i] >= 0.0) ==> s >= 0.0
  {
    if |xs| == 0 then 0.0 else Sum(xs[..|xs| - 1]) + xs[|xs| - 1]
  }

  function Mean(xs: seq<real>): real
    requires |xs| > 0
  {
    Sum(xs) / |xs| as real
  }

  function Product(a: real, b: real): real {
    a * b
  }

  /** d * d: never negative, and positive unless d is zero. */
  function Square(d: real): (r: real)
    ensures r >= 0.0
    ensures d != 0.0 ==> r > 0.0
  {
    if d != 0.0 then ProductOfSameSignPositive(d, d); Product(d, d) else Product(d, d)
  }

  /** The squared distance from m, as a function of the score. */
  function SquaredDeviationFrom(m: real): real -> real {
    x => Square(x - m)
  }

  /** Applies f to every element, keeping the order. */
  function MapSeq<A, B>(xs: seq<A>, f: A -> B): (ys: seq<B>)
    ensures |ys| == |xs|
    ensures forall i :: 0 <= i < |xs| ==> ys[i] == f(xs[i])
  {
    seq(|xs|, i requires 0 <= i < |xs| => f(xs[i]))
  }

  /** Population variance: the mean squared deviation from the mean. */
  function Variance(xs: seq<real>): (v: real)
    requires |xs| > 0
    ensures v >= 0.0
  {
    DeviationsNonNegative(xs, Mean(xs));
    Sum(MapSeq(xs, SquaredDeviationFrom(Mean(xs)))) / |xs| as real
  }

  /** Mean score penalised by the spread of the scores. */
  function PenalisedFitness(xs: seq<real>): (f: real)
    requires |xs| > 0
    ensures f <= Mean(xs)
  {
    Mean(xs) - VARIANCE_LAMBDA * Variance(xs)
  }

  predicate AllEqual(xs: seq<real>) {
    forall i :: 0 <= i < |xs| ==> xs[i] == xs[0]
  }

  // ---------------------------------------------------------------------
  // Lemmas

  lemma ProductOfSameSignPositive(a: real, b: real)
    requires (a > 0.0 && b > 0.0) || (a < 0.0 && b < 0.0)
    ensures Product(a, b) > 0.0
  {
    if a < 0.0 {
      assert a * b == (-a) * (-b);
    }
  }

  lemma {:induction false} SumSnoc(xs: seq<real>, x: real)
    ensures Sum(xs + [x]) == Sum(xs) + x
  {
    assert (xs + [x])[..|xs|] == xs;
  }

  /** xs without its element at position j. */
  function RemoveAt<T>(xs: seq<T>, j: nat): (r: seq<T>)
    requires j < |xs|
    ensures |r| == |xs| - 1
  {
    xs[..j] + xs[j + 1..]
  }

  /** Sum(xs) == xs[j] + the sum of the others. */
  lemma {:induction false} SumRemove(xs: seq<real>, j: nat)
    requires j < |xs|
    ensures Sum(xs) == xs[j] + Sum(RemoveAt(xs, j))
  {
    var n := |xs|;
    if j < n - 1 {
      var init := xs[..n - 1];
      SumRemove(init, j);
      assert RemoveAt(init, j) == RemoveAt(xs, j)[..n - 2];
      assert RemoveAt(xs, j)[n - 2] == xs[n - 1];
    } else {
      assert RemoveAt(xs, j) == xs[..n - 1];
    }
  }

  /** The last element of xs occurs in its permutation ys, and removing
      both leaves permutations of each other. */
  lemma MatchLast<T>(xs: seq<T>, ys: seq<T>) returns (j: nat)
    requires |xs| > 0 && multiset(xs) == multiset(ys)
    ensures j < |ys| && ys[j] == xs[|xs| - 1]
    ensures multiset(xs[..|xs| - 1]) == multiset(RemoveAt(ys, j))
  {
    var n := |xs|;
    var x := xs[n - 1];
    assert x in multiset(ys);
    j :| 0 <= j < |ys| && ys[j] == x;
    assert ys == ys[..j] + [x] + ys[j + 1..];
    assert xs == xs[..n - 1] + [x];
    assert multiset(RemoveAt(ys, j)) == multiset(ys) - multiset{x};
    assert multiset(xs[..n - 1]) == multiset(xs) - multiset{x};
  }

  lemma EmptyPermutation<T>(xs: seq<T>, ys: seq<T>)
    requires |xs| == 0 && multiset(xs) == multiset(ys)
    ensures |ys| == 0
  {
    assert |ys| == |multiset(ys)| == 0;
  }

  /** The sum does not depend on the order of the elements. */
  lemma {:induction false} SumPermutation(xs: seq<real>, ys: seq<real>)
    requires multiset(xs) == multiset(ys)
    ensures Sum(xs) == Sum(ys)
    decreases |xs|
  {
    if |xs| > 0 {
      var j := MatchLast(xs, ys);
      SumPermutation(xs[..|xs| - 1], RemoveAt(ys, j));
      SumRemove(ys, j);
    } else {
      EmptyPermutation(xs, ys);
    }
  }

  lemma MapSeqRemove<A, B>(ys: seq<A>, j: nat, f: A -> B)
    requires j < |ys|
    ensures MapSeq(RemoveAt(ys, j), f) == RemoveAt(MapSeq(ys, f), j)
  {
  }

  /** Mapping preserves "is a permutation of". */
  lemma {:induction false} MapSeqPermutation<A, B>(xs: seq<A>, ys: seq<A>, f: A -> B)
    requires multiset(xs) == multiset(ys)
    ensures multiset(MapSeq(xs, f)) == multiset(MapSeq(ys, f))
    decreases |xs|
  {
    if |xs| > 0 {
      var n := |xs|;
      var j := MatchLast(xs, ys);
      MapSeqPermutation(xs[..n - 1], RemoveAt(ys, j), f);
      MapSeqRemove(ys, j, f);
      var fxs, fys := MapSeq(xs, f), MapSeq(ys, f);
      assert fxs == MapSeq(xs[..n - 1], f) + [f(xs[n - 1])];
      assert fys == fys[..j] + [f(ys[j])] + fys[j + 1..];
      assert multiset(fys) == multiset(RemoveAt(fys, j)) + multiset{f(ys[j])};
    } else {
      EmptyPermutation(xs, ys);
    }
  }

  /** Every squared deviation is non-negative. */
  lemma DeviationsNonNegative(xs: seq<real>, m: real)
    ensures forall i :: 0 <= i < |xs| ==> MapSeq(xs, SquaredDeviationFrom(m))[i] >= 0.0
  {
    var ds := MapSeq(xs, SquaredDeviationFrom(m));
    forall i | 0 <= i < |xs|
      ensures ds[i] >= 0.0
    {
      assert ds[i] == Square(xs[i] - m);
    }
  }

  /** A sum of non-negative terms is zero only if every term is zero. */
  lemma {:induction false} SumZeroTermsZero(xs: seq<real>)
    requires forall i :: 0 <= i < |xs| ==> xs[i] >= 0.0
    requires Sum(xs) == 0.0
    ensures forall i :: 0 <= i < |xs| ==> xs[i] == 0.0
  {
    if |xs| > 0 {
      var init := xs[..|xs| - 1];
      assert Sum(init) >= 0.0;
      SumZeroTermsZero(init);
      assert forall i :: 0 <= i < |init| ==> xs[i] == init[i];
    }
  }

  /** n copies of c sum to n * c. */
  lemma {:induction false} SumConstant(xs: seq<real>, c: real)
    requires forall i :: 0 <= i < |xs| ==> xs[i] == c
    ensures Sum(xs) == |xs| as real * c
  {
    if |xs| > 0 {
      SumConstant(xs[..|xs| - 1], c);
    }
  }

  /** An upper bound on the elements bounds the sum. */
  lemma {:induction false} SumAtMost(xs: seq<real>, hi: real)
    requires forall i :: 0 <= i < |xs| ==> xs[i] <= hi
    ensures Sum(xs) <= |xs| as real * hi
  {
    if |xs| > 0 {
      SumAtMost(xs[..|xs| - 1], hi);
      assert |xs| as real * hi == (|xs| - 1) as real * hi + hi;
    }
  }

  /** A lower bound on the elements bounds the sum. */
  lemma {:induction false} SumAtLeast(xs: seq<real>, lo: real)
    requires forall i :: 0 <= i < |xs| ==> lo <= xs[i]
    ensures |xs| as real * lo <= Sum(xs)
  {
    if |xs| > 0 {
      SumAtLeast(xs[..|xs| - 1], lo);
      assert |xs| as real * lo == (|xs| - 1) as real * lo + lo;
    }
  }

  lemma DivideBounds(s: real, n: real, lo: real, hi: real)
    requires n > 0.0
    ensures n * lo <= s ==> lo <= s / n
    ensures s <= n * hi ==> s / n <= hi
  {
    var q := s / n;
    assert q * n == s;
    if n * lo <= s {
      assert (q - lo) * n >= 0.0;
    }
    if s <= n * hi {
      assert (hi - q) * n >= 0.0;
    }
  }

  /** The mean is at most any upper bound of the scores. */
  lemma MeanAtMost(xs: seq<real>, hi: real)
    requires |xs| > 0
    requires forall i :: 0 <= i < |xs| ==> xs[i] <= hi
    ensures Mean(xs) <= hi
  {
    SumAtMost(xs, hi);
    DivideBounds(Sum(xs), |xs| as real, hi, hi);
  }

  /** The mean is at least any lower bound of the scores. */
  lemma MeanAtLeast(xs: seq<real>, lo: real)
    requires |xs| > 0
    requires forall i :: 0 <= i < |xs| ==> lo <= xs[i]
    ensures lo <= Mean(xs)
  {
    SumAtLeast(xs, lo);
    DivideBounds(Sum(xs), |xs| as real, lo, lo);
  }

  /** Equal scores: the mean is the common score and nothing deviates. */
  lemma AllEqualMeanVariance(xs: seq<real>)
    requires |xs| > 0 && AllEqual(xs)
    ensures Mean(xs) == xs[0]
    ensures Variance(xs) == 0.0
  {
    var n := |xs| as real;
    MeanAtMost(xs, xs[0]);
    MeanAtLeast(xs, xs[0]);
    var ds := MapSeq(xs, SquaredDeviationFrom(Mean(xs)));
    forall i | 0 <= i < |ds|
      ensures ds[i] == 0.0
    {
      assert ds[i] == Square(xs[i] - xs[0]) == Product(0.0, 0.0);
    }
    SumConstant(ds, 0.0);
  }

  /** A zero variance leaves no score off the mean. */
  lemma VarianceZeroAllEqual(xs: seq<real>)
    requires |xs| > 0 && Variance(xs) == 0.0
    ensures AllEqual(xs)
  {
    var m := Mean(xs);
    var ds := MapSeq(xs, SquaredDeviationFrom(m));
    var n := |xs| as real;
    assert Sum(ds) / n == 0.0;
    assert Sum(ds) == 0.0;
    DeviationsNonNegative(xs, m);
    SumZeroTermsZero(ds);
    assert forall i :: 0 <= i < |xs| ==> Square(xs[i] - m) == 0.0;
  }

  /** Population variance is zero exactly when all scores are equal; then
      the mean and the fitness both equal the common score. */
  lemma VarianceZeroIffAllEqual(xs: seq<real>)
    requires |xs| > 0
    ensures Variance(xs) == 0.0 <==> AllEqual(xs)
    ensures AllEqual(xs) ==> Mean(xs) == xs[0] && PenalisedFitness(xs) == xs[0]
  {
    if AllEqual(xs) {
      AllEqualMeanVariance(xs);
    }
    if Variance(xs) == 0.0 {
      VarianceZeroAllEqual(xs);
    }
  }

  /** The fitness equals the mean exactly when all scores are equal. */
  lemma FitnessEqualsMeanIffAllEqual(xs: seq<real>)
    requires |xs| > 0
    ensures PenalisedFitness(xs) == Mean(xs) <==> AllEqual(xs)
  {
    VarianceZeroIffAllEqual(xs);
  }

  /** Reordering the scores changes neither mean, variance nor fitness. */
  lemma PermutationInvariant(xs: seq<real>, ys: seq<real>)
    requires |xs| > 0
    requires multiset(xs) == multiset(ys)
    ensures |ys| == |xs|
    ensures Mean(ys) == Mean(xs)
    ensures Variance(ys) == Variance(xs)
    ensures PenalisedFitness(ys) == PenalisedFitness(xs)
  {
    assert |xs| == |multiset(xs)| == |multiset(ys)| == |ys|;
    SumPermutation(xs, ys);
    var f := SquaredDeviationFrom(Mean(xs));
    MapSeqPermutation(xs, ys, f);
    SumPermutation(MapSeq(xs, f), MapSeq(ys, f));
  }
}
