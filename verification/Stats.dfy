/** stats.c: streaming moments, over exact reals. */
module Stats {

  function Sum(xs: seq<real>): real {
    if xs == [] then 0.0 else Sum(xs[..|xs| - 1]) + xs[|xs| - 1]
  }

  /** The sum of squared distances from m. */
  function SquaredDeviation(xs: seq<real>, m: real): real {
    if xs == [] then 0.0
    else SquaredDeviation(xs[..|xs| - 1], m) + Square(xs[|xs| - 1] - m)
  }

  function Square(x: real): real { x * x }

  function Times(n: real, x: real): real { n * x }

  /** How far stats_add moves the mean. */
  function MeanStep(n: real, mean: real, x: real): real
    requires n >= 0.0
  {
    (x - mean) / (n + 1.0)
  }

  /** What stats_add adds to the second moment. */
  function SquareStep(n: real, mean: real, x: real): real
    requires n >= 0.0
  {
    MeanStep(n, mean, x) * (x - mean) * n
  }

  function Mean(xs: seq<real>): real {
    if xs == [] then 0.0 else Sum(xs) / |xs| as real
  }

  /** ~0u */
  const MIN_INIT := 4294967295.0

  ghost predicate IsMin(xs: seq<real>, m: real) {
    m in xs && forall i :: 0 <= i < |xs| ==> m <= xs[i]
  }

  ghost predicate IsMax(xs: seq<real>, m: real) {
    m in xs && forall i :: 0 <= i < |xs| ==> xs[i] <= m
  }

  /** (x - m)^2 and the three terms of Parallel, for one more sample. */
  lemma OneTerm(q: real, m: real, s: real, n: real, x: real)
    ensures q - 2.0 * Times(m, s) + Times(n, Square(m)) + Square(x - m)
         == q + Square(x) - 2.0 * Times(m, s + x) + Times(n + 1.0, Square(m))
  {
  }

  /** Deviations from any point, in terms of deviations from zero. */
  lemma {:induction false} Parallel(xs: seq<real>, m: real)
    ensures SquaredDeviation(xs, m)
         == SquaredDeviation(xs, 0.0) - 2.0 * Times(m, Sum(xs)) + Times(|xs| as real, Square(m))
  {
    if xs != [] {
      var front, x := xs[..|xs| - 1], xs[|xs| - 1];
      Parallel(front, m);
      OneTerm(SquaredDeviation(front, 0.0), m, Sum(front), |front| as real, x);
      assert |xs| as real == |front| as real + 1.0;
      hide Times, Square;
      assert x - 0.0 == x;
    }
  }

  lemma Quotient(s: real, n: real)
    requires n != 0.0
    ensures Times(n, s / n) == s
  {
  }

  lemma CrossTerm(n: real, m: real, s: real)
    requires s == Times(n, m)
    ensures Times(m, s) == Times(n, Square(m))
  {
  }

  lemma MeanTimesCount(xs: seq<real>)
    ensures Sum(xs) == Times(|xs| as real, Mean(xs))
  {
    if xs != [] {
      Quotient(Sum(xs), |xs| as real);
    }
  }

  /** The deviation from the mean is what is left of the square sum. */
  lemma AboutMean(xs: seq<real>)
    ensures SquaredDeviation(xs, Mean(xs)) == SquaredDeviation(xs, 0.0) - Times(|xs| as real, Square(Mean(xs)))
  {
    MeanTimesCount(xs);
    Parallel(xs, Mean(xs));
    hide Mean, Sum, SquaredDeviation;
    CrossTerm(|xs| as real, Mean(xs), Sum(xs));
    hide Times, Square;
  }

  lemma Expand(n: real, mean: real, q: real, d: real, x: real)
    requires d == q * (n + 1.0) && x == mean + d
    ensures (n + 1.0) * (mean + q) == n * mean + x
    ensures q * d * n == x * x + n * (mean * mean) - (n + 1.0) * ((mean + q) * (mean + q))
  {
  }

  /** One step of the recurrence that stats_add computes, as an identity. */
  lemma Recurrence(n: real, mean: real, x: real)
    requires n >= 0.0
    ensures var mean1 := mean + MeanStep(n, mean, x);
            && Times(n + 1.0, mean1) == Times(n, mean) + x
            && SquareStep(n, mean, x) == Square(x) + Times(n, Square(mean)) - Times(n + 1.0, Square(mean1))
  {
    Quotient(x - mean, n + 1.0);
    Expand(n, mean, MeanStep(n, mean, x), x - mean, x);
  }

  /** min and max bound the samples, and are samples unless they are still the initial values. */
  ghost predicate Bounds(xs: seq<real>, min: real, max: real) {
    && (forall i :: 0 <= i < |xs| ==> min <= xs[i] <= max)
    && min <= MIN_INIT && max >= 0.0
    && (min == MIN_INIT || min in xs) && (max == 0.0 || max in xs)
  }

  lemma NextBounds(xs: seq<real>, min: real, max: real, x: real)
    requires Bounds(xs, min, max)
    ensures Bounds(xs + [x], if x < min then x else min, if x > max then x else max)
  {
    var ys := xs + [x];
    assert ys[|xs|] == x;
    assert forall i :: 0 <= i < |xs| ==> ys[i] == xs[i];
  }

  class Accumulator {
    var moment0: real
    var moment1: real
    var moment2: real
    var min: real
    var max: real
    ghost var samples: seq<real>

    /** The moments are exactly the count, the mean and the squared deviation from it. */
    ghost predicate Valid()
      reads this
    {
      && moment0 == |samples| as real
      && moment1 == Mean(samples)
      && moment2 == SquaredDeviation(samples, Mean(samples))
      && Bounds(samples, min, max)
    }

    /** stats_init */
    constructor ()
      ensures Valid() && samples == []
    {
      moment0, moment1, moment2 := 0.0, 0.0, 0.0;
      min, max := MIN_INIT, 0.0;
      samples := [];
    }

    /** stats_add */
    method Add(sample: real)
      requires Valid()
      modifies this
      ensures Valid() && samples == old(samples) + [sample]
    {
      hide Mean, SquaredDeviation, Bounds, MeanStep, SquareStep;
      NextMoments(samples, sample);
      NextBounds(samples, min, max, sample);
      assert |samples + [sample]| as real == moment0 + 1.0;
      var meanAccum := MeanStep(moment0, moment1, sample);
      var delta2 := SquareStep(moment0, moment1, sample);
      moment0 := moment0 + 1.0;
      moment1 := moment1 + meanAccum;
      moment2 := moment2 + delta2;
      max := if sample > max then sample else max;
      min := if sample < min then sample else min;
      samples := samples + [sample];
    }

    /** stats_variance */
    method Variance() returns (v: real)
      requires Valid() && samples != []
      ensures v * |samples| as real == SquaredDeviation(samples, Mean(samples))
    {
      v := moment2 / moment0;
    }

    /** min is the least sample exactly when some sample does not exceed 2^32 - 1, and max the
        greatest exactly when some sample is not negative. */
    lemma Extremes()
      requires Valid()
      ensures IsMin(samples, min) <==> exists i :: 0 <= i < |samples| && samples[i] <= 4294967295.0
      ensures IsMax(samples, max) <==> exists i :: 0 <= i < |samples| && samples[i] >= 0.0
    {
      if IsMin(samples, min) {
        var i :| 0 <= i < |samples| && samples[i] == min;
        assert samples[i] <= MIN_INIT;
      }
      if IsMax(samples, max) {
        var i :| 0 <= i < |samples| && samples[i] == max;
        assert samples[i] >= 0.0;
      }
    }
  }

  lemma NextMean(xs: seq<real>, x: real, mean1: real)
    requires Times(|xs| as real + 1.0, mean1) == Times(|xs| as real, Mean(xs)) + x
    ensures Mean(xs + [x]) == mean1
  {
    var ys := xs + [x];
    SumSnoc(xs, x);
    MeanTimesCount(xs);
    MeanTimesCount(ys);
    hide Mean, Sum, SquaredDeviation;
    assert |ys| as real == |xs| as real + 1.0;
    SameFactor(|xs| as real + 1.0, Mean(ys), mean1);
  }

  lemma NextMoments(xs: seq<real>, x: real)
    ensures var n, mean, ys := |xs| as real, Mean(xs), xs + [x];
            && Mean(ys) == mean + MeanStep(n, mean, x)
            && SquaredDeviation(ys, Mean(ys)) == SquaredDeviation(xs, mean) + SquareStep(n, mean, x)
  {
    hide *;
    var n, mean, ys := |xs| as real, Mean(xs), xs + [x];
    Recurrence(n, mean, x);
    NextMean(xs, x, mean + MeanStep(n, mean, x));
    SumSnoc(xs, x);
    assert |ys| as real == n + 1.0;
    AboutMean(xs);
    AboutMean(ys);
  }

  lemma SameFactor(k: real, a: real, b: real)
    requires k > 0.0 && Times(k, a) == Times(k, b)
    ensures a == b
  {
    assert k * (a - b) == 0.0;
  }

  // ---- the order of the samples does not matter

  lemma {:induction false} SumSplit(xs: seq<real>, i: nat)
    requires i < |xs|
    ensures Sum(xs) == Sum(xs[..i] + xs[i + 1..]) + xs[i]
    ensures SquaredDeviation(xs, 0.0) == SquaredDeviation(xs[..i] + xs[i + 1..], 0.0) + Square(xs[i])
    decreases |xs|
  {
    hide *;
    var front, last := xs[..|xs| - 1], xs[|xs| - 1];
    assert xs == front + [last];
    SumSnoc(front, last);
    if i == |xs| - 1 {
      assert xs[..i] + xs[i + 1..] == front;
    } else {
      SumSplit(front, i);
      assert xs[..i] + xs[i + 1..] == front[..i] + front[i + 1..] + [last];
      SumSnoc(front[..i] + front[i + 1..], last);
    }
  }

  lemma SumSnoc(xs: seq<real>, x: real)
    ensures Sum(xs + [x]) == Sum(xs) + x
    ensures SquaredDeviation(xs + [x], 0.0) == SquaredDeviation(xs, 0.0) + Square(x)
  {
    assert (xs + [x])[..|xs|] == xs;
    hide Square;
    assert x - 0.0 == x;
  }

  lemma {:induction false} OrderOfSums(xs: seq<real>, ys: seq<real>)
    requires multiset(xs) == multiset(ys)
    ensures |xs| == |ys| && Sum(xs) == Sum(ys)
    ensures SquaredDeviation(xs, 0.0) == SquaredDeviation(ys, 0.0)
    decreases |xs|
  {
    hide *;
    assert |multiset(xs)| == |xs| && |multiset(ys)| == |ys|;
    if xs == [] {
      assert ys == [];
    } else {
      var front, x := xs[..|xs| - 1], xs[|xs| - 1];
      var i := MatchLast(xs, ys);
      OrderOfSums(front, ys[..i] + ys[i + 1..]);
      SumSplit(ys, i);
      assert xs == front + [x];
      SumSnoc(front, x);
    }
  }

  lemma MatchLast(xs: seq<real>, ys: seq<real>) returns (i: nat)
    requires multiset(xs) == multiset(ys) && xs != []
    ensures i < |ys| && ys[i] == xs[|xs| - 1]
    ensures multiset(xs[..|xs| - 1]) == multiset(ys[..i] + ys[i + 1..])
  {
    var x := xs[|xs| - 1];
    assert xs == xs[..|xs| - 1] + [x];
    assert x in multiset(ys);
    i :| 0 <= i < |ys| && ys[i] == x;
    WithoutOne(ys, i);
  }

  lemma WithoutOne(ys: seq<real>, i: nat)
    requires i < |ys|
    ensures multiset(ys[..i] + ys[i + 1..]) == multiset(ys) - multiset{ys[i]}
  {
    assert ys == ys[..i] + [ys[i]] + ys[i + 1..];
  }

  /** Accumulators that saw the same samples in any order agree on every moment. */
  lemma OrderIrrelevant(a: Accumulator, b: Accumulator)
    requires a.Valid() && b.Valid() && multiset(a.samples) == multiset(b.samples)
    ensures a.moment0 == b.moment0 && a.moment1 == b.moment1 && a.moment2 == b.moment2
    ensures a.min == b.min && a.max == b.max
  {
    OrderOfSums(a.samples, b.samples);
    AboutMean(a.samples);
    AboutMean(b.samples);
    SameMembers(a.samples, b.samples);
    hide Sum, SquaredDeviation, Square, Times;
  }

  lemma SameMembers(xs: seq<real>, ys: seq<real>)
    requires multiset(xs) == multiset(ys)
    ensures forall x :: x in xs <==> x in ys
  {
    assert forall x :: x in xs <==> x in multiset(xs);
    assert forall x :: x in ys <==> x in multiset(ys);
  }
}
