/** Sums, squared deviations and fairness of lists of reals. */
module Statistics {

  ghost function Times(x: real, y: real): real {
    x * y
  }

  lemma SignOfTimes(x: real, y: real)
    ensures x > 0.0 && y > 0.0 ==> Times(x, y) > 0.0
    ensures x < 0.0 && y < 0.0 ==> Times(x, y) > 0.0
    ensures x == 0.0 ==> Times(x, y) == 0.0
  {
    if x < 0.0 && y < 0.0 { assert x * y == (-x) * (-y); }
  }

  ghost function Square(x: real): real {
    Times(x, x)
  }

  lemma SquareZeroIff(x: real)
    ensures Square(x) >= 0.0 && (Square(x) == 0.0 <==> x == 0.0)
  {
    hide Times;
    SignOfTimes(x, x);
  }

  ghost function Sum(xs: seq<real>): real {
    if xs == [] then 0.0 else Sum(xs[..|xs| - 1]) + xs[|xs| - 1]
  }

  ghost function SumSquares(xs: seq<real>): real {
    if xs == [] then 0.0 else SumSquares(xs[..|xs| - 1]) + Square(xs[|xs| - 1])
  }

  /** The sum of squared deviations from `c`. */
  ghost function Deviation(xs: seq<real>, c: real): real {
    if xs == [] then 0.0 else Deviation(xs[..|xs| - 1], c) + Square(xs[|xs| - 1] - c)
  }

  ghost function Mean(xs: seq<real>): real
    requires xs != []
  {
    Sum(xs) / |xs| as real
  }

  lemma Append(xs: seq<real>, x: real, c: real)
    ensures Sum(xs + [x]) == Sum(xs) + x
    ensures SumSquares(xs + [x]) == SumSquares(xs) + Square(x)
    ensures Deviation(xs + [x], c) == Deviation(xs, c) + Square(x - c)
  {
    hide Square;
    assert (xs + [x])[..|xs + [x]| - 1] == xs;
  }

  ghost function Expanded(n: real, sum: real, squares: real, c: real): real {
    squares - 2.0 * c * sum + n * (c * c)
  }

  lemma ExpandedNext(n: real, sum: real, squares: real, c: real, x: real)
    ensures Expanded(n + 1.0, sum + x, squares + Square(x), c) == Expanded(n, sum, squares, c) + Square(x - c)
    ensures Square(x - c) >= 0.0
  {
    assert (x - c) * (x - c) == x * x - 2.0 * c * x + c * c;
    assert 2.0 * c * (sum + x) == 2.0 * c * sum + 2.0 * c * x;
    assert (n + 1.0) * (c * c) == n * (c * c) + c * c;
    SquareZeroIff(x - c);
  }

  lemma {:induction false} DeviationExpands(xs: seq<real>, c: real)
    ensures Deviation(xs, c) == Expanded(|xs| as real, Sum(xs), SumSquares(xs), c)
    ensures Deviation(xs, c) >= 0.0
  {
    if xs != [] {
      hide Expanded, Square;
      var front, x := xs[..|xs| - 1], xs[|xs| - 1];
      DeviationExpands(front, c);
      ExpandedNext(|front| as real, Sum(front), SumSquares(front), c, x);
      assert |xs| as real == |front| as real + 1.0;
    }
  }

  lemma TimesQuotient(x: real, n: real)
    requires n != 0.0
    ensures n * (x / n) == x
  {
  }

  lemma MeanTimesCount(xs: seq<real>)
    requires xs != []
    ensures |xs| as real * Mean(xs) == Sum(xs)
  {
    TimesQuotient(Sum(xs), |xs| as real);
  }

  /** Moving the centre away from the mean costs n times the square of the shift, so the mean is
      the centre with the least squared deviation. */
  lemma MeanIsLeast(xs: seq<real>, c: real)
    requires xs != []
    ensures Deviation(xs, c) == Deviation(xs, Mean(xs)) + |xs| as real * Square(c - Mean(xs))
    ensures Deviation(xs, Mean(xs)) <= Deviation(xs, c)
  {
    hide *;
    DeviationExpands(xs, c);
    DeviationExpands(xs, Mean(xs));
    MeanTimesCount(xs);
    ShiftedSquares(|xs| as real, Sum(xs), SumSquares(xs), Mean(xs), c);
  }

  lemma ShiftedSquares(n: real, sum: real, squares: real, m: real, c: real)
    requires sum == n * m
    ensures Expanded(n, sum, squares, c) == Expanded(n, sum, squares, m) + n * Square(c - m)
    ensures n >= 0.0 ==> n * Square(c - m) >= 0.0
  {
    assert (c - m) * (c - m) == c * c - 2.0 * c * m + m * m;
    assert n * (c * c - 2.0 * c * m + m * m) == n * (c * c) - 2.0 * c * (n * m) + n * (m * m);
    assert 2.0 * m * (n * m) == 2.0 * (n * (m * m));
    SquareZeroIff(c - m);
    hide Square;
    if n >= 0.0 { ProductNonNegative(n, Square(c - m)); }
  }

  lemma ProductNonNegative(x: real, y: real)
    requires x >= 0.0 && y >= 0.0
    ensures x * y >= 0.0
  {
  }

  /** The mean of the squares minus the square of the mean. */
  lemma VarianceFormula(xs: seq<real>)
    requires xs != []
    ensures Deviation(xs, Mean(xs)) / |xs| as real == SumSquares(xs) / |xs| as real - Square(Mean(xs))
  {
    hide *;
    DeviationExpands(xs, Mean(xs));
    MeanTimesCount(xs);
    ExpandedAtMean(|xs| as real, Sum(xs), SumSquares(xs), Mean(xs));
  }

  lemma ExpandedAtMean(n: real, sum: real, squares: real, m: real)
    requires sum == n * m && n > 0.0
    ensures Expanded(n, sum, squares, m) / n == squares / n - Square(m)
  {
    assert 2.0 * m * (n * m) == 2.0 * (n * (m * m));
    var v := Expanded(n, sum, squares, m);
    assert v == squares - n * (m * m);
    assert n * (v / n) == v && n * (squares / n) == squares;
    assert n * (v / n - squares / n + m * m) == 0.0;
  }

  lemma {:induction false} TakeOut(xs: seq<real>, i: nat, c: real)
    requires i < |xs|
    ensures var rest := xs[..i] + xs[i + 1..];
            && Sum(xs) == Sum(rest) + xs[i]
            && Deviation(xs, c) == Deviation(rest, c) + Square(xs[i] - c)
  {
    hide Square;
    var front, last := xs[..|xs| - 1], xs[|xs| - 1];
    if i == |xs| - 1 {
      assert xs[..i] + xs[i + 1..] == front;
    } else {
      TakeOut(front, i, c);
      var rest := front[..i] + front[i + 1..];
      assert xs[..i] + xs[i + 1..] == rest + [last];
      assert front[i] == xs[i] && xs == front + [last];
      Append(rest, last, c);
      Append(front, last, c);
    }
  }

  /** Neither the sum nor the squared deviation depends on the order of the samples. */
  lemma {:induction false} OrderIrrelevant(xs: seq<real>, ys: seq<real>, c: real)
    requires multiset(xs) == multiset(ys)
    ensures |xs| == |ys| && Sum(xs) == Sum(ys) && Deviation(xs, c) == Deviation(ys, c)
    decreases |xs|
  {
    hide Square, Sum, Deviation;
    if xs == [] {
      assert |multiset(ys)| == 0;
    } else {
      var front, last := xs[..|xs| - 1], xs[|xs| - 1];
      assert xs == front + [last];
      assert last in multiset(ys);
      var i :| 0 <= i < |ys| && ys[i] == last;
      var rest := ys[..i] + ys[i + 1..];
      SameRest(front, last, ys, i);
      OrderIrrelevant(front, rest, c);
      Append(front, last, c);
      TakeOut(ys, i, c);
    }
  }

  lemma SameRest(front: seq<real>, last: real, ys: seq<real>, i: nat)
    requires i < |ys| && ys[i] == last && multiset(front + [last]) == multiset(ys)
    ensures multiset(front) == multiset(ys[..i] + ys[i + 1..])
  {
    var a, b := ys[..i], ys[i + 1..];
    assert ys == a + ([last] + b);
    assert multiset(ys) == multiset(a) + (multiset{last} + multiset(b));
    assert multiset(a + b) == multiset(a) + multiset(b);
    assert multiset(front) == multiset(front + [last]) - multiset{last};
    assert multiset(a + b) == multiset(ys) - multiset{last};
  }

  // ---------------------------------------------------------------------------
  // Welford's recurrence
  // ---------------------------------------------------------------------------

  /** The ACCUMULATE macro for one field: the new average and the new second moment. */
  function Accumulate(x: real, average: real, moment2: real, count: nat): (real, real)
    requires count > 0
  {
    var deltaPre := x - average;
    var newAverage := average + deltaPre / count as real;
    var deltaPost := x - newAverage;
    (newAverage, moment2 + deltaPre * deltaPost)
  }

  /** After the samples `xs` the running pair is their exact mean and squared deviation; before the
      first sample the average may be anything. */
  ghost predicate Tracks(xs: seq<real>, average: real, moment2: real) {
    if xs == [] then moment2 == 0.0 else average == Mean(xs) && moment2 == Deviation(xs, Mean(xs))
  }

  lemma AccumulateTracks(xs: seq<real>, x: real, average: real, moment2: real)
    requires Tracks(xs, average, moment2)
    ensures var (a, m) := Accumulate(x, average, moment2, |xs| + 1); Tracks(xs + [x], a, m)
  {
    if xs == [] {
      FirstSample(x, average);
    } else {
      AccumulatedMean(xs, x, average, moment2);
      AccumulatedMoment(xs, x, average, moment2);
      hide Mean, Deviation, Accumulate;
    }
  }

  /** The first sample wipes out whatever the average was initialised with. */
  lemma FirstSample(x: real, average: real)
    ensures Accumulate(x, average, 0.0, 1) == (x, 0.0)
    ensures Tracks([x], x, 0.0)
  {
    Append([], x, x);
    SquareZeroIff(x - x);
    assert [] + [x] == [x];
    FirstAccumulate(x, average);
  }

  lemma FirstAccumulate(x: real, average: real)
    ensures Accumulate(x, average, 0.0, 1) == (x, 0.0)
  {
    var a := Accumulate(x, average, 0.0, 1);
    assert a.0 == x;
    assert a.1 == (x - average) * 0.0;
  }

  lemma AccumulatedMean(xs: seq<real>, x: real, average: real, moment2: real)
    requires xs != [] && average == Mean(xs)
    ensures Accumulate(x, average, moment2, |xs| + 1).0 == Mean(xs + [x])
  {
    Append(xs, x, 0.0);
    hide Sum, SumSquares, Deviation;
    NewMean(|xs| as real, Sum(xs), average, x, Accumulate(x, average, moment2, |xs| + 1).0);
    assert (|xs| + 1) as real == |xs| as real + 1.0;
  }

  lemma AccumulateParts(x: real, average: real, moment2: real, count: nat)
    requires count > 0
    ensures var (a, m) := Accumulate(x, average, moment2, count); m == moment2 + (x - average) * (x - a)
  {
  }

  lemma AccumulatedMoment(xs: seq<real>, x: real, average: real, moment2: real)
    requires xs != [] && average == Mean(xs) && moment2 == Deviation(xs, average)
    ensures Accumulate(x, average, moment2, |xs| + 1).1 == Deviation(xs + [x], Mean(xs + [x]))
  {
    hide *;
    AccumulatedMean(xs, x, average, moment2);
    AccumulateParts(x, average, moment2, |xs| + 1);
    NewDeviation(xs, x, average, Mean(xs + [x]));
  }

  lemma NewDeviation(xs: seq<real>, x: real, m: real, a: real)
    requires xs != [] && m == Mean(xs) && a == Mean(xs + [x])
    ensures Deviation(xs + [x], a) == Deviation(xs, m) + (x - m) * (x - a)
  {
    hide *;
    Append(xs, x, a);
    MeanIsLeast(xs, a);
    MeanTimesCount(xs);
    MeanTimesCount(xs + [x]);
    assert |xs + [x]| as real == |xs| as real + 1.0;
    WelfordIdentity(|xs| as real, m, a, x);
  }

  lemma NewMean(n: real, sum: real, average: real, x: real, a: real)
    requires n > 0.0 && average == sum / n && a == average + (x - average) / (n + 1.0)
    ensures a == (sum + x) / (n + 1.0)
  {
    TimesQuotient(sum, n);
    TimesQuotient(x - average, n + 1.0);
    assert (n + 1.0) * a == (n + 1.0) * average + (n + 1.0) * (a - average);
    assert (n + 1.0) * average == n * average + average;
    assert (n + 1.0) * a == sum + x;
  }

  lemma WelfordIdentity(n: real, m: real, a: real, x: real)
    requires (n + 1.0) * a == n * m + x
    ensures n * Square(a - m) + Square(x - a) == (x - m) * (x - a)
  {
    var d := a - m;
    assert (n + 1.0) * a == n * a + a && n * a == n * m + n * d;
    assert x - a == n * d && x - m == n * d + d;
    assert (n * d + d) * (x - a) == (n * d) * (x - a) + d * (n * d);
    assert d * (n * d) == n * (d * d);
  }

  // ---------------------------------------------------------------------------
  // Jain's index
  // ---------------------------------------------------------------------------

  ghost predicate NonNegative(xs: seq<real>) {
    forall i :: 0 <= i < |xs| ==> xs[i] >= 0.0
  }

  ghost predicate AllEqual(xs: seq<real>) {
    forall i, j :: 0 <= i < j < |xs| ==> xs[i] == xs[j]
  }

  ghost predicate AtMostOnePositive(xs: seq<real>) {
    forall i, j :: 0 <= i < j < |xs| ==> xs[i] == 0.0 || xs[j] == 0.0
  }

  /** n times the sum of squares exceeds the square of the sum by this much. */
  ghost function Spread(xs: seq<real>): real {
    Times(|xs| as real, SumSquares(xs)) - Square(Sum(xs))
  }

  lemma SpreadIdentity(n: real, s: real, q: real, x: real)
    ensures Times(n + 1.0, q + Square(x)) - Square(s + x) == Times(n, q) - Square(s) + Expanded(n, s, q, x)
  {
    assert (n + 1.0) * (q + x * x) == n * q + q + n * (x * x) + x * x;
    assert (s + x) * (s + x) == s * s + 2.0 * x * s + x * x;
  }

  lemma SpreadAppend(xs: seq<real>, x: real)
    ensures Spread(xs + [x]) == Spread(xs) + Deviation(xs, x)
  {
    hide Times, Square, Sum, SumSquares, Deviation, Expanded;
    Append(xs, x, x);
    DeviationExpands(xs, x);
    assert |xs + [x]| as real == |xs| as real + 1.0;
    SpreadIdentity(|xs| as real, Sum(xs), SumSquares(xs), x);
  }

  lemma {:induction false} DeviationZeroIff(xs: seq<real>, c: real)
    ensures Deviation(xs, c) == 0.0 <==> forall i :: 0 <= i < |xs| ==> xs[i] == c
  {
    hide Square;
    if xs != [] {
      var front, x := xs[..|xs| - 1], xs[|xs| - 1];
      DeviationZeroIff(front, c);
      DeviationExpands(front, c);
      SquareZeroIff(x - c);
    }
  }

  lemma {:induction false} SpreadZeroIff(xs: seq<real>)
    ensures Spread(xs) >= 0.0
    ensures Spread(xs) == 0.0 <==> AllEqual(xs)
  {
    if xs == [] {
      SignOfTimes(0.0, 0.0);
    } else {
      hide Spread, Deviation;
      var front, x := xs[..|xs| - 1], xs[|xs| - 1];
      SpreadZeroIff(front);
      SpreadAppend(front, x);
      assert front + [x] == xs;
      DeviationExpands(front, x);
      DeviationZeroIff(front, x);
    }
  }

  lemma {:induction false} SumZeroIff(xs: seq<real>)
    requires NonNegative(xs)
    ensures Sum(xs) >= 0.0
    ensures Sum(xs) == 0.0 <==> forall i :: 0 <= i < |xs| ==> xs[i] == 0.0
  {
    if xs != [] { SumZeroIff(xs[..|xs| - 1]); }
  }

  lemma {:induction false} SumSquaresZeroIff(xs: seq<real>)
    ensures SumSquares(xs) >= 0.0
    ensures SumSquares(xs) == 0.0 <==> forall i :: 0 <= i < |xs| ==> xs[i] == 0.0
  {
    hide Square;
    if xs != [] {
      SumSquaresZeroIff(xs[..|xs| - 1]);
      SquareZeroIff(xs[|xs| - 1]);
    }
  }

  lemma CrossTerm(s: real, x: real)
    requires s >= 0.0 && x >= 0.0
    ensures Square(s + x) >= Square(s) + Square(x)
    ensures Square(s + x) == Square(s) + Square(x) <==> s == 0.0 || x == 0.0
  {
    assert (s + x) * (s + x) == s * s + 2.0 * Times(s, x) + x * x;
    SignOfTimes(s, x);
    SignOfTimes(x, s);
    assert Times(s, x) == Times(x, s);
  }

  lemma {:induction false} SquareOfSum(xs: seq<real>)
    requires NonNegative(xs)
    ensures Square(Sum(xs)) >= SumSquares(xs) >= 0.0
    ensures Square(Sum(xs)) == SumSquares(xs) <==> AtMostOnePositive(xs)
  {
    if xs == [] {
      SignOfTimes(0.0, 0.0);
    } else {
      hide Square;
      var front, x := xs[..|xs| - 1], xs[|xs| - 1];
      SquareOfSum(front);
      SumZeroIff(front);
      CrossTerm(Sum(front), x);
      SquareZeroIff(x);
    }
  }

  /** Jain's fairness index of a list that is not all zero. */
  ghost function Jain(xs: seq<real>): real
    requires xs != [] && SumSquares(xs) > 0.0
  {
    SignOfTimes(|xs| as real, SumSquares(xs));
    Square(Sum(xs)) / Times(|xs| as real, SumSquares(xs))
  }

  /** Jain's index of non-negative values, not all zero: between 1/n and 1, 1 exactly when all are
      equal, and 1/n exactly when one of them has everything. */
  lemma JainBounds(xs: seq<real>)
    requires xs != [] && NonNegative(xs) && SumSquares(xs) > 0.0
    ensures 1.0 / |xs| as real <= Jain(xs) <= 1.0
    ensures Jain(xs) == 1.0 <==> AllEqual(xs)
    ensures Jain(xs) == 1.0 / |xs| as real <==> AtMostOnePositive(xs)
  {
    hide Times, Square, Sum, SumSquares, NonNegative, AllEqual, AtMostOnePositive;
    SpreadZeroIff(xs);
    SquareOfSum(xs);
    Ratio(Square(Sum(xs)), |xs| as real, SumSquares(xs));
  }

  lemma Ratio(square: real, n: real, q: real)
    requires n > 0.0 && q > 0.0 && q <= square <= Times(n, q)
    ensures Times(n, q) > 0.0 && 1.0 / n <= square / Times(n, q) <= 1.0
    ensures square / Times(n, q) == 1.0 <==> square == Times(n, q)
    ensures square / Times(n, q) == 1.0 / n <==> square == q
  {
    var d := Times(n, q);
    SignOfTimes(n, q);
    TimesQuotient(1.0, n);
    assert (1.0 / n) * d == q;
    QuotientOrder(square, d, 1.0);
    QuotientOrder(square, d, 1.0 / n);
  }

  lemma QuotientOrder(x: real, d: real, r: real)
    requires d > 0.0
    ensures x / d <= r <==> x <= r * d
    ensures x / d >= r <==> x >= r * d
  {
    TimesQuotient(x, d);
    Scaled(x / d, r, d);
  }

  lemma Scaled(u: real, v: real, d: real)
    requires d > 0.0
    ensures u <= v <==> d * u <= v * d
    ensures u >= v <==> d * u >= v * d
  {
    assert d * (v - u) == v * d - d * u;
    if v > u { assert d * (v - u) > 0.0; }
    if u > v { assert d * (u - v) > 0.0; }
  }
}
