// Running statistics that never keep the values: one pass within an update, a merge across them.
module ActivationStatistics {
  import opened Results
  import opened Rationals
  import opened RealNumbers

  const MAXIMUM_VALUES_PER_UPDATE := 1_048_576
  const MAXIMUM_COUNT := 0x7FFF_FFFF_FFFF_FFFF

  // A finite number, or anything an update refuses.
  datatype Value = Finite(value: real) | Refused

  datatype UpdateError = NotFinite | TooManyValues | NoValues | CountOverflow

  // ----- batch statistics of a whole sequence -----

  function Square(x: real): real {
    x * x
  }

  // The sum of squared distances from c.
  function Deviation(xs: seq<real>, c: real): real {
    if xs == [] then 0.0 else Deviation(xs[..|xs| - 1], c) + Square(xs[|xs| - 1] - c)
  }

  function Mean(xs: seq<real>): real {
    if xs == [] then 0.0 else Sum(xs) / |xs| as real
  }

  function Lower(a: Option<real>, x: real): Option<real> {
    if a.None? || x < a.value then Some(x) else a
  }

  function Upper(a: Option<real>, x: real): Option<real> {
    if a.None? || x > a.value then Some(x) else a
  }

  function Least(xs: seq<real>): Option<real> {
    if xs == [] then None else Lower(Least(xs[..|xs| - 1]), xs[|xs| - 1])
  }

  function Greatest(xs: seq<real>): Option<real> {
    if xs == [] then None else Upper(Greatest(xs[..|xs| - 1]), xs[|xs| - 1])
  }

  function Abs(x: real): (a: real)
    ensures a >= 0.0 && (a == x || a == -x)
  {
    if x < 0.0 then -x else x
  }

  function GreatestAbs(xs: seq<real>): real {
    if xs == [] then 0.0 else Max(GreatestAbs(xs[..|xs| - 1]), Abs(xs[|xs| - 1]))
  }

  function Zeros(xs: seq<real>): nat {
    if xs == [] then 0 else Zeros(xs[..|xs| - 1]) + (if xs[|xs| - 1] == 0.0 then 1 else 0)
  }

  // The positions that hold zero.
  function ZeroPositions(xs: seq<real>): set<nat> {
    set i: nat | i < |xs| && xs[i] == 0.0
  }

  lemma {:induction false} ZerosCount(xs: seq<real>)
    ensures Zeros(xs) == |ZeroPositions(xs)|
    decreases |xs|
  {
    if xs == [] {
      assert ZeroPositions(xs) == {};
    } else {
      var n: nat := |xs| - 1;
      ZerosCount(xs[..n]);
      assert ZeroPositions(xs) == ZeroPositions(xs[..n]) + (if xs[n] == 0.0 then {n} else {});
    }
  }

  datatype Summary = Summary(
    count: nat,
    mean: real,
    m2: real,
    minimum: Option<real>,
    maximum: Option<real>,
    absoluteMaximum: real,
    zeros: nat)

  // The batch definition every incremental result is compared with.
  function SummaryOf(xs: seq<real>): Summary {
    Summary(|xs|, Mean(xs), Deviation(xs, Mean(xs)), Least(xs), Greatest(xs), GreatestAbs(xs), Zeros(xs))
  }

  lemma {:induction false} LeastIsAttained(xs: seq<real>)
    requires xs != []
    ensures Least(xs).Some? && Least(xs).value in xs && forall i :: 0 <= i < |xs| ==> Least(xs).value <= xs[i]
    decreases |xs|
  {
    var n := |xs| - 1;
    var front, last := xs[..n], xs[n];
    assert xs == front + [last] && Least(xs) == Lower(Least(front), last);
    if n > 0 {
      LeastIsAttained(front);
    } else {
      assert Least(front) == None;
    }
    hide Least;
    assert last in xs && forall x :: x in front ==> x in xs;
  }

  lemma {:induction false} GreatestIsAttained(xs: seq<real>)
    requires xs != []
    ensures Greatest(xs).Some? && Greatest(xs).value in xs && forall i :: 0 <= i < |xs| ==> xs[i] <= Greatest(xs).value
    decreases |xs|
  {
    var n := |xs| - 1;
    var front, last := xs[..n], xs[n];
    assert xs == front + [last] && Greatest(xs) == Upper(Greatest(front), last);
    if n > 0 {
      GreatestIsAttained(front);
    } else {
      assert Greatest(front) == None;
    }
    hide Greatest;
    assert last in xs && forall x :: x in front ==> x in xs;
  }

  lemma {:induction false} GreatestAbsIsAttained(xs: seq<real>)
    requires xs != []
    ensures forall i :: 0 <= i < |xs| ==> Abs(xs[i]) <= GreatestAbs(xs)
    ensures exists i :: 0 <= i < |xs| && GreatestAbs(xs) == Abs(xs[i])
    decreases |xs|
  {
    var n := |xs| - 1;
    var front, last := xs[..n], xs[n];
    assert GreatestAbs(xs) == Max(GreatestAbs(front), Abs(last));
    if n > 0 {
      GreatestAbsIsAttained(front);
      hide *;
      assert forall i :: 0 <= i < n ==> front[i] == xs[i];
      var i :| 0 <= i < n && GreatestAbs(front) == Abs(front[i]);
      assert GreatestAbs(xs) in {Abs(xs[i]), Abs(xs[n])};
    } else {
      assert GreatestAbs(front) == 0.0;
      hide *;
      assert GreatestAbs(xs) == Abs(xs[0]);
    }
  }

  // The batch extrema bound every value and are values themselves.
  lemma ExtremaAreAttained(xs: seq<real>)
    requires xs != []
    ensures Least(xs).Some? && Least(xs).value in xs && forall i :: 0 <= i < |xs| ==> Least(xs).value <= xs[i]
    ensures Greatest(xs).Some? && Greatest(xs).value in xs && forall i :: 0 <= i < |xs| ==> xs[i] <= Greatest(xs).value
    ensures forall i :: 0 <= i < |xs| ==> Abs(xs[i]) <= GreatestAbs(xs)
    ensures exists i :: 0 <= i < |xs| && GreatestAbs(xs) == Abs(xs[i])
  {
    LeastIsAttained(xs);
    GreatestIsAttained(xs);
    GreatestAbsIsAttained(xs);
    hide *;
  }

  // ----- exact real arithmetic -----

  lemma SquareSum(a: real, b: real)
    ensures Square(a + b) == Square(a) + 2.0 * a * b + Square(b)
  {
  }

  lemma SquareProduct(a: real, b: real)
    ensures Square(a * b) == Square(a) * Square(b)
  {
    assert (a * b) * (a * b) == a * (b * (a * b));
    assert b * (a * b) == (b * b) * a;
    assert a * ((b * b) * a) == (a * a) * (b * b);
  }

  // What the sum of squared distances gains when the centre of n values with sum s moves by g.
  function ShiftTerm(g: real, s: real, n: real, d: real): real {
    2.0 * g * (s - n * d) + n * Square(g)
  }

  lemma ShiftStep(c: real, d: real, s: real, n: real, x: real)
    ensures Square(x - c) + ShiftTerm(d - c, s, n, d) == Square(x - d) + ShiftTerm(d - c, s + x, n + 1.0, d)
  {
    var g := d - c;
    SquareSum(x - d, g);
    assert x - c == (x - d) + g;
    ShiftArithmetic(g, s, x, n, d, Square(g));
  }

  lemma ShiftAtMean(g: real, s: real, n: real, d: real)
    requires n * d == s
    ensures ShiftTerm(g, s, n, d) == n * Square(g)
  {
  }

  // Moving the centre from d to c.
  lemma {:induction false} DeviationShift(xs: seq<real>, c: real, d: real)
    ensures Deviation(xs, c) == Deviation(xs, d) + ShiftTerm(d - c, Sum(xs), |xs| as real, d)
  {
    if xs != [] {
      hide Square, ShiftTerm;
      DeviationShift(xs[..|xs| - 1], c, d);
      ShiftStep(c, d, Sum(xs[..|xs| - 1]), (|xs| - 1) as real, xs[|xs| - 1]);
    }
  }

  lemma ShiftArithmetic(g: real, s: real, x: real, n: real, d: real, q: real)
    ensures 2.0 * g * (s - n * d) + n * q + 2.0 * (x - d) * g + q
      == 2.0 * g * (s + x - (n + 1.0) * d) + (n + 1.0) * q
  {
    assert (n + 1.0) * d == n * d + d;
    assert (n + 1.0) * q == n * q + q;
    assert 2.0 * g * (s + x - (n * d + d)) == 2.0 * g * (s - n * d) + 2.0 * g * (x - d);
    assert 2.0 * (x - d) * g == 2.0 * g * (x - d);
  }

  lemma MeanTimesCount(xs: seq<real>)
    ensures |xs| as real * Mean(xs) == Sum(xs)
  {
    if xs != [] {
      Quotient(Sum(xs), |xs| as real);
    }
  }

  // Around the mean only the square of the shift remains.
  lemma DeviationAroundMean(xs: seq<real>, c: real)
    ensures Deviation(xs, c) == Deviation(xs, Mean(xs)) + |xs| as real * Square(Mean(xs) - c)
  {
    hide Square, ShiftTerm, Deviation, Mean;
    DeviationShift(xs, c, Mean(xs));
    MeanTimesCount(xs);
    ShiftAtMean(Mean(xs) - c, Sum(xs), |xs| as real, Mean(xs));
  }

  lemma {:induction false} SumConcat(xs: seq<real>, ys: seq<real>)
    ensures Sum(xs + ys) == Sum(xs) + Sum(ys)
  {
    if ys == [] {
      assert xs + ys == xs;
    } else {
      SumConcat(xs, ys[..|ys| - 1]);
      assert (xs + ys)[..|xs + ys| - 1] == xs + ys[..|ys| - 1];
    }
  }

  lemma {:induction false} DeviationConcat(xs: seq<real>, ys: seq<real>, c: real)
    ensures Deviation(xs + ys, c) == Deviation(xs, c) + Deviation(ys, c)
  {
    if ys == [] {
      assert xs + ys == xs;
    } else {
      DeviationConcat(xs, ys[..|ys| - 1], c);
      assert (xs + ys)[..|xs + ys| - 1] == xs + ys[..|ys| - 1];
    }
  }

  function MergeLeast(a: Option<real>, b: Option<real>): Option<real> {
    if a.None? then b else if b.None? then a else if b.value < a.value then b else a
  }

  function MergeGreatest(a: Option<real>, b: Option<real>): Option<real> {
    if a.None? then b else if b.None? then a else if b.value > a.value then b else a
  }

  lemma {:induction false} ExtremaConcat(xs: seq<real>, ys: seq<real>)
    ensures Least(xs + ys) == MergeLeast(Least(xs), Least(ys))
    ensures Greatest(xs + ys) == MergeGreatest(Greatest(xs), Greatest(ys))
    ensures GreatestAbs(xs + ys) == Max(GreatestAbs(xs), GreatestAbs(ys))
    ensures Zeros(xs + ys) == Zeros(xs) + Zeros(ys)
  {
    if ys == [] {
      assert xs + ys == xs;
      GreatestAbsNonNegative(xs);
    } else {
      ExtremaConcat(xs, ys[..|ys| - 1]);
      assert (xs + ys)[..|xs + ys| - 1] == xs + ys[..|ys| - 1];
    }
  }

  lemma {:induction false} GreatestAbsNonNegative(xs: seq<real>)
    ensures GreatestAbs(xs) >= 0.0
  {
    if xs != [] {
      GreatestAbsNonNegative(xs[..|xs| - 1]);
    }
  }

  // ----- the two incremental formulas -----

  // With k values counted including x, the mean moves by delta / k.
  lemma MeanStep(xs: seq<real>, x: real)
    ensures Mean(xs + [x]) == Mean(xs) + (x - Mean(xs)) / (|xs| + 1) as real
  {
    var n, mean := |xs| as real, Mean(xs);
    MeanTimesCount(xs);
    SumConcat(xs, [x]);
    assert Sum([x]) == x;
    var k := n + 1.0;
    Quotient(x - mean, k);
    Quotient(Sum(xs + [x]), k);
    var step := (x - mean) / k;
    assert k * (mean + step) == k * mean + k * step;
    assert k * mean == n * mean + mean;
    SameFactor(k, mean + step, Mean(xs + [x]));
  }

  lemma SameFactor(k: real, a: real, b: real)
    requires k != 0.0 && k * a == k * b
    ensures a == b
  {
    assert a == k * a / k && b == k * b / k;
  }

  // Welford's step: the deviation grows by delta times the distance from the new mean.
  lemma WelfordStep(xs: seq<real>, x: real)
    ensures Deviation(xs + [x], Mean(xs + [x]))
      == Deviation(xs, Mean(xs)) + (x - Mean(xs)) * (x - Mean(xs + [x]))
  {
    var mean, moved := Mean(xs), Mean(xs + [x]);
    OneDeviation(x, moved);
    hide Square, Deviation, Mean;
    MeanStep(xs, x);
    DeviationAroundMean(xs, moved);
    DeviationConcat(xs, [x], moved);
    WelfordArithmetic(|xs| as real, mean, moved, x);
  }

  lemma OneDeviation(x: real, c: real)
    ensures Deviation([x], c) == Square(x - c)
  {
    assert [x][..0] == [];
  }

  // The deviation of one value is its squared distance; DeviationConcat adds the others.
  lemma SquaredDistance(x: real, c: real)
    ensures Deviation([x], c) == (x - c) * (x - c)
  {
    OneDeviation(x, c);
  }

  lemma WelfordArithmetic(n: real, mean: real, moved: real, x: real)
    requires n >= 0.0 && moved == mean + (x - mean) / (n + 1.0)
    ensures n * Square(mean - moved) + Square(x - moved) == (x - mean) * (x - moved)
  {
    var e := (x - mean) / (n + 1.0);
    Quotient(x - mean, n + 1.0);
    assert (n + 1.0) * e == n * e + e;
    assert mean - moved == -e && x - moved == n * e && x - mean == n * e + e;
    assert Square(-e) == Square(e);
    SquareProduct(n, e);
    assert (n * e + e) * (n * e) == (n * e) * (n * e) + e * (n * e);
    assert e * (n * e) == n * Square(e);
  }

  // The pairwise merge of means.
  lemma MergeMeans(xs: seq<real>, ys: seq<real>)
    requires ys != []
    ensures Mean(xs + ys) == Mean(xs) + (Mean(ys) - Mean(xs)) * |ys| as real / (|xs| + |ys|) as real
  {
    var a, b, ma, mb := |xs| as real, |ys| as real, Mean(xs), Mean(ys);
    var k := a + b;
    MeanTimesCount(xs);
    MeanTimesCount(ys);
    SumConcat(xs, ys);
    assert |xs + ys| == |xs| + |ys|;
    assert |xs + ys| as real == k;
    MeanTimesCount(xs + ys);
    var step := (mb - ma) * b / k;
    Quotient((mb - ma) * b, k);
    assert k * (ma + step) == k * ma + k * step;
    assert k * ma == a * ma + b * ma;
    assert (mb - ma) * b == b * mb - b * ma;
    SameFactor(k, ma + step, Mean(xs + ys));
  }

  // The pairwise merge of deviations.
  lemma MergeDeviations(xs: seq<real>, ys: seq<real>)
    requires ys != []
    ensures
      var delta := Mean(ys) - Mean(xs);
      Deviation(xs + ys, Mean(xs + ys)) == Deviation(xs, Mean(xs)) + Deviation(ys, Mean(ys))
        + delta * delta * |xs| as real * |ys| as real / (|xs| + |ys|) as real
  {
    hide Square, Deviation, Mean;
    var m := Mean(xs + ys);
    MergeMeans(xs, ys);
    DeviationConcat(xs, ys, m);
    DeviationAroundMean(xs, m);
    DeviationAroundMean(ys, m);
    MergedDistances(|xs| as real, |ys| as real, Mean(xs), Mean(ys), m);
  }

  lemma MergedDistances(a: real, b: real, ma: real, mb: real, m: real)
    requires a + b != 0.0 && m == ma + (mb - ma) * b / (a + b)
    ensures a * Square(ma - m) + b * Square(mb - m) == (mb - ma) * (mb - ma) * a * b / (a + b)
  {
    var delta := mb - ma;
    var e := delta / (a + b);
    Quotient(delta, a + b);
    MergeShift(a, b, delta, e);
    assert ma - m == -(b * e) && mb - m == a * e;
    assert Square(-(b * e)) == Square(b * e);
    hide Square;
    MergeArithmetic(a, b, delta, e);
  }

  lemma MergeShift(a: real, b: real, delta: real, e: real)
    requires a + b != 0.0 && (a + b) * e == delta
    ensures delta * b / (a + b) == b * e && delta - b * e == a * e
  {
    var k := a + b;
    assert delta * b == k * (b * e);
    Quotient(delta * b, k);
    SameFactor(k, delta * b / k, b * e);
    assert k * e == a * e + b * e;
  }

  lemma MergePolynomial(a: real, b: real, e: real)
    ensures (a + b) * (a * Square(b * e) + b * Square(a * e)) == ((a + b) * e) * ((a + b) * e) * a * b
  {
  }

  lemma MergeArithmetic(a: real, b: real, delta: real, e: real)
    requires a + b != 0.0 && delta == (a + b) * e
    ensures a * Square(b * e) + b * Square(a * e) == delta * delta * a * b / (a + b)
  {
    MergePolynomial(a, b, e);
    hide Square;
    var left, right := a * Square(b * e) + b * Square(a * e), delta * delta * a * b;
    assert (a + b) * left == right;
    QuotientIs(right, a + b, left);
  }

  lemma QuotientIs(a: real, k: real, q: real)
    requires k != 0.0 && k * q == a
    ensures q == a / k
  {
  }

  // ----- the accumulator -----

  function Reals(values: seq<Value>): (xs: seq<real>)
    requires AllFinite(values)
    ensures |xs| == |values| && forall i :: 0 <= i < |values| ==> xs[i] == values[i].value
  {
    if values == [] then [] else Reals(values[..|values| - 1]) + [values[|values| - 1].value]
  }

  predicate AllFinite(values: seq<Value>) {
    forall i :: 0 <= i < |values| ==> values[i].Finite?
  }

  lemma EmptyPrefix(values: seq<Value>)
    ensures AllFinite(values[..0]) && Reals(values[..0]) == []
  {
    assert values[..0] == [];
  }

  lemma PrefixGrows(values: seq<Value>, i: nat)
    requires i < |values| && AllFinite(values[..i])
    ensures AllFinite(values[..i + 1]) <==> values[i].Finite?
    ensures AllFinite(values[..i + 1]) ==> Reals(values[..i + 1]) == Reals(values[..i]) + [values[i].value]
  {
    var longer, shorter := values[..i + 1], values[..i];
    assert longer[..i] == shorter && longer[i] == values[i];
    forall j | 0 <= j < i ensures longer[j].Finite? {
      assert shorter[j] == longer[j];
    }
  }

  lemma NothingSeen()
    ensures SummaryOf([]) == Summary(0, 0.0, 0.0, None, None, 0.0, 0)
  {
  }

  lemma PrefixFinite(values: seq<Value>, i: nat)
    requires i <= |values| && AllFinite(values[..i])
    ensures forall j :: 0 <= j < i ==> values[j].Finite?
  {
    forall j | 0 <= j < i ensures values[j].Finite? {
      assert values[..i][j] == values[j];
    }
  }

  // The values of a batch, as accumulated by the loop of one update.
  method Accumulate(values: seq<Value>) returns (r: Result<Summary, UpdateError>)
    ensures r == Err(NotFinite) <==> exists i :: 0 <= i < |values| && i <= 1_048_576 && values[i].Refused?
    ensures r == Err(TooManyValues) <==> |values| > 1_048_576 && forall i :: 0 <= i <= 1_048_576 ==> values[i].Finite?
    ensures r.Err? ==> r.error.NotFinite? || r.error.TooManyValues?
    ensures r.Ok? ==> AllFinite(values) && r.value == SummaryOf(Reals(values))
  {
    var count, mean, m2, least, greatest, absolute, zeros := 0, 0.0, 0.0, None, None, 0.0, 0;
    ghost var seen: seq<real> := [];
    hide SummaryOf, NextMean, NextDeviation, Lower, Upper, Max, Abs, AllFinite, Reals;
    hide Mean, Deviation, Least, Greatest, GreatestAbs, Zeros;
    NothingSeen();
    EmptyPrefix(values);
    for i := 0 to |values|
      invariant count == i == |seen| <= MAXIMUM_VALUES_PER_UPDATE
      invariant AllFinite(values[..i]) && seen == Reals(values[..i])
      invariant Summary(count, mean, m2, least, greatest, absolute, zeros) == SummaryOf(seen)
    {
      PrefixGrows(values, i);
      if values[i].Refused? {
        return Err(NotFinite);
      }
      count := count + 1;
      if count > MAXIMUM_VALUES_PER_UPDATE {
        PrefixFinite(values, i + 1);
        return Err(TooManyValues);
      }
      var number := values[i].value;
      PushIsAppend(seen, number);
      var moved := NextMean(mean, number, count);
      m2 := NextDeviation(m2, number - mean, number - moved);
      mean := moved;
      least, greatest := Lower(least, number), Upper(greatest, number);
      absolute := Max(absolute, Abs(number));
      zeros := zeros + (if number == 0.0 then 1 else 0);
      seen := seen + [number];
    }
    assert values[..|values|] == values;
    PrefixFinite(values, |values|);
    r := Ok(Summary(count, mean, m2, least, greatest, absolute, zeros));
  }

  function NextMean(mean: real, x: real, count: nat): real
    requires count > 0
  {
    mean + (x - mean) / count as real
  }

  function NextDeviation(m2: real, delta: real, remaining: real): real {
    m2 + delta * remaining
  }

  // One more value, by Welford's formulas.
  function Push(s: Summary, x: real): Summary {
    var moved := NextMean(s.mean, x, s.count + 1);
    Summary(s.count + 1, moved, NextDeviation(s.m2, x - s.mean, x - moved), Lower(s.minimum, x), Upper(s.maximum, x),
            Max(s.absoluteMaximum, Abs(x)), s.zeros + (if x == 0.0 then 1 else 0))
  }

  // The incremental step gives the batch summary of one more value.
  lemma PushIsAppend(xs: seq<real>, x: real)
    ensures Push(SummaryOf(xs), x) == SummaryOf(xs + [x])
  {
    MeanIsNext(xs, x);
    DeviationIsNext(xs, x);
    assert (xs + [x])[..|xs|] == xs;
    hide Mean, Deviation, NextMean, NextDeviation;
  }

  lemma MeanIsNext(xs: seq<real>, x: real)
    ensures Mean(xs + [x]) == NextMean(Mean(xs), x, |xs| + 1)
  {
    hide Mean;
    MeanStep(xs, x);
  }

  lemma DeviationIsNext(xs: seq<real>, x: real)
    ensures Deviation(xs + [x], Mean(xs + [x]))
      == NextDeviation(Deviation(xs, Mean(xs)), x - Mean(xs), x - Mean(xs + [x]))
  {
    hide Mean, Deviation;
    WelfordStep(xs, x);
  }

  function MergedMean(a: nat, meanA: real, b: nat, meanB: real): real
    requires a + b > 0
  {
    meanA + (meanB - meanA) * b as real / (a + b) as real
  }

  function MergedDeviation(a: nat, m2A: real, b: nat, m2B: real, delta: real): real
    requires a + b > 0
  {
    m2A + (m2B + delta * delta * a as real * b as real / (a + b) as real)
  }

  // The merge of two summaries, as the locked part of an update computes it.
  function Merge(a: Summary, b: Summary): Summary {
    if a.count + b.count == 0 then a else
      Summary(
        a.count + b.count,
        if a.count > 0 then MergedMean(a.count, a.mean, b.count, b.mean) else b.mean,
        if a.count > 0 then MergedDeviation(a.count, a.m2, b.count, b.m2, b.mean - a.mean) else b.m2,
        MergeLeast(a.minimum, b.minimum),
        MergeGreatest(a.maximum, b.maximum),
        Max(a.absoluteMaximum, b.absoluteMaximum),
        a.zeros + b.zeros)
  }

  lemma MeanIsMerged(xs: seq<real>, ys: seq<real>)
    requires ys != []
    ensures Mean(xs + ys) == MergedMean(|xs|, Mean(xs), |ys|, Mean(ys))
  {
    hide Mean;
    MergeMeans(xs, ys);
  }

  lemma DeviationIsMerged(xs: seq<real>, ys: seq<real>)
    requires ys != []
    ensures Deviation(xs + ys, Mean(xs + ys))
      == MergedDeviation(|xs|, Deviation(xs, Mean(xs)), |ys|, Deviation(ys, Mean(ys)), Mean(ys) - Mean(xs))
  {
    hide Mean, Deviation;
    MergeDeviations(xs, ys);
  }

  // Merging the summaries of two non-empty parts gives the summary of the whole.
  lemma MergeIsConcat(xs: seq<real>, ys: seq<real>)
    requires ys != []
    ensures Merge(SummaryOf(xs), SummaryOf(ys)) == SummaryOf(xs + ys)
  {
    hide Mean, Deviation, MergedMean, MergedDeviation, Zeros, GreatestAbs, Least, Greatest;
    MeanIsMerged(xs, ys);
    DeviationIsMerged(xs, ys);
    ExtremaConcat(xs, ys);
    if xs == [] {
      assert xs + ys == ys;
    }
  }

  // A stream cut into non-empty updates, merged from left to right.
  function MergeAll(start: Summary, parts: seq<seq<real>>): Summary
    decreases |parts|
  {
    if parts == [] then start else MergeAll(Merge(start, SummaryOf(parts[0])), parts[1..])
  }

  function Concat(parts: seq<seq<real>>): seq<real> {
    if parts == [] then [] else parts[0] + Concat(parts[1..])
  }

  lemma {:induction false} MergeAllIsBatch(seen: seq<real>, parts: seq<seq<real>>)
    requires forall i :: 0 <= i < |parts| ==> parts[i] != []
    ensures MergeAll(SummaryOf(seen), parts) == SummaryOf(seen + Concat(parts))
    decreases |parts|
  {
    if parts == [] {
      assert seen + [] == seen;
    } else {
      hide SummaryOf, Merge;
      MergeIsConcat(seen, parts[0]);
      MergeAllIsBatch(seen + parts[0], parts[1..]);
      assert seen + Concat(parts) == seen + parts[0] + Concat(parts[1..]);
    }
  }

  // However a stream is cut into updates, the accumulated statistics are the same.
  lemma SplitDoesNotMatter(a: seq<seq<real>>, b: seq<seq<real>>)
    requires forall i :: 0 <= i < |a| ==> a[i] != []
    requires forall i :: 0 <= i < |b| ==> b[i] != []
    requires Concat(a) == Concat(b)
    ensures MergeAll(SummaryOf([]), a) == MergeAll(SummaryOf([]), b)
  {
    hide SummaryOf;
    MergeAllIsBatch([], a);
    MergeAllIsBatch([], b);
  }

  datatype Snapshot = Empty | Snapshot(count: nat, mean: real, variance: real, minimum: real, maximum: real, absoluteMaximum: real, zeros: nat)

  class OnlineActivationStatistics {
    var count: nat
    var mean: real
    var m2: real
    var minimum: Option<real>
    var maximum: Option<real>
    var absoluteMaximum: real
    var zeros: nat
    // All values of the successful updates, in order.
    ghost var Seen: seq<real>

    ghost function View(): Summary
      reads this
    {
      Summary(count, mean, m2, minimum, maximum, absoluteMaximum, zeros)
    }

    ghost predicate Valid()
      reads this
    {
      View() == SummaryOf(Seen) && count <= MAXIMUM_COUNT
    }

    constructor ()
      ensures Valid() && Seen == []
    {
      count, mean, m2, minimum, maximum, absoluteMaximum, zeros := 0, 0.0, 0.0, None, None, 0.0, 0;
      Seen := [];
    }

    // The locked part of an update.
    method Absorb(local: Summary, ghost values: seq<real>)
      requires Valid() && local == SummaryOf(values) && values != [] && count + local.count <= MAXIMUM_COUNT
      modifies this
      ensures Valid() && Seen == old(Seen) + values
    {
      MergeIsConcat(Seen, values);
      hide MergedMean, MergedDeviation, SummaryOf, MergeLeast, MergeGreatest, Max;
      if count > 0 {
        m2 := MergedDeviation(count, m2, local.count, local.m2, local.mean - mean);
        mean := MergedMean(count, mean, local.count, local.mean);
      } else {
        mean, m2 := local.mean, local.m2;
      }
      count := count + local.count;
      zeros := zeros + local.zeros;
      minimum, maximum := MergeLeast(minimum, local.minimum), MergeGreatest(maximum, local.maximum);
      absoluteMaximum := Max(absoluteMaximum, local.absoluteMaximum);
      Seen := Seen + values;
    }

    method Update(values: seq<Value>) returns (r: Result<nat, UpdateError>)
      requires Valid()
      modifies this
      ensures Valid()
      // The first offending value counts, be it refused or one too many.
      ensures r == Err(NotFinite) <==> exists i :: 0 <= i < |values| && i <= 1_048_576 && values[i].Refused?
      ensures r == Err(TooManyValues) <==> |values| > 1_048_576 && forall i :: 0 <= i <= 1_048_576 ==> values[i].Finite?
      ensures r == Err(NoValues) <==> values == []
      ensures r == Err(CountOverflow) <==>
        1 <= |values| <= 1_048_576 && AllFinite(values) && old(count) + |values| > 0x7FFF_FFFF_FFFF_FFFF
      ensures r.Err? ==> unchanged(this)
      ensures r.Ok? ==> AllFinite(values) && r.value == |values| && Seen == old(Seen) + Reals(values)
    {
      hide Reals, Mean, Deviation, Least, Greatest, GreatestAbs, Zeros;
      var batch := Accumulate(values);
      if batch.Err? {
        return Err(batch.error);
      }
      var local := batch.value;
      if local.count == 0 {
        return Err(NoValues);
      }
      if count + local.count > MAXIMUM_COUNT {
        return Err(CountOverflow);
      }
      Absorb(local, Reals(values));
      r := Ok(local.count);
    }

    method TakeSnapshot() returns (s: Snapshot)
      requires Valid()
      ensures s.Empty? <==> Seen == []
      ensures s.Snapshot? ==> Describes(s, Seen)
    {
      if count == 0 {
        return Empty;
      }
      ExtremaAreAttained(Seen);
      hide Describes, Variance, Mean, Deviation;
      s := Snapshot(count, mean, Variance(m2, count), minimum.value, maximum.value, absoluteMaximum, zeros);
      SnapshotDescribes(s, Seen);
    }
  }

  // The published numbers, said without the accumulator.
  ghost predicate Describes(s: Snapshot, xs: seq<real>)
    requires s.Snapshot?
  {
    DescribesMoments(s, xs) && DescribesExtrema(s, xs) && s.zeros == |ZeroPositions(xs)|
  }

  ghost predicate DescribesMoments(s: Snapshot, xs: seq<real>)
    requires s.Snapshot?
  {
    && s.count == |xs|
    && s.count as real * s.mean == Sum(xs)
    && s.count as real * s.variance == Deviation(xs, s.mean)
  }

  ghost predicate DescribesExtrema(s: Snapshot, xs: seq<real>)
    requires s.Snapshot?
  {
    && s.minimum in xs && s.maximum in xs
    && (forall i :: 0 <= i < |xs| ==> s.minimum <= xs[i] <= s.maximum && Abs(xs[i]) <= s.absoluteMaximum)
    && (exists i :: 0 <= i < |xs| && s.absoluteMaximum == Abs(xs[i]))
  }

  lemma SnapshotDescribes(s: Snapshot, xs: seq<real>)
    requires s.Snapshot? && xs != [] && Least(xs).Some? && Greatest(xs).Some?
    requires s == Snapshot(|xs|, Mean(xs), Variance(Deviation(xs, Mean(xs)), |xs|), Least(xs).value, Greatest(xs).value, GreatestAbs(xs), Zeros(xs))
    ensures Describes(s, xs)
  {
    hide *;
    ZerosCount(xs);
    MomentsDescribed(s, xs);
    ExtremaDescribed(s, xs);
    assert Describes(s, xs) <==> DescribesMoments(s, xs) && DescribesExtrema(s, xs) && s.zeros == |ZeroPositions(xs)| by {
      DescribesMeaning(s, xs);
    }
  }

  lemma DescribesMeaning(s: Snapshot, xs: seq<real>)
    requires s.Snapshot?
    ensures Describes(s, xs) <==> DescribesMoments(s, xs) && DescribesExtrema(s, xs) && s.zeros == |ZeroPositions(xs)|
  {
    hide DescribesMoments, DescribesExtrema, ZeroPositions;
  }

  lemma MomentsDescribed(s: Snapshot, xs: seq<real>)
    requires s.Snapshot? && xs != [] && s.count == |xs|
    requires s.mean == Mean(xs) && s.variance == Variance(Deviation(xs, Mean(xs)), |xs|)
    ensures DescribesMoments(s, xs)
  {
    MeanTimesCount(xs);
    hide Sum, Deviation, Mean, Variance;
  }

  lemma ExtremaDescribed(s: Snapshot, xs: seq<real>)
    requires s.Snapshot? && xs != [] && Least(xs).Some? && Greatest(xs).Some?
    requires s.minimum == Least(xs).value && s.maximum == Greatest(xs).value && s.absoluteMaximum == GreatestAbs(xs)
    ensures DescribesExtrema(s, xs)
  {
    ExtremaAreAttained(xs);
    hide Least, Greatest, GreatestAbs, Abs;
  }

  function Variance(m2: real, count: nat): (variance: real)
    requires count > 0
    ensures count as real * variance == m2
  {
    Quotient(m2, count as real);
    m2 / count as real
  }
}
