// The direction of resident memory over the samples of the latest process, in exact arithmetic.
module RssTrend {
  import opened Results
  import opened Rationals

  const MIB := 1024 * 1024

  // A field is None when it is missing, of the wrong type, or not finite.
  datatype Sample = Sample(pid: Option<int>, elapsed: Option<real>, rss: Option<int>)

  datatype Trend =
    | InvalidEpoch(samples: nat, pid: Option<int>, epoch: nat)
    | TooFew(samples: nat, pid: Option<int>, epoch: nat)
    | Summary(samples: nat, pid: Option<int>, epoch: nat, recent: nat, slopePerHour: real, growth: int, plateau: bool)

  function LatestPid(samples: seq<Sample>): Option<int> {
    if samples == [] then None else samples[|samples| - 1].pid
  }

  // Every sample of the process as often as it was listed, and nothing else.
  ghost predicate IsSelection(epoch: seq<Sample>, samples: seq<Sample>, pid: Option<int>) {
    forall s: Sample :: multiset(epoch)[s] == if s.pid == pid then multiset(samples)[s] else 0
  }

  function OfPid(samples: seq<Sample>, pid: Option<int>): (epoch: seq<Sample>)
    ensures IsSelection(epoch, samples, pid)
    ensures samples != [] && pid == LatestPid(samples) ==> epoch != [] && epoch[|epoch| - 1] == samples[|samples| - 1]
  {
    if samples == [] then []
    else
      var n := |samples| - 1;
      assert samples == samples[..n] + [samples[n]];
      OfPid(samples[..n], pid) + (if samples[n].pid == pid then [samples[n]] else [])
  }

  lemma OfPidSnoc(front: seq<Sample>, s: Sample, pid: Option<int>)
    ensures OfPid(front + [s], pid) == if s.pid == pid then OfPid(front, pid) + [s] else OfPid(front, pid)
  {
    assert (front + [s])[..|front|] == front;
  }

  lemma Associative<T>(x: seq<T>, y: seq<T>, z: seq<T>)
    ensures x + (y + z) == x + y + z && x + [] == x
  {
  }

  // Selection by process keeps the listing order: it distributes over concatenation.
  lemma {:induction false} OfPidKeepsOrder(a: seq<Sample>, b: seq<Sample>, pid: Option<int>)
    ensures OfPid(a + b, pid) == OfPid(a, pid) + OfPid(b, pid)
    decreases |b|
  {
    hide IsSelection;
    if b == [] {
      Associative(a, [], []);
      Associative(OfPid(a, pid), [], []);
      assert OfPid([], pid) == [];
      hide OfPid;
    } else {
      hide OfPid;
      var front, s := b[..|b| - 1], b[|b| - 1];
      assert b == front + [s];
      Associative(a, front, [s]);
      OfPidKeepsOrder(a, front, pid);
      OfPidSnoc(a + front, s, pid);
      OfPidSnoc(front, s, pid);
      Associative(OfPid(a, pid), OfPid(front, pid), [s]);
    }
  }

  predicate Plausible(s: Sample) {
    s.elapsed.Some? && s.elapsed.value >= 0.0 && s.rss.Some? && s.rss.value >= 0
  }

  // Every sample is plausible and elapsed time is strictly increasing.
  ghost predicate Valid(epoch: seq<Sample>) {
    && (forall i :: 0 <= i < |epoch| ==>
         && epoch[i].elapsed.Some? && epoch[i].elapsed.value >= 0.0
         && epoch[i].rss.Some? && epoch[i].rss.value >= 0)
    && (forall i, j :: 0 <= i < j < |epoch| ==> epoch[i].elapsed.value < epoch[j].elapsed.value)
  }

  // ----- sums over points -----

  datatype Point = Point(x: real, y: real)

  function Times(a: real, b: real): real {
    a * b
  }

  function SumX(p: seq<Point>): real {
    if p == [] then 0.0 else SumX(p[..|p| - 1]) + p[|p| - 1].x
  }

  function SumY(p: seq<Point>): real {
    if p == [] then 0.0 else SumY(p[..|p| - 1]) + p[|p| - 1].y
  }

  function Spread(p: seq<Point>, mx: real): real {
    if p == [] then 0.0
    else
      var d := p[|p| - 1].x - mx;
      Spread(p[..|p| - 1], mx) + Times(d, d)
  }

  function Covariation(p: seq<Point>, mx: real, my: real): real {
    if p == [] then 0.0
    else Covariation(p[..|p| - 1], mx, my) + Times(p[|p| - 1].x - mx, p[|p| - 1].y - my)
  }

  function Distance(p: Point, m: real, c: real): real {
    p.y - c - m * p.x
  }

  // The sum of squared distances of the points from the line of slope m through (0, c).
  function Residual(p: seq<Point>, m: real, c: real): real {
    if p == [] then 0.0
    else
      var d := Distance(p[|p| - 1], m, c);
      Residual(p[..|p| - 1], m, c) + Times(d, d)
  }

  function MeanX(p: seq<Point>): real
    requires p != []
  {
    SumX(p) / |p| as real
  }

  function MeanY(p: seq<Point>): real
    requires p != []
  {
    SumY(p) / |p| as real
  }

  // The fallback for a zero denominator is the code's; SpreadIsPositive shows when it is not taken.
  function Slope(p: seq<Point>): real
    requires p != []
  {
    var d := Spread(p, MeanX(p));
    if d > 0.0 then Covariation(p, MeanX(p), MeanY(p)) / d else 0.0
  }

  // ----- the denominator -----

  lemma SameSigns(a: real, b: real)
    ensures (a > 0.0 && b > 0.0) || (a < 0.0 && b < 0.0) ==> Times(a, b) > 0.0
    ensures a == 0.0 ==> Times(a, b) == 0.0
  {
    if a > 0.0 && b > 0.0 {
      assert a * b > 0.0;
    } else if a < 0.0 && b < 0.0 {
      assert a * b > 0.0;
    }
  }

  lemma Square(a: real)
    ensures Times(a, a) >= 0.0 && (Times(a, a) == 0.0 <==> a == 0.0)
  {
    hide Times;
    SameSigns(a, a);
  }

  lemma {:induction false} SpreadZeroIff(p: seq<Point>, mx: real)
    ensures Spread(p, mx) >= 0.0
    ensures Spread(p, mx) == 0.0 <==> forall i :: 0 <= i < |p| ==> p[i].x == mx
    decreases |p|
  {
    if p != [] {
      var n := |p| - 1;
      SpreadZeroIff(p[..n], mx);
      Square(p[n].x - mx);
      hide Times;
      assert Spread(p, mx) == 0.0 <==> Spread(p[..n], mx) == 0.0 && p[n].x == mx;
      if Spread(p, mx) == 0.0 {
        assert forall i :: 0 <= i < n ==> p[i] == p[..n][i];
      } else if p[n].x == mx {
        var i :| 0 <= i < n && p[..n][i].x != mx;
        assert p[i].x != mx;
      }
    }
  }

  // ----- the fit -----

  function Height(p: seq<Point>, my: real): real {
    if p == [] then 0.0
    else
      var d := p[|p| - 1].y - my;
      Height(p[..|p| - 1], my) + Times(d, d)
  }

  function Expanded(n: real, h: real, cov: real, d: real, sx: real, sy: real, mx: real, my: real, m: real, b: real): real {
    h - 2.0 * b * (sy - n * my) - 2.0 * m * cov + n * (b * b) + 2.0 * m * b * (sx - n * mx) + m * m * d
  }

  // One more point (u, v), measured from the means, adds the square of v - b - m*u.
  lemma ExpandedStep(n: real, h: real, cov: real, d: real, sx: real, sy: real, mx: real, my: real, m: real, b: real, u: real, v: real)
    ensures Expanded(n + 1.0, h + Times(v, v), cov + Times(u, v), d + Times(u, u), sx + mx + u, sy + my + v, mx, my, m, b)
      == Expanded(n, h, cov, d, sx, sy, mx, my, m, b) + Times(v - b - Times(m, u), v - b - Times(m, u))
  {
    var w := m * u;
    assert (v - b - w) * (v - b - w) == v * v + b * b + w * w - 2.0 * b * v - 2.0 * v * w + 2.0 * b * w;
    assert w * w == m * m * (u * u) && v * w == m * (u * v) && b * w == m * b * u;
    assert (n + 1.0) * my == n * my + my && (n + 1.0) * mx == n * mx + mx && (n + 1.0) * (b * b) == n * (b * b) + b * b;
    assert 2.0 * b * (sy - n * my + v) == 2.0 * b * (sy - n * my) + 2.0 * b * v;
    assert 2.0 * m * b * (sx - n * mx + u) == 2.0 * m * b * (sx - n * mx) + 2.0 * m * b * u;
    assert 2.0 * m * (cov + u * v) == 2.0 * m * cov + 2.0 * m * (u * v);
    assert m * m * (d + u * u) == m * m * d + m * m * (u * u);
  }

  // The line of slope m through (mx, b + my), as a distance from the means.
  lemma ShiftedDistance(p: Point, mx: real, my: real, m: real, b: real, c: real)
    requires c == b + my - Times(m, mx)
    ensures Distance(p, m, c) == (p.y - my) - b - Times(m, p.x - mx)
  {
  }

  lemma {:induction false} ResidualExpands(p: seq<Point>, mx: real, my: real, m: real, b: real, c: real)
    requires c == b + my - Times(m, mx)
    ensures Residual(p, m, c) ==
      Expanded(|p| as real, Height(p, my), Covariation(p, mx, my), Spread(p, mx), SumX(p), SumY(p), mx, my, m, b)
    decreases |p|
  {
    if p != [] {
      var n := |p| - 1;
      var q := p[..n];
      ResidualExpands(q, mx, my, m, b, c);
      var u, v := p[n].x - mx, p[n].y - my;
      ShiftedDistance(p[n], mx, my, m, b, c);
      ExpandedStep(n as real, Height(q, my), Covariation(q, mx, my), Spread(q, mx), SumX(q), SumY(q), mx, my, m, b, u, v);
      hide Times, Expanded, Distance;
      assert p[n].x == mx + u && p[n].y == my + v && |p| as real == n as real + 1.0;
    } else {
      ExpandedEmpty(mx, my, m, b);
    }
  }

  lemma ExpandedEmpty(mx: real, my: real, m: real, b: real)
    ensures Expanded(0.0, 0.0, 0.0, 0.0, 0.0, 0.0, mx, my, m, b) == 0.0
  {
  }

  // Around the means the cost of a line is that of the fitted slope plus two squares.
  lemma CompleteSquare(n: real, h: real, cov: real, d: real, sx: real, sy: real, mx: real, my: real, m: real, b: real)
    requires d > 0.0 && sx - n * mx == 0.0 && sy - n * my == 0.0
    ensures var s := cov / d;
            Expanded(n, h, cov, d, sx, sy, mx, my, m, b) ==
            Expanded(n, h, cov, d, sx, sy, mx, my, s, 0.0) + d * Times(m - s, m - s) + n * Times(b, b)
  {
    var s := cov / d;
    assert cov == s * d;
    assert m * cov == d * (m * s) && s * cov == d * (s * s);
    assert d * ((m - s) * (m - s)) == d * (m * m) - 2.0 * (d * (m * s)) + d * (s * s);
    assert Expanded(n, h, cov, d, sx, sy, mx, my, m, b) == h - 2.0 * (m * cov) + n * (b * b) + d * (m * m);
    assert Expanded(n, h, cov, d, sx, sy, mx, my, s, 0.0) == h - 2.0 * (s * cov) + d * (s * s);
  }

  lemma LeastCost(d: real, e: real, n: real, f: real)
    requires d > 0.0 && n > 0.0 && e >= 0.0 && f >= 0.0
    ensures d * e + n * f >= 0.0 && (d * e + n * f == 0.0 <==> e == 0.0 && f == 0.0)
  {
    if e > 0.0 { assert d * e > 0.0; }
    if f > 0.0 { assert n * f > 0.0; }
  }

  function Intercept(p: seq<Point>): real
    requires p != []
  {
    MeanY(p) - Times(Slope(p), MeanX(p))
  }

  lemma MeansCentre(p: seq<Point>)
    requires p != []
    ensures SumX(p) - |p| as real * MeanX(p) == 0.0 && SumY(p) - |p| as real * MeanY(p) == 0.0
  {
    hide SumX, SumY;
    Quotient(SumX(p), |p| as real);
    Quotient(SumY(p), |p| as real);
  }

  // How far the line passes from the point of means.
  function Offset(p: seq<Point>, m: real, c: real): real
    requires p != []
  {
    c - MeanY(p) + Times(m, MeanX(p))
  }

  lemma OffsetZero(p: seq<Point>, m: real, c: real)
    requires p != []
    ensures m == Slope(p) ==> (Offset(p, m, c) == 0.0 <==> c == Intercept(p))
  {
  }

  function Cost(p: seq<Point>, m: real, c: real): real
    requires p != []
  {
    var e := m - Slope(p); var b := Offset(p, m, c);
    Spread(p, MeanX(p)) * Times(e, e) + |p| as real * Times(b, b)
  }

  lemma FitCost(p: seq<Point>, m: real, c: real)
    requires p != [] && Spread(p, MeanX(p)) > 0.0
    ensures Residual(p, m, c) == Residual(p, Slope(p), Intercept(p)) + Cost(p, m, c)
  {
    hide Residual, Expanded, Times, Spread, Covariation, Height, SumX, SumY, MeanX, MeanY;
    var mx, my, n := MeanX(p), MeanY(p), |p| as real;
    var h, cov, d, s, b := Height(p, my), Covariation(p, mx, my), Spread(p, mx), Slope(p), Offset(p, m, c);
    ResidualExpands(p, mx, my, m, b, c);
    ResidualExpands(p, mx, my, s, 0.0, Intercept(p));
    MeansCentre(p);
    CompleteSquare(n, h, cov, d, SumX(p), SumY(p), mx, my, m, b);
    assert s == cov / d && Intercept(p) == 0.0 + my - Times(s, mx) && c == b + my - Times(m, mx);
    assert Cost(p, m, c) == d * Times(m - s, m - s) + n * Times(b, b);
    hide *;
  }

  lemma CostIsLeast(p: seq<Point>, m: real, c: real)
    requires p != [] && Spread(p, MeanX(p)) > 0.0
    ensures Cost(p, m, c) >= 0.0 && (Cost(p, m, c) == 0.0 <==> m == Slope(p) && c == Intercept(p))
  {
    var e, b := m - Slope(p), Offset(p, m, c);
    Square(e);
    Square(b);
    LeastCost(Spread(p, MeanX(p)), Times(e, e), |p| as real, Times(b, b));
    OffsetZero(p, m, c);
    assert Cost(p, m, c) == Spread(p, MeanX(p)) * Times(e, e) + |p| as real * Times(b, b);
    hide *;
  }

  // Among all lines the fitted one, and no other, has the least squared residual.
  lemma FitIsLeast(p: seq<Point>, m: real, c: real)
    requires p != [] && Spread(p, MeanX(p)) > 0.0
    ensures Residual(p, Slope(p), Intercept(p)) <= Residual(p, m, c)
    ensures Residual(p, m, c) == Residual(p, Slope(p), Intercept(p)) <==> m == Slope(p) && c == Intercept(p)
  {
    FitCost(p, m, c);
    CostIsLeast(p, m, c);
    hide *;
  }

  // ----- the recent half -----

  function Points(recent: seq<Sample>, origin: real): (p: seq<Point>)
    requires forall i :: 0 <= i < |recent| ==> Plausible(recent[i])
    ensures |p| == |recent|
    ensures forall i :: 0 <= i < |p| ==>
      Plausible(recent[i]) && p[i].x + origin == recent[i].elapsed.value && p[i].y == recent[i].rss.value as real
  {
    seq(|recent|, i requires 0 <= i < |recent| && Plausible(recent[i]) =>
      Point(recent[i].elapsed.value - origin, recent[i].rss.value as real))
  }

  // Every sample as the point of its elapsed time and its resident bytes.
  ghost predicate Plots(p: seq<Point>, recent: seq<Sample>) {
    && |p| == |recent|
    && forall i :: 0 <= i < |p| ==>
         recent[i].elapsed == Some(p[i].x) && recent[i].rss.Some? && p[i].y == recent[i].rss.value as real
  }

  lemma PlotsArePoints(p: seq<Point>, recent: seq<Sample>)
    requires forall i :: 0 <= i < |recent| ==> Plausible(recent[i])
    ensures Plots(p, recent) <==> p == Points(recent, 0.0)
  {
    var q := Points(recent, 0.0);
    if Plots(p, recent) {
      forall i | 0 <= i < |p| ensures p[i] == q[i] {
        assert q[i].x + 0.0 == p[i].x;
      }
    }
  }

  // The residual adds up the squares of how far the points are above or below the line.
  lemma ResidualAdds(p: seq<Point>, q: Point, m: real, c: real)
    ensures Residual([], m, c) == 0.0
    ensures Residual(p + [q], m, c) == Residual(p, m, c) + (q.y - (m * q.x + c)) * (q.y - (m * q.x + c))
  {
    assert (p + [q])[..|p|] == p;
    assert Distance(q, m, c) == q.y - (m * q.x + c);
  }

  // Shifting time does not change how well a slope can fit.
  lemma {:induction false} ShiftKeepsResidual(recent: seq<Sample>, origin: real, m: real, c: real)
    requires forall i :: 0 <= i < |recent| ==> Plausible(recent[i])
    ensures Residual(Points(recent, origin), m, c) == Residual(Points(recent, 0.0), m, c - m * origin)
    decreases |recent|
  {
    if recent != [] {
      var n := |recent| - 1;
      ShiftKeepsResidual(recent[..n], origin, m, c);
      assert Points(recent, origin)[..n] == Points(recent[..n], origin);
      assert Points(recent, 0.0)[..n] == Points(recent[..n], 0.0);
      assert Distance(Points(recent, origin)[n], m, c) == Distance(Points(recent, 0.0)[n], m, c - m * origin) by {
        var x := recent[n].elapsed.value;
        assert m * (x - origin) == m * x - m * origin;
      }
      hide Times, Distance;
    }
  }

  // Some line of slope s fits at least as well as every line.
  ghost predicate BestSlope(p: seq<Point>, s: real) {
    exists b: real :: Fits(p, s, b)
  }

  ghost predicate Fits(p: seq<Point>, s: real, b: real) {
    forall m: real, c: real :: Residual(p, s, b) <= Residual(p, m, c)
  }

  lemma SpreadIsPositive(p: seq<Point>)
    requires |p| >= 2 && p[0].x != p[1].x
    ensures Spread(p, MeanX(p)) > 0.0
  {
    SpreadZeroIff(p, MeanX(p));
  }

  // The best slope is unique, so BestSlope determines the reported number.
  lemma BestSlopeIsUnique(p: seq<Point>, s: real)
    requires |p| >= 2 && p[0].x != p[1].x
    ensures BestSlope(p, s) <==> s == Slope(p)
  {
    hide Residual, Slope, Intercept, MeanX, MeanY, Spread;
    SpreadIsPositive(p);
    forall m: real, c: real ensures Residual(p, Slope(p), Intercept(p)) <= Residual(p, m, c) {
      FitIsLeast(p, m, c);
    }
    assert Fits(p, Slope(p), Intercept(p));
    if BestSlope(p, s) {
      var b: real :| Fits(p, s, b);
      FitIsLeast(p, s, b);
    }
  }

  // Memory that grows at a constant rate is reported with exactly that rate.
  lemma {:induction false} OnLineIsZero(p: seq<Point>, g: real, a: real)
    requires forall i :: 0 <= i < |p| ==> p[i].y == a + g * p[i].x
    ensures Residual(p, g, a) == 0.0
    decreases |p|
  {
    if p != [] {
      OnLineIsZero(p[..|p| - 1], g, a);
    }
  }

  lemma {:induction false} ResidualIsNonNegative(p: seq<Point>, m: real, c: real)
    ensures Residual(p, m, c) >= 0.0
    decreases |p|
  {
    if p != [] {
      var n := |p| - 1;
      ResidualIsNonNegative(p[..n], m, c);
      Square(Distance(p[n], m, c));
      hide Times, Distance;
    }
  }

  lemma LinearGrowthIsRecovered(p: seq<Point>, g: real, a: real)
    requires |p| >= 2 && p[0].x != p[1].x
    requires forall i :: 0 <= i < |p| ==> p[i].y == a + g * p[i].x
    ensures Slope(p) == g
  {
    OnLineIsZero(p, g, a);
    forall m: real, c: real ensures Residual(p, g, a) <= Residual(p, m, c) {
      ResidualIsNonNegative(p, m, c);
    }
    assert Fits(p, g, a);
    BestSlopeIsUnique(p, g);
  }

  lemma ShiftKeepsBestSlope(recent: seq<Sample>, origin: real, s: real)
    requires forall i :: 0 <= i < |recent| ==> Plausible(recent[i])
    requires BestSlope(Points(recent, origin), s)
    ensures BestSlope(Points(recent, 0.0), s)
  {
    hide Residual, Points;
    var p, q := Points(recent, origin), Points(recent, 0.0);
    var b: real :| Fits(p, s, b);
    ShiftKeepsResidual(recent, origin, s, b);
    forall m: real, c: real ensures Residual(q, s, b - s * origin) <= Residual(q, m, c) {
      ShiftKeepsResidual(recent, origin, m, c + m * origin);
      assert (c + m * origin) - m * origin == c;
    }
    assert Fits(q, s, b - s * origin);
  }

  // ----- the summary -----

  method Invalid(epoch: seq<Sample>) returns (invalid: bool)
    ensures invalid <==> !Valid(epoch)
  {
    var previous: Option<real> := None;
    invalid := false;
    var i := 0;
    while i < |epoch|
      invariant i <= |epoch| && !invalid
      invariant Valid(epoch[..i])
      invariant previous == if i == 0 then None else epoch[i - 1].elapsed
    {
      var item := epoch[i];
      if !Plausible(item) || (previous.Some? && item.elapsed.value <= previous.value) {
        return true;
      }
      previous := item.elapsed;
      i := i + 1;
    }
    assert epoch[..i] == epoch;
  }

  method RecentTrend(samples: seq<Sample>) returns (t: Trend)
    ensures var epoch := OfPid(samples, LatestPid(samples));
      && t.samples == |samples| && t.epoch == |epoch|
      && t.pid == LatestPid(samples) == (if samples == [] then None else samples[|samples| - 1].pid)
      && (t.InvalidEpoch? <==> !Valid(epoch))
      && (t.TooFew? <==> Valid(epoch) && |epoch| < 4)
      && (t.Summary? ==>
            var recent := epoch[|epoch| / 2..];
            && t.recent == |recent| >= 2
            && BestSlope(Points(recent, 0.0), t.slopePerHour / 3600.0)
            && (forall p :: Plots(p, recent) ==> BestSlope(p, t.slopePerHour / 3600.0))
            && t.growth == recent[|recent| - 1].rss.value - recent[0].rss.value
            && (t.plateau <==> t.slopePerHour <= 16_777_216.0 && t.growth <= 67_108_864))
  {
    hide OfPid;
    var pid := LatestPid(samples);
    var epoch := OfPid(samples, pid);
    var invalid := Invalid(epoch);
    if invalid { return InvalidEpoch(|samples|, pid, |epoch|); }
    if |epoch| < 4 { return TooFew(|samples|, pid, |epoch|); }
    var recent := epoch[|epoch| / 2..];
    var origin := recent[0].elapsed.value;
    var points := Points(recent, origin);
    var slope := Slope(points);
    assert points[0].x != points[1].x;
    BestSlopeIsUnique(points, slope);
    ShiftKeepsBestSlope(recent, origin, slope);
    forall p | Plots(p, recent) ensures BestSlope(p, slope) {
      PlotsArePoints(p, recent);
    }
    hide Slope, Points, BestSlope, Plots;
    var growth := recent[|recent| - 1].rss.value - recent[0].rss.value;
    var perHour := slope * 3600.0;
    assert perHour / 3600.0 == slope;
    t := Summary(|samples|, pid, |epoch|, |recent|, perHour, growth,
      perHour <= (16 * MIB) as real && growth <= 64 * MIB);
  }
}
