// common/equations.go: least squares lines through weighted points.
module Equations {
  import opened LeastSquares
  import opened Options
  import opened Reals

  datatype Line = Line(slope: real, intercept: real)

  function ValueAt(l: Line, x: real): real {
    l.slope * x + l.intercept
  }

  // The weighted squared distance of the first m points from a line.
  function LineError(x: seq<real>, y: seq<real>, w: seq<real>, l: Line, m: nat): real
    requires m <= |x| == |y| == |w|
  {
    if m == 0 then 0.0
    else
      var d := y[m - 1] - ValueAt(l, x[m - 1]);
      LineError(x, y, w, l, m - 1) + Times(w[m - 1], Times(d, d))
  }

  // Sum of w * x^i * y^j over the first m points.
  function Moment(x: seq<real>, y: seq<real>, w: seq<real>, i: nat, j: nat, m: nat): real
    requires m <= |x| == |y| == |w| && i + j <= 2
  {
    if m == 0 then 0.0
    else
      var a, b, c := x[m - 1], y[m - 1], w[m - 1];
      Moment(x, y, w, i, j, m - 1)
      + if i == 1 && j == 1 then Times(Times(c, a), b)
        else if i == 2 then Times(Times(c, a), a)
        else if j == 2 then Times(Times(c, b), b)
        else if i == 1 then Times(c, a)
        else if j == 1 then Times(c, b)
        else c
  }

  ghost predicate WeightsNonNegative(w: seq<real>) {
    forall k :: 0 <= k < |w| ==> w[k] >= 0.0
  }

  function Ones(n: nat): seq<real> {
    seq(n, _ => 1.0)
  }

  // What the source computes from the sums.
  function SlopeOf(sw: real, sx: real, sy: real, sxx: real, sxy: real): real
    requires sw * sxx != sx * sx
  {
    (sw * sxy - sx * sy) / (sw * sxx - sx * sx)
  }

  function InterceptOf(sw: real, sx: real, sy: real, slope: real): real
    requires sw != 0.0
  {
    sy / sw - slope * sx / sw
  }

  // The sums of w, w x, w y, w x^2 and w x y
  datatype Moments = Moments(w: real, x: real, y: real, xx: real, xy: real)

  function MomentsOf(x: seq<real>, y: seq<real>, w: seq<real>): Moments
    requires |x| == |y| == |w|
  {
    var n := |x|;
    Moments(Moment(x, y, w, 0, 0, n), Moment(x, y, w, 1, 0, n), Moment(x, y, w, 0, 1, n),
            Moment(x, y, w, 2, 0, n), Moment(x, y, w, 1, 1, n))
  }

  // No weight, or a vertical line
  predicate Degenerate(s: Moments) {
    s.w == 0.0 || s.w * s.xx == s.x * s.x
  }

  // The two normal equations of a line
  predicate Balanced(s: Moments, l: Line) {
    s.xx * l.slope + s.x * l.intercept == s.xy && s.x * l.slope + s.w * l.intercept == s.y
  }

  // r is the regression of y on x with the weights w.
  ghost predicate IsFit(x: seq<real>, y: seq<real>, w: seq<real>, r: Option<Line>) {
    if |x| != |y| || |x| != |w| || |x| < 2 then r == None
    else
      var s := MomentsOf(x, y, w);
      match r
      case None => Degenerate(s)
      case Some(l) => !Degenerate(s) && Balanced(s, l)
  }

  // There is only one such line.
  lemma BalancedOnce(s: Moments, l: Line, k: Line)
    requires !Degenerate(s) && Balanced(s, l) && Balanced(s, k)
    ensures l == k
  {
    var a, b := l.slope - k.slope, l.intercept - k.intercept;
    assert s.xx * a + s.x * b == 0.0 && s.x * a + s.w * b == 0.0;
    assert (s.w * s.xx - s.x * s.x) * a == s.w * (s.xx * a + s.x * b) - s.x * (s.x * a + s.w * b);
    ZeroFactor(s.w * s.xx - s.x * s.x, a);
    ZeroFactor(s.w, b);
  }

  lemma FitUnique(x: seq<real>, y: seq<real>, w: seq<real>, r: Option<Line>, t: Option<Line>)
    requires IsFit(x, y, w, r) && IsFit(x, y, w, t)
    ensures r == t
  {
    hide Degenerate, Balanced;
    if r.Some? && t.Some? {
      BalancedOnce(MomentsOf(x, y, w), r.value, t.value);
    }
  }

  method LinRegWeighted(x: seq<real>, y: seq<real>, w: seq<real>) returns (r: Option<Line>)
    ensures IsFit(x, y, w, r)
  {
    var n := |x|;
    if n != |y| || n != |w| {
      return None;
    }
    if n < 2 {
      return None;
    }
    hide *;
    NothingAccumulated(x, y, w);
    var sw, swx, swy, swxx, swxy, swyy := 0.0, 0.0, 0.0, 0.0, 0.0, 0.0;
    for i := 0 to n
      invariant Accumulated(x, y, w, i, Moments(sw, swx, swy, swxx, swxy), swyy)
    {
      NextAccumulated(x, y, w, i, Moments(sw, swx, swy, swxx, swxy), swyy);
      sw := sw + w[i];
      swxy := swxy + Times(Times(w[i], x[i]), y[i]);
      swx := swx + Times(w[i], x[i]);
      swy := swy + Times(w[i], y[i]);
      swxx := swxx + Times(Times(w[i], x[i]), x[i]);
      swyy := swyy + Times(Times(w[i], y[i]), y[i]);
    }
    r := FromSums(sw, swx, swy, swxx, swxy);
    FitFromSums(x, y, w, Moments(sw, swx, swy, swxx, swxy), swyy, r);
  }

  lemma FitFromSums(x: seq<real>, y: seq<real>, w: seq<real>, s: Moments, yy: real, r: Option<Line>)
    requires |x| == |y| == |w| >= 2 && Accumulated(x, y, w, |x|, s, yy)
    requires r.None? <==> s.w == 0.0 || s.w * s.xx == s.x * s.x
    requires r.Some? ==> s.xx * r.value.slope + s.x * r.value.intercept == s.xy
    requires r.Some? ==> s.x * r.value.slope + s.w * r.value.intercept == s.y
    ensures IsFit(x, y, w, r)
  {
    hide Moment;
    assert s == MomentsOf(x, y, w);
    hide MomentsOf;
  }

  method FromSums(sw: real, swx: real, swy: real, swxx: real, swxy: real) returns (r: Option<Line>)
    ensures r.None? <==> sw == 0.0 || sw * swxx == swx * swx
    ensures r.Some? ==> swxx * r.value.slope + swx * r.value.intercept == swxy
    ensures r.Some? ==> swx * r.value.slope + sw * r.value.intercept == swy
  {
    if sw == 0.0 {
      return None;
    }
    if sw * swxx == swx * swx {
      return None;
    }
    var slope := (sw * swxy - swx * swy) / (sw * swxx - swx * swx);
    assert slope == SlopeOf(sw, swx, swy, swxx, swxy);
    var intercept := swy / sw - slope * swx / sw;
    assert intercept == InterceptOf(sw, swx, swy, slope);
    Solution(sw, swx, swy, swxx, swxy, slope, intercept);
    return Some(Line(slope, intercept));
  }

  // The sums over the first m points, with that of w y^2
  ghost predicate Accumulated(x: seq<real>, y: seq<real>, w: seq<real>, m: nat, s: Moments, yy: real)
    requires m <= |x| == |y| == |w|
  {
    && s.w == Moment(x, y, w, 0, 0, m) && s.x == Moment(x, y, w, 1, 0, m) && s.y == Moment(x, y, w, 0, 1, m)
    && s.xx == Moment(x, y, w, 2, 0, m) && s.xy == Moment(x, y, w, 1, 1, m) && yy == Moment(x, y, w, 0, 2, m)
  }

  lemma NothingAccumulated(x: seq<real>, y: seq<real>, w: seq<real>)
    requires |x| == |y| == |w|
    ensures Accumulated(x, y, w, 0, Moments(0.0, 0.0, 0.0, 0.0, 0.0), 0.0)
  {
  }

  lemma NextAccumulated(x: seq<real>, y: seq<real>, w: seq<real>, m: nat, s: Moments, yy: real)
    requires m < |x| == |y| == |w| && Accumulated(x, y, w, m, s, yy)
    ensures var a, b, c := x[m], y[m], w[m];
            Accumulated(x, y, w, m + 1,
                        Moments(s.w + c, s.x + Times(c, a), s.y + Times(c, b),
                          s.xx + Times(Times(c, a), a), s.xy + Times(Times(c, a), b)),
                        yy + Times(Times(c, b), b))
  {
    hide Times;
  }

  lemma NextUnitAccumulated(x: seq<real>, y: seq<real>, m: nat, s: Moments, yy: real)
    requires m < |x| == |y| && Accumulated(x, y, Ones(|x|), m, s, yy)
    ensures var a, b := x[m], y[m];
            Accumulated(x, y, Ones(|x|), m + 1,
                        Moments(s.w + 1.0, s.x + a, s.y + b, s.xx + Times(a, a), s.xy + Times(a, b)), yy + Times(b, b))
  {
    hide Moment, Times, Accumulated;
    NextAccumulated(x, y, Ones(|x|), m, s, yy);
    OnceIs(x[m]);
    OnceIs(y[m]);
  }

  lemma OnceIs(a: real)
    ensures Times(1.0, a) == a
  {
  }

  // The unweighted regression is the weighted one with unit weights.
  method LinReg(x: seq<real>, y: seq<real>) returns (r: Option<Line>)
    ensures IsFit(x, y, Ones(|x|), r)
  {
    var n := |x|;
    ghost var w := Ones(n);
    if n != |y| {
      return None;
    }
    if n < 2 {
      return None;
    }
    hide *;
    NothingAccumulated(x, y, w);
    var sx, sy, sxx, sxy, syy := 0.0, 0.0, 0.0, 0.0, 0.0;
    for i := 0 to n
      invariant Accumulated(x, y, w, i, Moments(i as real, sx, sy, sxx, sxy), syy)
    {
      NextUnitAccumulated(x, y, i, Moments(i as real, sx, sy, sxx, sxy), syy);
      sx := sx + x[i];
      sy := sy + y[i];
      sxx := sxx + Times(x[i], x[i]);
      sxy := sxy + Times(x[i], y[i]);
      syy := syy + Times(y[i], y[i]);
    }
    r := FromSums(n as real, sx, sy, sxx, sxy);
    FitFromSums(x, y, w, Moments(n as real, sx, sy, sxx, sxy), syy, r);
  }

  // ---- The line is the best one ----

  function Point(x: real, y: real, w: real): Sample {
    Sample([x, 1.0], y, w)
  }

  function Points(x: seq<real>, y: seq<real>, w: seq<real>): (data: seq<Sample>)
    requires |x| == |y| == |w|
    ensures |data| == |x| && Shaped(data, 2)
  {
    seq(|x|, k requires 0 <= k < |x| => Point(x[k], y[k], w[k]))
  }

  function Coefficients(l: Line): seq<real> {
    [l.slope, l.intercept]
  }

  lemma PointResidual(x: real, y: real, w: real, l: Line)
    ensures Residual(Point(x, y, w), Coefficients(l)) == ValueAt(l, x) - y
  {
    var row, p := [x, 1.0], Coefficients(l);
    assert Dot(row, p, 2) == Dot(row, p, 1) + 1.0 * l.intercept;
    assert Dot(row, p, 1) == Dot(row, p, 0) + x * l.slope;
  }

  lemma {:induction false} LineErrorIsError(x: seq<real>, y: seq<real>, w: seq<real>, l: Line, m: nat)
    requires m <= |x| == |y| == |w|
    ensures LineError(x, y, w, l, m) == Error(Points(x, y, w), Coefficients(l), m)
  {
    hide Residual, Times, ValueAt;
    if m > 0 {
      LineErrorIsError(x, y, w, l, m - 1);
      PointResidual(x[m - 1], y[m - 1], w[m - 1], l);
      SquareOfDifference(w[m - 1], y[m - 1], ValueAt(l, x[m - 1]));
    }
  }

  lemma SquareOfDifference(w: real, a: real, b: real)
    ensures Times(w, Times(a - b, a - b)) == Times(w, Times(b - a, b - a))
  {
  }

  lemma {:induction false} MomentsAreNormal(x: seq<real>, y: seq<real>, w: seq<real>, m: nat)
    requires m <= |x| == |y| == |w|
    ensures var d := Points(x, y, w);
            && Normal(d, 2, m, 0, 0) == Moment(x, y, w, 2, 0, m)
            && Normal(d, 2, m, 0, 1) == Normal(d, 2, m, 1, 0) == Moment(x, y, w, 1, 0, m)
            && Normal(d, 2, m, 1, 1) == Moment(x, y, w, 0, 0, m)
            && Right(d, 2, m, 0) == Moment(x, y, w, 1, 1, m)
            && Right(d, 2, m, 1) == Moment(x, y, w, 0, 1, m)
  {
    if m > 0 {
      MomentsAreNormal(x, y, w, m - 1);
      var a, b, c := x[m - 1], y[m - 1], w[m - 1];
      assert c * (a * a) == c * a * a && c * (a * b) == c * a * b;
    }
  }

  lemma Solution(sw: real, sx: real, sy: real, sxx: real, sxy: real, slope: real, intercept: real)
    requires sw != 0.0 && sw * sxx != sx * sx
    requires slope == SlopeOf(sw, sx, sy, sxx, sxy)
    requires intercept == InterceptOf(sw, sx, sy, slope)
    ensures sxx * slope + sx * intercept == sxy
    ensures sx * slope + sw * intercept == sy
  {
    assert slope * (sw * sxx - sx * sx) == sw * sxy - sx * sy;
    assert sw * intercept == sy - slope * sx by {
      assert sw * (sy / sw) == sy;
      assert sw * (slope * sx / sw) == slope * sx;
    }
    assert sw * (sxx * slope + sx * intercept - sxy) == 0.0 by {
      assert sw * (sxx * slope + sx * intercept - sxy)
          == slope * (sw * sxx) + sx * (sw * intercept) - sw * sxy;
      assert sx * (sy - slope * sx) == sx * sy - slope * (sx * sx);
      assert slope * (sw * sxx - sx * sx) == slope * (sw * sxx) - slope * (sx * sx);
    }
  }

  lemma BalancedSolvesNormal(x: seq<real>, y: seq<real>, w: seq<real>, l: Line)
    requires |x| == |y| == |w|
    ensures SolvesNormal(Points(x, y, w), Coefficients(l)) <==> Balanced(MomentsOf(x, y, w), l)
  {
    hide Moment, Normal, Right;
    var n, d, p := |x|, Points(x, y, w), Coefficients(l);
    MomentsAreNormal(x, y, w, n);
    forall i: nat | i < 2
      ensures NormalDot(d, p, n, i, 2) == Normal(d, 2, n, i, 0) * l.slope + Normal(d, 2, n, i, 1) * l.intercept
    {
      assert NormalDot(d, p, n, i, 2) == NormalDot(d, p, n, i, 1) + Normal(d, 2, n, i, 1) * l.intercept;
      assert NormalDot(d, p, n, i, 1) == NormalDot(d, p, n, i, 0) + Normal(d, 2, n, i, 0) * l.slope;
    }
  }

  // With weights that are not negative every other line has a larger weighted squared error.
  lemma FitIsBest(x: seq<real>, y: seq<real>, w: seq<real>, l: Line, other: Line)
    requires IsFit(x, y, w, Some(l)) && WeightsNonNegative(w)
    ensures LineError(x, y, w, l, |x|) <= LineError(x, y, w, other, |x|)
    ensures LineError(x, y, w, l, |x|) == LineError(x, y, w, other, |x|) ==> other == l
  {
    hide SolvesNormal, LineError, Error, Balanced, Degenerate, MomentsOf;
    var data := Points(x, y, w);
    assert NonNegative(data);
    BalancedSolvesNormal(x, y, w, l);
    NormalMinimises(data, Coefficients(l));
    LineErrorIsError(x, y, w, l, |x|);
    LineErrorIsError(x, y, w, other, |x|);
    assert |Coefficients(other)| == |Coefficients(l)|;
    if LineError(x, y, w, l, |x|) == LineError(x, y, w, other, |x|) {
      SameErrorSolves(data, Coefficients(l), Coefficients(other));
      BalancedSolvesNormal(x, y, w, other);
      BalancedOnce(MomentsOf(x, y, w), l, other);
    }
  }

  // ---- When there is a line at all ----

  function Weighted(w: real, d: real): real {
    Times(w, Times(d, d))
  }

  // Sum of w * (x - c)^2.
  function Spread(x: seq<real>, w: seq<real>, c: real, m: nat): real
    requires m <= |x| == |w|
  {
    if m == 0 then 0.0
    else Spread(x, w, c, m - 1) + Weighted(w[m - 1], x[m - 1] - c)
  }

  // Sum of w w' (x - x')^2 over all pairs of points.
  function Pairs(x: seq<real>, w: seq<real>, m: nat): real
    requires m <= |x| == |w|
  {
    if m == 0 then 0.0 else Pairs(x, w, m - 1) + Times(w[m - 1], Spread(x, w, x[m - 1], m - 1))
  }

  function SpreadOf(s0: real, s1: real, s2: real, c: real): real {
    s2 - 2.0 * c * s1 + c * c * s0
  }

  lemma {:induction false} SpreadIsMoments(x: seq<real>, y: seq<real>, w: seq<real>, c: real, m: nat)
    requires m <= |x| == |y| == |w|
    ensures Spread(x, w, c, m)
         == SpreadOf(Moment(x, y, w, 0, 0, m), Moment(x, y, w, 1, 0, m), Moment(x, y, w, 2, 0, m), c)
  {
    hide SpreadOf, Weighted;
    if m == 0 {
      NoSpread(c);
    } else {
      SpreadIsMoments(x, y, w, c, m - 1);
      SpreadStep(Sums(x, y, w, m - 1), Sums(x, y, w, m), c, w[m - 1], x[m - 1]);
    }
  }

  lemma NoSpread(c: real)
    ensures SpreadOf(0.0, 0.0, 0.0, c) == 0.0
  {
  }

  // The sums of w, w * x and w * x^2.
  datatype Triple = Triple(s0: real, s1: real, s2: real)

  function Sums(x: seq<real>, y: seq<real>, w: seq<real>, m: nat): Triple
    requires m <= |x| == |y| == |w|
  {
    Triple(Moment(x, y, w, 0, 0, m), Moment(x, y, w, 1, 0, m), Moment(x, y, w, 2, 0, m))
  }

  predicate NextSums(s: Triple, t: Triple, w: real, x: real) {
    t.s0 == s.s0 + w && t.s1 == s.s1 + Times(w, x) && t.s2 == s.s2 + Times(Times(w, x), x)
  }

  lemma SpreadStep(s: Triple, t: Triple, c: real, w: real, x: real)
    requires NextSums(s, t, w, x)
    ensures SpreadOf(t.s0, t.s1, t.s2, c) == SpreadOf(s.s0, s.s1, s.s2, c) + Weighted(w, x - c)
  {
    assert w * ((x - c) * (x - c)) == w * x * x - 2.0 * c * (w * x) + c * c * w;
    assert 2.0 * c * t.s1 == 2.0 * c * s.s1 + 2.0 * c * (w * x);
    assert c * c * t.s0 == c * c * s.s0 + c * c * w;
  }

  function DeterminantOf(s0: real, s1: real, s2: real): real {
    s0 * s2 - s1 * s1
  }

  // The identity of Lagrange.
  lemma {:induction false} DeterminantIsPairs(x: seq<real>, y: seq<real>, w: seq<real>, m: nat)
    requires m <= |x| == |y| == |w|
    ensures DeterminantOf(Moment(x, y, w, 0, 0, m), Moment(x, y, w, 1, 0, m), Moment(x, y, w, 2, 0, m))
         == Pairs(x, w, m)
  {
    hide SpreadOf, DeterminantOf, Spread, Times;
    if m == 0 {
      NoDeterminant();
    } else {
      DeterminantIsPairs(x, y, w, m - 1);
      SpreadIsMoments(x, y, w, x[m - 1], m - 1);
      DeterminantStep(Sums(x, y, w, m - 1), Sums(x, y, w, m), w[m - 1], x[m - 1]);
    }
  }

  lemma NoDeterminant()
    ensures DeterminantOf(0.0, 0.0, 0.0) == 0.0
  {
  }

  lemma DeterminantStep(s: Triple, t: Triple, w: real, x: real)
    requires NextSums(s, t, w, x)
    ensures DeterminantOf(t.s0, t.s1, t.s2) == DeterminantOf(s.s0, s.s1, s.s2) + Times(w, SpreadOf(s.s0, s.s1, s.s2, x))
  {
    assert t.s0 * t.s2 == s.s0 * s.s2 + w * s.s2 + w * (x * x * s.s0) + w * (w * x * x);
    assert t.s1 * t.s1 == s.s1 * s.s1 + w * (2.0 * x * s.s1) + w * (w * x * x);
    assert w * (s.s2 - 2.0 * x * s.s1 + x * x * s.s0) == w * s.s2 - w * (2.0 * x * s.s1) + w * (x * x * s.s0);
  }

  ghost predicate OffLine(x: seq<real>, w: seq<real>, c: real, m: nat)
    requires m <= |x| == |w|
  {
    exists i :: 0 <= i < m && w[i] > 0.0 && x[i] != c
  }

  ghost predicate TwoAbscissas(x: seq<real>, w: seq<real>, m: nat)
    requires m <= |x| == |w|
  {
    exists i, j :: 0 <= i < j < m && w[i] > 0.0 && w[j] > 0.0 && x[i] != x[j]
  }

  lemma {:induction false} SpreadSign(x: seq<real>, w: seq<real>, c: real, m: nat)
    requires m <= |x| == |w| && WeightsNonNegative(w)
    ensures Spread(x, w, c, m) >= 0.0
    ensures Spread(x, w, c, m) > 0.0 <==> OffLine(x, w, c, m)
  {
    hide Weighted;
    if m > 0 {
      SpreadSign(x, w, c, m - 1);
      WeightedSquare(w[m - 1], x[m - 1] - c);
      assert OffLine(x, w, c, m) <==> OffLine(x, w, c, m - 1) || (w[m - 1] > 0.0 && x[m - 1] != c);
    }
  }

  lemma WeightedSquare(w: real, d: real)
    requires w >= 0.0
    ensures Weighted(w, d) >= 0.0 && (Weighted(w, d) > 0.0 <==> w > 0.0 && d != 0.0)
  {
    hide Times;
    TimesSign(d, d);
    TimesSign(w, Times(d, d));
  }

  lemma {:induction false} PairsSign(x: seq<real>, w: seq<real>, m: nat)
    requires m <= |x| == |w| && WeightsNonNegative(w)
    ensures Pairs(x, w, m) >= 0.0 && (Pairs(x, w, m) > 0.0 <==> TwoAbscissas(x, w, m))
  {
    hide Times, Spread;
    if m > 0 {
      PairsSign(x, w, m - 1);
      SpreadSign(x, w, x[m - 1], m - 1);
      TimesSign(w[m - 1], Spread(x, w, x[m - 1], m - 1));
      OneMorePoint(x, w, m);
    }
  }

  lemma OneMorePoint(x: seq<real>, w: seq<real>, m: nat)
    requires 0 < m <= |x| == |w|
    ensures TwoAbscissas(x, w, m) <==> TwoAbscissas(x, w, m - 1) || (w[m - 1] > 0.0 && OffLine(x, w, x[m - 1], m - 1))
  {
  }

  // Two points of positive weight with different x are necessary and sufficient for a line, so
  // the source never divides by zero.
  lemma FitExists(x: seq<real>, y: seq<real>, w: seq<real>, r: Option<Line>)
    requires |x| == |y| == |w| && WeightsNonNegative(w) && IsFit(x, y, w, r)
    ensures r.Some? <==> TwoAbscissas(x, w, |x|)
  {
    hide Moment, Pairs, Balanced;
    DeterminantIsPairs(x, y, w, |x|);
    PairsSign(x, w, |x|);
    if Moment(x, y, w, 0, 0, |x|) == 0.0 {
      NoWeight(x, y, w, |x|);
    }
  }

  lemma {:induction false} NoWeight(x: seq<real>, y: seq<real>, w: seq<real>, m: nat)
    requires m <= |x| == |y| == |w| && WeightsNonNegative(w)
    ensures Moment(x, y, w, 0, 0, m) >= 0.0
    ensures Moment(x, y, w, 0, 0, m) == 0.0 ==> forall i :: 0 <= i < m ==> w[i] == 0.0
  {
    if m > 0 {
      NoWeight(x, y, w, m - 1);
    }
  }

  lemma UnweightedFitExists(x: seq<real>, y: seq<real>, r: Option<Line>)
    requires |x| == |y| && IsFit(x, y, Ones(|x|), r)
    ensures r.Some? <==> exists i, j :: 0 <= i < j < |x| && x[i] != x[j]
  {
    hide IsFit;
    var w := Ones(|x|);
    FitExists(x, y, w, r);
    assert forall i :: 0 <= i < |x| ==> w[i] == 1.0;
  }

  // Points on a line give back that line, as soon as two of positive weight have different x.
  lemma LineRecovered(x: seq<real>, y: seq<real>, w: seq<real>, r: Option<Line>, slope: real, intercept: real)
    requires |x| == |y| == |w| && WeightsNonNegative(w) && IsFit(x, y, w, r)
    requires forall k :: 0 <= k < |x| ==> y[k] == slope * x[k] + intercept
    requires exists i, j :: 0 <= i < j < |x| && w[i] > 0.0 && w[j] > 0.0 && x[i] != x[j]
    ensures r == Some(Line(slope, intercept))
  {
    hide IsFit;
    var l := Line(slope, intercept);
    FitExists(x, y, w, r);
    assert TwoAbscissas(x, w, |x|);
    OnLine(x, y, w, l, |x|);
    FitIsBest(x, y, w, r.value, l);
    ErrorSign(x, y, w, r.value, |x|);
  }

  lemma {:induction false} OnLine(x: seq<real>, y: seq<real>, w: seq<real>, l: Line, m: nat)
    requires m <= |x| == |y| == |w| && forall k :: 0 <= k < m ==> y[k] == ValueAt(l, x[k])
    ensures LineError(x, y, w, l, m) == 0.0
  {
    hide ValueAt;
    if m > 0 {
      OnLine(x, y, w, l, m - 1);
      assert y[m - 1] - ValueAt(l, x[m - 1]) == 0.0;
    }
  }

  lemma {:induction false} ErrorSign(x: seq<real>, y: seq<real>, w: seq<real>, l: Line, m: nat)
    requires m <= |x| == |y| == |w| && WeightsNonNegative(w)
    ensures LineError(x, y, w, l, m) >= 0.0
  {
    hide ValueAt;
    if m > 0 {
      ErrorSign(x, y, w, l, m - 1);
      WeightedSquare(w[m - 1], y[m - 1] - ValueAt(l, x[m - 1]));
    }
  }
}
