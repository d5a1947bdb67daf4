// common/magcal.go: which samples the fit takes, and what it makes of those it takes.
module MagCalLimits {
  import opened LeastSquares
  import opened LinearSolve
  import opened MagCal
  import opened Magnetometer
  import opened Reals

  // ---- What the pivots need of the samples ----

  ghost predicate Below(data: seq<Sample>, i: nat, b: real)
    requires Shaped(data, 6) && i < 6
  {
    forall k :: 0 <= k < |data| ==> Abs(data[k].row[i]) <= b
  }

  ghost predicate Unweighted(data: seq<Sample>) {
    Shaped(data, 6) && forall k :: 0 <= k < |data| ==> data[k].weight == 1.0
  }

  lemma ProductAtMost(a: real, b: real, f: real, g: real)
    requires Abs(a) <= f && Abs(b) <= g
    ensures Abs(Times(a, b)) <= Times(f, g)
  {
    AbsTimes(a, b);
    TimesGrows(Abs(a), Abs(b), f, g);
  }

  lemma TimesGrows(a: real, b: real, f: real, g: real)
    requires 0.0 <= a <= f && 0.0 <= b <= g
    ensures 0.0 <= Times(a, b) <= Times(f, g)
  {
    assert f * (g - b) >= 0.0 && b * (f - a) >= 0.0 && a * b >= 0.0;
  }

  lemma {:induction false} NormalAtMost(data: seq<Sample>, m: nat, i: nat, j: nat, f: real, g: real)
    requires Unweighted(data) && m <= |data| && i < 6 && j < 6 && Below(data, i, f) && Below(data, j, g)
    ensures Abs(Normal(data, 6, m, i, j)) <= Times(m as real, Times(f, g))
  {
    hide Times, Abs;
    NormalNext(data, m, i, j);
    hide Normal;
    if m == 0 {
      NoEntry(Times(f, g));
    } else {
      NormalAtMost(data, m - 1, i, j, f, g);
      var s := data[m - 1];
      ProductAtMost(s.row[i], s.row[j], f, g);
      OneMoreEntry(Normal(data, 6, m - 1, i, j), s.weight, s.row[i], s.row[j], m, Times(f, g));
    }
  }

  lemma NormalNext(data: seq<Sample>, m: nat, i: nat, j: nat)
    requires Shaped(data, 6) && m <= |data| && i < 6 && j < 6
    ensures Normal(data, 6, m, i, j) == if m == 0 then 0.0 else
              Normal(data, 6, m - 1, i, j) + Times(data[m - 1].weight, Times(data[m - 1].row[i], data[m - 1].row[j]))
  {
  }

  lemma NoEntry(f: real)
    ensures Abs(0.0) == 0.0 == Times(0.0, f)
  {
  }

  lemma OneMoreEntry(n: real, w: real, a: real, b: real, m: nat, f: real)
    requires m > 0 && w == 1.0 && Abs(n) <= Times((m - 1) as real, f) && Abs(Times(a, b)) <= f
    ensures Abs(n + Times(w, Times(a, b))) <= Times(m as real, f)
  {
    hide Times;
    OneTimes(Times(a, b));
    OneMoreTimes(m, f);
  }

  // The samples are refused when one of the six features stays too small against all of them.
  lemma SmallFeatureRefused(data: seq<Sample>, c: nat, f: real, g: real)
    requires Unweighted(data) && c < 6 && Below(data, c, f) && forall i: nat :: i < 6 ==> Below(data, i, g)
    requires Doubled(Times(|data| as real, Times(g, f)), c) < PIVOT_EPS
    ensures !PivotsSuffice(NormalSystem(data, 6))
  {
    hide Normal, Right, Doubled, Below, Times;
    var m, b := NormalSystem(data, 6), Times(|data| as real, Times(g, f));
    forall r: nat | r < 6 ensures Abs(m[r][c]) <= b {
      NormalAtMost(data, |data|, r, c, g, f);
      NormalEntry(data, r, c);
    }
    SmallColumnRefused(m, c, b);
  }

  lemma NormalEntry(data: seq<Sample>, r: nat, c: nat)
    requires Shaped(data, 6) && r < 6 && c < 6
    ensures NormalSystem(data, 6)[r][c] == Normal(data, 6, |data|, r, c)
  {
  }

  // ---- Samples near their mean ----

  function Coordinate(v: Vec3, axis: nat): real {
    if axis == 0 then v.x else if axis == 1 then v.y else v.z
  }

  // Every scaled coordinate of the samples is at most b.
  ghost predicate Within(samples: seq<Vec3>, b: real)
    requires samples != []
  {
    forall k, axis: nat :: 0 <= k < |samples| && axis < 3 ==>
      Abs(Coordinate(Scaled(samples[k], Mean(samples)), axis)) <= b
  }

  lemma FeaturesAtMost(s: Vec3, b: real)
    requires b >= 1.0 && Abs(s.x) <= b && Abs(s.y) <= b && Abs(s.z) <= b
    ensures forall i: nat :: i < 6 ==> Abs(Features(s)[i]) <= Times(b, b)
  {
    ProductAtMost(s.x, s.x, b, b);
    ProductAtMost(s.y, s.y, b, b);
    ProductAtMost(s.z, s.z, b, b);
    AtMostSquare(b);
  }

  lemma AtMostSquare(b: real)
    requires b >= 1.0
    ensures b <= Times(b, b)
  {
    assert b * (b - 1.0) >= 0.0;
  }

  // A sample furthest from the mean along an axis
  lemma {:induction false} Furthest(samples: seq<Vec3>, mean: Vec3, axis: nat, n: nat) returns (k: nat)
    requires 0 < n <= |samples| && axis < 3
    ensures k < n
    ensures forall j :: 0 <= j < n ==>
              Abs(Coordinate(Scaled(samples[j], mean), axis)) <= Abs(Coordinate(Scaled(samples[k], mean), axis))
  {
    hide Coordinate, Scaled, Abs;
    if n == 1 {
      k := 0;
    } else {
      k := Furthest(samples, mean, axis, n - 1);
      if Abs(Coordinate(Scaled(samples[n - 1], mean), axis)) > Abs(Coordinate(Scaled(samples[k], mean), axis)) {
        k := n - 1;
      }
    }
  }

  lemma DataBelow(samples: seq<Vec3>, b: real)
    requires samples != [] && b >= 1.0 && Within(samples, b)
    ensures var data := Data(samples, Mean(samples));
            Unweighted(data) && forall i: nat :: i < 6 ==> Below(data, i, Times(b, b))
  {
    hide Mean, Scaled, Times, Abs;
    var mean := Mean(samples);
    var data := Data(samples, mean);
    forall j, i: nat | 0 <= j < |data| && i < 6 ensures Abs(data[j].row[i]) <= Times(b, b) {
      SampleWithin(samples, b, j);
      FeaturesAtMost(Scaled(samples[j], mean), b);
    }
  }

  lemma AxisBelow(samples: seq<Vec3>, mean: Vec3, axis: nat, x: real)
    requires axis < 3
    requires forall j :: 0 <= j < |samples| ==> Abs(Coordinate(Scaled(samples[j], mean), axis)) <= Abs(x)
    ensures Below(Data(samples, mean), axis, Times(x, x))
  {
    hide Scaled, Times, Abs, Features;
    var data := Data(samples, mean);
    forall j | 0 <= j < |data| ensures Abs(data[j].row[axis]) <= Times(x, x) {
      FeatureIsSquare(Scaled(samples[j], mean), axis);
      SquareAtMost(Coordinate(Scaled(samples[j], mean), axis), x);
    }
  }

  // The samples spread along every axis when the fit is solved.
  lemma SolvableSpreads(samples: seq<Vec3>, b: real, axis: nat) returns (k: nat)
    requires samples != [] && b >= 1.0 && Within(samples, b) && axis < 3 && Solvable(samples)
    ensures k < |samples|
    ensures var x := Coordinate(Scaled(samples[k], Mean(samples)), axis);
            Doubled(Times(|samples| as real, Times(Times(b, b), Times(x, x))), axis) >= PIVOT_EPS
  {
    hide *;
    var mean := Mean(samples);
    k := Furthest(samples, mean, axis, |samples|);
    var x := Coordinate(Scaled(samples[k], mean), axis);
    DataBelow(samples, b);
    AxisBelow(samples, mean, axis, x);
    if Doubled(Times(|samples| as real, Times(Times(b, b), Times(x, x))), axis) < PIVOT_EPS {
      SmallFeatureRefused(Data(samples, mean), axis, Times(x, x), Times(b, b));
      NotSolvable(samples);
    }
  }

  lemma NotSolvable(samples: seq<Vec3>)
    requires samples != [] && !PivotsSuffice(NormalSystem(Data(samples, Mean(samples)), 6))
    ensures !Solvable(samples)
  {
  }

  lemma SampleWithin(samples: seq<Vec3>, b: real, k: nat)
    requires samples != [] && Within(samples, b) && k < |samples|
    ensures var s := Scaled(samples[k], Mean(samples)); Abs(s.x) <= b && Abs(s.y) <= b && Abs(s.z) <= b
  {
    hide Scaled, Mean, Abs;
    var s := Scaled(samples[k], Mean(samples));
    assert Abs(Coordinate(s, 0)) <= b && Abs(Coordinate(s, 1)) <= b && Abs(Coordinate(s, 2)) <= b;
  }

  lemma SquareAtMost(a: real, b: real)
    requires Abs(a) <= Abs(b)
    ensures Abs(Times(a, a)) <= Times(b, b)
  {
    ProductAtMost(a, a, Abs(b), Abs(b));
  }

  lemma FeatureIsSquare(s: Vec3, axis: nat)
    requires axis < 3
    ensures Features(s)[axis] == Times(Coordinate(s, axis), Coordinate(s, axis))
  {
  }

  // ---- The surface of least error stays close to the samples ----

  function Origin(): (p: seq<real>)
    ensures |p| == 6
  {
    seq(6, _ => 0.0)
  }

  ghost predicate Wanted(data: seq<Sample>) {
    Unweighted(data) && forall k :: 0 <= k < |data| ==> data[k].target == 1.0
  }

  lemma {:induction false} DotOrigin(row: seq<real>, k: nat)
    requires k <= 6 <= |row|
    ensures Dot(row, Origin(), k) == 0.0
  {
    if k > 0 {
      DotOrigin(row, k - 1);
    }
  }

  // Without coefficients every sample is off by one.
  lemma {:induction false} ErrorAtOrigin(data: seq<Sample>, m: nat)
    requires Wanted(data) && m <= |data|
    ensures Error(data, Origin(), m) == m as real
  {
    hide Dot, Origin;
    if m > 0 {
      ErrorAtOrigin(data, m - 1);
      DotOrigin(data[m - 1].row, 6);
    }
  }

  lemma {:induction false} ResidualAtMost(data: seq<Sample>, p: seq<real>, m: nat, k: nat)
    requires Unweighted(data) && |p| == 6 && k < m <= |data|
    ensures Times(Residual(data[k], p), Residual(data[k], p)) <= Error(data, p, m)
    ensures Error(data, p, m - 1) >= 0.0
  {
    hide Residual, Times;
    ErrorSign(data, p, m - 1);
    OneTimes(Times(Residual(data[m - 1], p), Residual(data[m - 1], p)));
    TimesSign(Residual(data[m - 1], p), Residual(data[m - 1], p));
    if k < m - 1 {
      ResidualAtMost(data, p, m - 1, k);
    }
  }

  lemma {:induction false} ErrorSign(data: seq<Sample>, p: seq<real>, m: nat)
    requires Unweighted(data) && |p| == 6 && m <= |data|
    ensures Error(data, p, m) >= 0.0
  {
    hide Residual, Times;
    if m > 0 {
      ErrorSign(data, p, m - 1);
      var r := Residual(data[m - 1], p);
      OneTimes(Times(r, r));
      TimesSign(r, r);
    }
  }

  lemma OneTimes(a: real)
    ensures Times(1.0, a) == a
  {
  }

  lemma ResidualIsQuadric(p: seq<real>, s: Vec3)
    requires |p| == 6
    ensures Residual(Sample(Features(s), 1.0, 1.0), p) == Quadric(p, s) - 1.0
  {
    hide Dot;
    var v := Features(s);
    DotNext(v, p, 0);
    DotNext(v, p, 1);
    DotNext(v, p, 2);
    DotNext(v, p, 3);
    DotNext(v, p, 4);
    DotNext(v, p, 5);
    NoDot(v, p);
    assert Times(v[0], p[0]) == p[0] * s.x * s.x && Times(v[1], p[1]) == p[1] * s.y * s.y;
    assert Times(v[2], p[2]) == p[2] * s.z * s.z && Times(v[3], p[3]) == p[3] * s.x;
    assert Times(v[4], p[4]) == p[4] * s.y && Times(v[5], p[5]) == p[5] * s.z;
    hide Times;
  }

  lemma DotNext(u: seq<real>, v: seq<real>, n: nat)
    requires n < |u| && n < |v|
    ensures Dot(u, v, n + 1) == Dot(u, v, n) + Times(u[n], v[n])
  {
  }

  lemma NoDot(u: seq<real>, v: seq<real>)
    ensures Dot(u, v, 0) == 0.0
  {
  }

  lemma RootAtMost(r: real, n: real)
    requires n >= 1.0 && Times(r, r) <= n
    ensures r <= n
  {
    if r > n {
      LargerSquare(n, r);
      AtMostSquare(n);
    }
  }

  lemma FittedIsClose(samples: seq<Vec3>, p: seq<real>, k: nat)
    requires k < |samples| && Fitted(samples, p)
    ensures Quadric(p, Scaled(samples[k], Mean(samples))) - 1.0 <= |samples| as real
  {
    hide Mean, Scaled, Features, Quadric, Error, Times, Residual;
    var n, data := |samples|, Data(samples, Mean(samples));
    ErrorAtOrigin(data, n);
    assert |Origin()| == |p|;
    ResidualAtMost(data, p, n, k);
    ResidualIsQuadric(p, Scaled(samples[k], Mean(samples)));
    RootAtMost(Residual(data[k], p), n as real);
  }

  // What an axis has of the quadric, in terms of the centre
  lemma AxisSquares(a: real, d: real, x: real)
    requires a > 0.0
    ensures var c := Centre(a, d);
            && AxisTerm(a, d, x) == Times(a, Times(x - c, x - c)) - Times(a, Times(c, c))
            && Times(a, Times(x - c, x - c)) >= 0.0 && Times(a, Times(c, c)) >= 0.0
            && Times(a, Times(x, x)) <= 2.0 * Times(a, Times(x - c, x - c)) + 2.0 * Times(a, Times(c, c))
  {
    var c := Centre(a, d);
    CompleteSquare(a, d, x);
    Regrouped(a, x - c, c);
    SquareSign(a, x - c);
    SquareSign(a, c);
    SquareSign(a, x - c - c);
    SquareOfSum(a, x - c, c);
  }

  lemma Regrouped(a: real, e: real, c: real)
    ensures a * (e * e) == Times(a, Times(e, e)) && a * c * c == Times(a, Times(c, c))
  {
  }

  lemma SquareSign(a: real, c: real)
    requires a > 0.0
    ensures Times(a, Times(c, c)) >= 0.0
  {
    hide Times;
    TimesSign(c, c);
    TimesSign(a, Times(c, c));
  }

  lemma SquareOfSum(a: real, e: real, c: real)
    ensures Times(a, Times(e + c, e + c)) + Times(a, Times(e - c, e - c))
            == 2.0 * Times(a, Times(e, e)) + 2.0 * Times(a, Times(c, c))
  {
    assert a * ((e + c) * (e + c)) + a * ((e - c) * (e - c)) == 2.0 * (a * (e * e)) + 2.0 * (a * (c * c));
  }

  // ---- No semi-axis of an accepted fit is tiny ----

  lemma QuadricBySquares(p: seq<real>, s: Vec3)
    requires Ellipsoid(p)
    ensures var cx, cy, cz := Centre(p[0], p[3]), Centre(p[1], p[4]), Centre(p[2], p[5]);
            && KOf(p) == 1.0 + Times(p[0], Times(cx, cx)) + Times(p[1], Times(cy, cy)) + Times(p[2], Times(cz, cz))
            && Quadric(p, s) == Times(p[0], Times(s.x - cx, s.x - cx)) + Times(p[1], Times(s.y - cy, s.y - cy))
                                + Times(p[2], Times(s.z - cz, s.z - cz)) - (KOf(p) - 1.0)
  {
    hide Centre;
    var cx, cy, cz := Centre(p[0], p[3]), Centre(p[1], p[4]), Centre(p[2], p[5]);
    AxisSquares(p[0], p[3], s.x);
    AxisSquares(p[1], p[4], s.y);
    AxisSquares(p[2], p[5], s.z);
    KBySquares(p, cx, cy, cz);
    QuadricByAxes(p, s);
    hide Times, KOf, Quadric, AxisTerm;
  }

  lemma KBySquares(p: seq<real>, cx: real, cy: real, cz: real)
    requires Ellipsoid(p) && cx == Centre(p[0], p[3]) && cy == Centre(p[1], p[4]) && cz == Centre(p[2], p[5])
    ensures KOf(p) == 1.0 + Times(p[0], Times(cx, cx)) + Times(p[1], Times(cy, cy)) + Times(p[2], Times(cz, cz))
  {
    KFromCentres(p, cx, cy, cz);
    Regrouped(p[0], cx, cx);
    Regrouped(p[1], cy, cy);
    Regrouped(p[2], cz, cz);
    hide KOf, Times, Centre;
  }

  // The ellipsoid is at least as wide along an axis as a sample that is close to its surface is far out.
  lemma ReachesOut(p: seq<real>, s: Vec3, axis: nat, n: real)
    requires Ellipsoid(p) && axis < 3 && n >= 1.0 && Quadric(p, s) - 1.0 <= n
    ensures var x := Coordinate(s, axis); Times(p[axis], Times(x, x)) <= Times(2.0 * (n + 1.0), KOf(p))
  {
    hide Centre, Times, Quadric, KOf;
    QuadricBySquares(p, s);
    AxisSquares(p[0], p[3], s.x);
    AxisSquares(p[1], p[4], s.y);
    AxisSquares(p[2], p[5], s.z);
    KIsPositive(p);
    Enough(n, KOf(p));
  }

  lemma Enough(n: real, k: real)
    requires n >= 1.0 && k >= 1.0
    ensures 2.0 * (n + k) + 2.0 * (k - 1.0) <= Times(2.0 * (n + 1.0), k)
  {
    assert 2.0 * (n - 1.0) * (k - 1.0) >= 0.0;
    assert 2.0 * (n + 1.0) * k == 2.0 * (n + k) + 2.0 * (k - 1.0) + 2.0 * (n - 1.0) * (k - 1.0);
  }

  // Few enough samples, close enough to their mean
  predicate Moderate(n: nat, b: real) {
    b >= 1.0 && Times(Times(8.0 * n as real, n as real + 1.0), Times(b, b)) <= 1000000000000000000.0
  }

  lemma AxisWide(a: real, k: real, xx: real, bb: real, n: real)
    requires a > 0.0 && k >= 1.0 && n >= 1.0 && bb >= 1.0 && xx >= 0.0
    requires Times(a, xx) <= Times(2.0 * (n + 1.0), k)
    requires 4.0 * Times(n, Times(bb, xx)) >= PIVOT_EPS
    requires Times(Times(8.0 * n, n + 1.0), bb) <= 1000000000000000000.0
    ensures k / a >= 0.000000000000000000000000000001
  {
    hide Times;
    var m, q := 2.0 * (n + 1.0), k / a;
    PositiveQuotient(k, a);
    AxisShare(a, k, xx, m);
    TimesGrows(bb, xx, bb, Times(m, q));
    TimesGrows(n, Times(bb, xx), n, Times(bb, Times(m, q)));
    FactorsOut(n, bb, q);
    NotTiny(Times(Times(8.0 * n, n + 1.0), bb), q);
  }

  lemma AxisShare(a: real, k: real, xx: real, m: real)
    requires a > 0.0 && Times(a, xx) <= Times(m, k)
    ensures xx <= Times(m, k / a)
  {
    var q := k / a;
    QuotientTimes(k, a);
    assert a * (m * q - xx) == m * (q * a) - a * xx;
    FactorSign(a, m * q - xx);
  }

  lemma FactorsOut(n: real, bb: real, q: real)
    ensures 4.0 * Times(n, Times(bb, Times(2.0 * (n + 1.0), q))) == Times(Times(Times(8.0 * n, n + 1.0), bb), q)
  {
    assert 4.0 * (n * (bb * (2.0 * (n + 1.0) * q))) == 8.0 * n * (n + 1.0) * bb * q;
  }

  lemma NotTiny(c: real, q: real)
    requires c <= 1000000000000000000.0 && q > 0.0 && Times(c, q) >= PIVOT_EPS
    ensures q >= 0.000000000000000000000000000001
  {
    assert (1000000000000000000.0 - c) * q >= 0.0;
  }

  lemma FactorSign(a: real, t: real)
    requires a > 0.0 && a * t >= 0.0
    ensures t >= 0.0
  {
  }

  lemma RootWide(sqrt: real -> real, q: real)
    requires IsSqrt(sqrt) && q >= 0.000000000000000000000000000001
    ensures sqrt(q) * SCALE >= EPS
  {
    var r := 0.000000000000001;
    assert Times(r, r) == 0.000000000000000000000000000001;
    RootPositive(sqrt, q);
    if sqrt(q) < r {
      LargerSquare(sqrt(q), r);
    }
  }

  lemma DoubledAtMost(b: real, axis: nat)
    requires axis < 3 && b >= 0.0
    ensures Doubled(b, axis) <= 4.0 * b
  {
    assert Doubled(b, 0) == b && Doubled(b, 1) == 2.0 * b && Doubled(b, 2) == 4.0 * b;
  }

  lemma AxisRegular(samples: seq<Vec3>, b: real, p: seq<real>, axis: nat)
    requires samples != [] && Within(samples, b) && Moderate(|samples|, b)
    requires Solvable(samples) && Fitted(samples, p) && Ellipsoid(p) && axis < 3
    ensures KOf(p) / p[axis] >= 0.000000000000000000000000000001
  {
    hide Within, Solvable, Fitted, Times, KOf, Quadric, Mean, Scaled, Coordinate, Doubled;
    var n := |samples| as real;
    var k := SolvableSpreads(samples, b, axis);
    var s := Scaled(samples[k], Mean(samples));
    var x := Coordinate(s, axis);
    FittedIsClose(samples, p, k);
    ReachesOut(p, s, axis, n);
    KIsPositive(p);
    AtMostSquare(b);
    TimesSign(x, x);
    TimesGrows(0.0, 0.0, Times(b, b), Times(x, x));
    TimesGrows(0.0, 0.0, n, Times(Times(b, b), Times(x, x)));
    DoubledAtMost(Times(n, Times(Times(b, b), Times(x, x))), axis);
    AxisWide(p[axis], KOf(p), Times(x, x), Times(b, b), n);
  }

  // Every accepted fit of such samples is above the guard of CalibrateFromMag.
  lemma AcceptedIsRegular(samples: seq<Vec3>, b: real, p: seq<real>, sqrt: real -> real)
    requires samples != [] && Within(samples, b) && Moderate(|samples|, b) && IsSqrt(sqrt)
    requires Solvable(samples) && Fitted(samples, p) && Ellipsoid(p)
    ensures Regular(CalibrationOf(p, Mean(samples), sqrt))
  {
    hide Within, Moderate, Solvable, Fitted, KOf, Mean, Centre;
    AxisRegular(samples, b, p, 0);
    AxisRegular(samples, b, p, 1);
    AxisRegular(samples, b, p, 2);
    RootWide(sqrt, KOf(p) / p[0]);
    RootWide(sqrt, KOf(p) / p[1]);
    RootWide(sqrt, KOf(p) / p[2]);
  }

  // So the calibrated magnitude is 1 exactly on the fitted surface.
  lemma AcceptedIsUnit(samples: seq<Vec3>, b: real, p: seq<real>, sqrt: real -> real, v: Vec3)
    requires samples != [] && Within(samples, b) && Moderate(|samples|, b) && IsSqrt(sqrt)
    requires Solvable(samples) && Fitted(samples, p) && Ellipsoid(p)
    ensures Magnitude(CalibrationOf(p, Mean(samples), sqrt), v, sqrt) == 1.0
            <==> Quadric(p, Scaled(v, Mean(samples))) == 1.0
  {
    hide *;
    AcceptedIsRegular(samples, b, p, sqrt);
    UnitExactlyOnSurface(p, Mean(samples), sqrt, v);
  }

  // ---- The readings of a sensor of 16 bits ----

  ghost predicate Readings(samples: seq<Vec3>, b: real) {
    forall k, axis: nat :: 0 <= k < |samples| && axis < 3 ==> Abs(Coordinate(samples[k], axis)) <= b
  }

  lemma {:induction false} SumAtMost(samples: seq<Vec3>, n: nat, axis: nat, b: real)
    requires Readings(samples, b) && n <= |samples| && axis < 3
    ensures Abs(Coordinate(SumOf(samples, n), axis)) <= Times(n as real, b)
  {
    hide Times;
    if n == 0 {
      NoEntry(b);
    } else {
      SumAtMost(samples, n - 1, axis, b);
      assert Abs(Coordinate(samples[n - 1], axis)) <= b;
      OneMoreTimes(n, b);
    }
  }

  lemma OneMoreTimes(n: nat, b: real)
    requires n > 0
    ensures Times(n as real, b) == Times((n - 1) as real, b) + b
  {
    assert n as real * b == (n - 1) as real * b + b;
  }

  lemma MeanAtMost(samples: seq<Vec3>, axis: nat, b: real)
    requires samples != [] && Readings(samples, b) && axis < 3
    ensures Abs(Coordinate(Mean(samples), axis)) <= b
  {
    hide Times, SumOf;
    SumAtMost(samples, |samples|, axis, b);
    QuotientAtMost(Coordinate(SumOf(samples, |samples|), axis), |samples| as real, b);
  }

  lemma QuotientAtMost(a: real, n: real, b: real)
    requires n > 0.0 && Abs(a) <= Times(n, b)
    ensures Abs(a / n) <= b
  {
    var q := a / n;
    QuotientTimes(a, n);
    assert n * (b - q) >= 0.0 && n * (b + q) >= 0.0;
    FactorSign(n, b - q);
    FactorSign(n, b + q);
  }

  lemma ReadingsWithin(samples: seq<Vec3>)
    requires samples != [] && Readings(samples, 32768.0)
    ensures Within(samples, 65.536)
  {
    hide Mean;
    forall k, axis: nat | 0 <= k < |samples| && axis < 3
      ensures Abs(Coordinate(Scaled(samples[k], Mean(samples)), axis)) <= 65.536
    {
      MeanAtMost(samples, axis, 32768.0);
      assert Abs(Coordinate(samples[k], axis)) <= 32768.0;
    }
  }

  // Of up to five million such readings every accepted fit calibrates exactly its surface to magnitude 1.
  lemma ReadingsAreUnit(samples: seq<Vec3>, p: seq<real>, sqrt: real -> real, v: Vec3)
    requires 0 < |samples| <= 5000000 && Readings(samples, 32768.0) && IsSqrt(sqrt)
    requires Solvable(samples) && Fitted(samples, p) && Ellipsoid(p)
    ensures Magnitude(CalibrationOf(p, Mean(samples), sqrt), v, sqrt) == 1.0
            <==> Quadric(p, Scaled(v, Mean(samples))) == 1.0
  {
    hide *;
    ReadingsWithin(samples);
    FewEnough(|samples|);
    AcceptedIsUnit(samples, 65.536, p, sqrt, v);
  }

  lemma FewEnough(n: nat)
    requires n <= 5000000
    ensures Moderate(n, 65.536)
  {
    hide Times;
    var m := n as real;
    TimesGrows(8.0 * m, m + 1.0, 40000000.0, 5000001.0);
    TimesGrows(65.536, 65.536, 65.536, 65.536);
    TimesGrows(Times(8.0 * m, m + 1.0), Times(65.536, 65.536), Times(40000000.0, 5000001.0), Times(65.536, 65.536));
    assert Times(Times(40000000.0, 5000001.0), Times(65.536, 65.536)) <= 1000000000000000000.0 by {
      LargestProduct();
    }
  }

  lemma LargestProduct()
    ensures Times(Times(40000000.0, 5000001.0), Times(65.536, 65.536)) <= 1000000000000000000.0
  {
  }
}
