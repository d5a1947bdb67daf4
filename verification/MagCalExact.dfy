// common/magcal.go: what the fit does with the samples themselves. Where they are centred does not show
// in the answer, and samples that lie on an ellipsoid give back that ellipsoid.
module MagCalExact {
  import opened LeastSquares
  import opened LinearSolve
  import opened MagCal
  import opened MagCalLimits
  import opened Magnetometer
  import opened Reals

  // ---- The mean ----

  // The differences of the first n samples from m along one axis, added up
  function Deviation(samples: seq<Vec3>, m: Vec3, axis: nat, n: nat): real
    requires n <= |samples|
  {
    if n == 0 then 0.0
    else Deviation(samples, m, axis, n - 1) + (Coordinate(samples[n - 1], axis) - Coordinate(m, axis))
  }

  lemma {:induction false} DeviationIs(samples: seq<Vec3>, m: Vec3, axis: nat, n: nat)
    requires n <= |samples|
    ensures Deviation(samples, m, axis, n)
         == Coordinate(SumOf(samples, n), axis) - Times(n as real, Coordinate(m, axis))
  {
    if n > 0 {
      DeviationIs(samples, m, axis, n - 1);
      var c := Coordinate(m, axis);
      assert n as real * c == (n - 1) as real * c + c;
    }
  }

  // The mean is the one point from which the samples deviate by nothing in all, along every axis.
  lemma OnlyMean(samples: seq<Vec3>, m: Vec3)
    requires samples != []
    ensures m == Mean(samples) <==> forall axis: nat :: axis < 3 ==> Deviation(samples, m, axis, |samples|) == 0.0
  {
    hide SumOf, Deviation;
    var n, sum := |samples| as real, SumOf(samples, |samples|);
    forall axis: nat | axis < 3
      ensures Deviation(samples, m, axis, |samples|) == 0.0
              <==> Coordinate(m, axis) == Coordinate(sum, axis) / n
    {
      DeviationIs(samples, m, axis, |samples|);
      OnlyShare(Coordinate(sum, axis), n, Coordinate(m, axis));
    }
    assert Deviation(samples, m, 0, |samples|) == 0.0 <==> m.x == sum.x / n;
    assert Deviation(samples, m, 1, |samples|) == 0.0 <==> m.y == sum.y / n;
    assert Deviation(samples, m, 2, |samples|) == 0.0 <==> m.z == sum.z / n;
  }

  lemma OnlyShare(a: real, n: real, x: real)
    requires n > 0.0
    ensures a - Times(n, x) == 0.0 <==> x == a / n
  {
    QuotientTimes(a, n);
    if a == n * x {
      assert n * (x - a / n) == 0.0;
      ZeroFactor(n, x - a / n);
    }
  }

  // ---- Moved samples ----

  function Plus(v: Vec3, t: Vec3): Vec3 {
    Vec3(v.x + t.x, v.y + t.y, v.z + t.z)
  }

  function Moved(samples: seq<Vec3>, t: Vec3): (moved: seq<Vec3>)
    ensures |moved| == |samples|
  {
    seq(|samples|, k requires 0 <= k < |samples| => Plus(samples[k], t))
  }

  lemma {:induction false} MovedDeviation(samples: seq<Vec3>, t: Vec3, m: Vec3, axis: nat, n: nat)
    requires n <= |samples|
    ensures Deviation(Moved(samples, t), Plus(m, t), axis, n) == Deviation(samples, m, axis, n)
  {
    if n > 0 {
      MovedDeviation(samples, t, m, axis, n - 1);
    }
  }

  lemma MovedMean(samples: seq<Vec3>, t: Vec3)
    requires samples != []
    ensures Mean(Moved(samples, t)) == Plus(Mean(samples), t)
  {
    hide Mean, Deviation, Moved;
    var m := Mean(samples);
    OnlyMean(samples, m);
    OnlyMean(Moved(samples, t), Plus(m, t));
    forall axis: nat | axis < 3 ensures Deviation(Moved(samples, t), Plus(m, t), axis, |samples|) == 0.0 {
      MovedDeviation(samples, t, m, axis, |samples|);
    }
  }

  // Moving all samples leaves the system and its solution as they are and moves the centre along.
  lemma MovedFit(samples: seq<Vec3>, t: Vec3, p: seq<real>, sqrt: real -> real)
    requires samples != []
    ensures var moved := Moved(samples, t);
            && (Solvable(moved) <==> Solvable(samples)) && (Fitted(moved, p) <==> Fitted(samples, p))
            && (Ellipsoid(p) ==>
                  var before, after := CalibrationOf(p, Mean(samples), sqrt), CalibrationOf(p, Mean(moved), sqrt);
                  after == MagCalibration(Plus(before.centre, t), before.semi))
  {
    var moved, m := Moved(samples, t), Mean(samples);
    MovedMean(samples, t);
    hide Mean, NormalSystem, PivotsSuffice, OnlyMinimiser, Features, KOf, Centre;
    assert Data(moved, Plus(m, t)) == Data(samples, m) by {
      forall k | 0 <= k < |samples| ensures Scaled(moved[k], Plus(m, t)) == Scaled(samples[k], m) {
      }
    }
  }

  // ---- Samples on a surface ----

  // A fit without any error is the fit.
  lemma ExactFit(samples: seq<Vec3>, p: seq<real>)
    requires samples != [] && |p| == 6 && Solvable(samples)
    requires forall k :: 0 <= k < |samples| ==> Quadric(p, Scaled(samples[k], Mean(samples))) == 1.0
    ensures Fitted(samples, p)
  {
    hide Mean, Quadric, Scaled, Features, PivotOf, Error, NormalSystem, SolvesNormal, Residual, Minimises;
    var data := Data(samples, Mean(samples));
    var x := EliminatedSolution(NormalSystem(data, 6));
    SolutionLength(data, x);
    SolutionMinimises(data, x);
    forall k | 0 <= k < |data| ensures Residual(data[k], p) == 0.0 {
      ResidualIsQuadric(p, Scaled(samples[k], Mean(samples)));
    }
    NoError(data, p, |data|);
    ErrorSign(data, x, |data|);
  }

  lemma SolutionLength(data: seq<Sample>, x: seq<real>)
    requires Shaped(data, 6) && OnlySolution(NormalSystem(data, 6), x)
    ensures |x| == 6
  {
  }

  lemma {:induction false} NoError(data: seq<Sample>, p: seq<real>, m: nat)
    requires Unweighted(data) && |p| == 6 && m <= |data| && forall k :: 0 <= k < m ==> Residual(data[k], p) == 0.0
    ensures Error(data, p, m) == 0.0
  {
    hide Residual;
    if m > 0 {
      NoError(data, p, m - 1);
    }
  }

  // ---- Samples on an ellipsoid ----

  function Part(s: real, c: real, r: real): real
    requires r > 0.0
  {
    Times((s - c) / r, (s - c) / r)
  }

  ghost predicate Positive(r: Vec3) {
    r.x > 0.0 && r.y > 0.0 && r.z > 0.0
  }

  // 1 on the ellipsoid with the centre c and the semi-axes r, less inside
  function Level(v: Vec3, c: Vec3, r: Vec3): real
    requires Positive(r)
  {
    Part(v.x, c.x, r.x) + Part(v.y, c.y, r.y) + Part(v.z, c.z, r.z)
  }

  // The parts of the first n samples along one axis, added up
  function Parts(samples: seq<Vec3>, c: real, r: real, axis: nat, n: nat): real
    requires n <= |samples| && r > 0.0
  {
    if n == 0 then 0.0 else Parts(samples, c, r, axis, n - 1) + Part(Coordinate(samples[n - 1], axis), c, r)
  }

  // Measured from c instead of from m, the parts grow by that of m itself and a term that vanishes
  // when m is the mean.
  lemma {:induction false} PartsAbout(samples: seq<Vec3>, m: Vec3, c: real, r: real, axis: nat, n: nat)
    requires n <= |samples| && r > 0.0
    ensures var h := Coordinate(m, axis);
            Parts(samples, c, r, axis, n)
            == Times(n as real, Part(h, c, r)) + 2.0 * Times((h - c) / r, Deviation(samples, m, axis, n) / r)
               + Parts(samples, h, r, axis, n)
  {
    hide Coordinate, Part;
    var h := Coordinate(m, axis);
    if n == 0 {
      NoDeviation((h - c) / r, r, Part(h, c, r));
    } else {
      PartsAbout(samples, m, c, r, axis, n - 1);
      var s := Coordinate(samples[n - 1], axis);
      PartAbout(s, h, c, r);
      MoreDeviation((h - c) / r, Deviation(samples, m, axis, n - 1), s - h, r);
      NextTimes(n, Part(h, c, r));
    }
  }

  lemma NoDeviation(w: real, r: real, q: real)
    requires r > 0.0
    ensures Times(0.0, q) == 0.0 && Times(w, 0.0 / r) == 0.0
  {
  }

  lemma PartAbout(s: real, h: real, c: real, r: real)
    requires r > 0.0
    ensures Part(s, c, r) == Part(h, c, r) + 2.0 * Times((h - c) / r, (s - h) / r) + Part(s, h, r)
  {
    var w, u := (h - c) / r, (s - h) / r;
    assert (s - c) / r == w + u;
    assert (w + u) * (w + u) == w * w + 2.0 * (w * u) + u * u;
  }

  lemma MoreDeviation(w: real, d: real, e: real, r: real)
    requires r > 0.0
    ensures Times(w, (d + e) / r) == Times(w, d / r) + Times(w, e / r)
  {
    assert (d + e) / r == d / r + e / r;
    assert w * (d / r + e / r) == w * (d / r) + w * (e / r);
  }

  lemma NextTimes(n: nat, q: real)
    requires n > 0
    ensures Times(n as real, q) == Times((n - 1) as real, q) + q
  {
    assert n as real * q == (n - 1) as real * q + q;
  }

  lemma {:induction false} PartsSign(samples: seq<Vec3>, c: real, r: real, axis: nat, n: nat)
    requires n <= |samples| && r > 0.0
    ensures Parts(samples, c, r, axis, n) >= 0.0
    ensures Parts(samples, c, r, axis, n) == 0.0 ==> forall k :: 0 <= k < n ==> Coordinate(samples[k], axis) == c
  {
    hide Coordinate, Part;
    if n > 0 {
      PartsSign(samples, c, r, axis, n - 1);
      PartSign(Coordinate(samples[n - 1], axis), c, r);
    }
  }

  lemma PartSign(s: real, c: real, r: real)
    requires r > 0.0
    ensures Part(s, c, r) >= 0.0 && (Part(s, c, r) == 0.0 ==> s == c)
  {
    var u := (s - c) / r;
    TimesSign(u, u);
    QuotientTimes(s - c, r);
  }

  // All on the ellipsoid: the parts along the three axes add up to the number of samples.
  lemma {:induction false} AllOn(samples: seq<Vec3>, c: Vec3, r: Vec3, n: nat)
    requires n <= |samples| && Positive(r) && forall k :: 0 <= k < |samples| ==> Level(samples[k], c, r) == 1.0
    ensures Parts(samples, c.x, r.x, 0, n) + Parts(samples, c.y, r.y, 1, n) + Parts(samples, c.z, r.z, 2, n)
         == n as real
  {
    hide Part;
    if n > 0 {
      AllOn(samples, c, r, n - 1);
      assert Level(samples[n - 1], c, r) == 1.0;
    }
  }

  // The mean of samples on an ellipsoid lies inside, unless they are all the same point.
  lemma MeanInside(samples: seq<Vec3>, c: Vec3, r: Vec3)
    requires samples != [] && Positive(r) && Solvable(samples)
    requires forall k :: 0 <= k < |samples| ==> Level(samples[k], c, r) == 1.0
    ensures Level(Mean(samples), c, r) < 1.0
  {
    var m, n := Mean(samples), |samples|;
    OnlyMean(samples, m);
    hide Mean, Solvable, Deviation, Part, Parts;
    AllOn(samples, c, r, n);
    PartsAbout(samples, m, c.x, r.x, 0, n);
    PartsAbout(samples, m, c.y, r.y, 1, n);
    PartsAbout(samples, m, c.z, r.z, 2, n);
    assert Deviation(samples, m, 0, n) == Deviation(samples, m, 1, n) == Deviation(samples, m, 2, n) == 0.0;
    NoDeviation((m.x - c.x) / r.x, r.x, 0.0);
    NoDeviation((m.y - c.y) / r.y, r.y, 0.0);
    NoDeviation((m.z - c.z) / r.z, r.z, 0.0);
    PartsSign(samples, m.x, r.x, 0, n);
    PartsSign(samples, m.y, r.y, 1, n);
    PartsSign(samples, m.z, r.z, 2, n);
    var spread := Parts(samples, m.x, r.x, 0, n) + Parts(samples, m.y, r.y, 1, n) + Parts(samples, m.z, r.z, 2, n);
    if spread == 0.0 {
      OnePoint(samples, m);
    }
    BelowOne(n as real, Part(m.x, c.x, r.x), Part(m.y, c.y, r.y), Part(m.z, c.z, r.z), spread);
  }

  lemma BelowOne(n: real, a: real, b: real, c: real, spread: real)
    requires n > 0.0 && spread > 0.0 && n == Times(n, a) + Times(n, b) + Times(n, c) + spread
    ensures a + b + c < 1.0
  {
    var t := 1.0 - (a + b + c);
    assert n * t == spread;
    FactorSign(n, t);
  }

  lemma OnePoint(samples: seq<Vec3>, m: Vec3)
    requires samples != [] && m == Mean(samples) && Solvable(samples)
    ensures exists k :: 0 <= k < |samples| && samples[k] != m
  {
    if forall k :: 0 <= k < |samples| ==> samples[k] == m {
      var data, d := Data(samples, m), [1.0, 0.0, 0.0, 0.0, 0.0, 0.0];
      hide Mean, Unconstrained, PivotsSuffice, Singular;
      forall k | 0 <= k < |data| ensures Unchanged(data, d, k) {
        assert data[k].row[0] == 0.0;
        FirstOnly(data[k].row, d, 6);
      }
      assert NonZero(d) by {
        assert d[0] != 0.0;
      }
      assert Free(data, d);
      assert Unconstrained(data, 6) by {
        SomeFree(data, d);
      }
      SingularIsUnconstrained(data, 6);
      RefusedExactly(NormalSystem(data, 6));
    }
  }

  lemma SomeFree(data: seq<Sample>, d: seq<real>)
    requires Shaped(data, 6) && |d| == 6 && NonZero(d) && Free(data, d)
    ensures Unconstrained(data, 6)
  {
  }

  lemma {:induction false} FirstOnly(row: seq<real>, d: seq<real>, k: nat)
    requires k <= |d| <= |row| && d != [] && row[0] == 0.0 && forall i :: 1 <= i < |d| ==> d[i] == 0.0
    ensures Dot(row, d, k) == 0.0
  {
    if k > 0 {
      FirstOnly(row, d, k - 1);
    }
  }

  // ---- Its coefficients, and back ----

  // The coefficient of the square along one axis: a (r / 1000)^2 d == 1
  function SquareCoefficient(r: real, d: real): (a: real)
    requires r > 0.0 && d > 0.0
    ensures a > 0.0 && Times(a, Times(Times(r / SCALE, r / SCALE), d)) == 1.0
  {
    TimesSign(r / SCALE, r / SCALE);
    TimesSign(Times(r / SCALE, r / SCALE), d);
    var q := Times(Times(r / SCALE, r / SCALE), d);
    PositiveQuotient(1.0, q);
    QuotientTimes(1.0, q);
    1.0 / q
  }

  function LineCoefficient(m: real, c: real, a: real): real {
    -2.0 * Times(a, (c - m) / SCALE)
  }

  // Along one axis the fit with these coefficients is the part of the sample less that of the mean.
  lemma AxisFit(s: real, m: real, c: real, r: real, d: real)
    requires r > 0.0 && d > 0.0
    ensures var a := SquareCoefficient(r, d);
            Times(d, AxisTerm(a, LineCoefficient(m, c, a), (s - m) / SCALE)) == Part(s, c, r) - Part(m, c, r)
  {
    var a, u, w, q := SquareCoefficient(r, d), (s - c) / r, (m - c) / r, r / SCALE;
    AxisPoint(s, m, c, r);
    AxisPoint(c, m, c, r);
    hide SquareCoefficient;
    var x, g := (s - m) / SCALE, (c - m) / SCALE;
    assert x == q * (u - w) && g == -(q * w);
    AxisProduct(a, q, u, w, d);
  }

  lemma AxisPoint(s: real, m: real, c: real, r: real)
    requires r > 0.0
    ensures (s - m) / SCALE == r / SCALE * ((s - c) / r - (m - c) / r)
  {
    QuotientTimes(s - c, r);
    QuotientTimes(m - c, r);
    var u, w := (s - c) / r, (m - c) / r;
    assert s - m == r * (u - w);
    assert r * (u - w) / SCALE == r / SCALE * (u - w);
  }

  lemma AxisProduct(a: real, q: real, u: real, w: real, d: real)
    requires Times(a, Times(Times(q, q), d)) == 1.0
    ensures var x, g := q * (u - w), -(q * w);
            Times(d, AxisTerm(a, -2.0 * Times(a, g), x)) == Times(u, u) - Times(w, w)
  {
    var x, g := q * (u - w), -(q * w);
    assert x * x - 2.0 * (g * x) == q * q * (u * u - w * w);
    assert a * x * x + -2.0 * (a * g) * x == a * (x * x - 2.0 * (g * x));
    assert d * (a * (q * q * (u * u - w * w))) == a * (q * q * d) * (u * u - w * w);
  }

  // The coefficients of the ellipsoid in the coordinates of the fit; d is how far inside the mean lies.
  function CoefficientsOf(m: Vec3, c: Vec3, r: Vec3, d: real): (p: seq<real>)
    requires Positive(r) && d > 0.0
    ensures Ellipsoid(p)
  {
    var ax, ay, az := SquareCoefficient(r.x, d), SquareCoefficient(r.y, d), SquareCoefficient(r.z, d);
    [ax, ay, az, LineCoefficient(m.x, c.x, ax), LineCoefficient(m.y, c.y, ay), LineCoefficient(m.z, c.z, az)]
  }

  lemma FitOfPoint(v: Vec3, m: Vec3, c: Vec3, r: Vec3)
    requires Positive(r) && Level(m, c, r) < 1.0 && Level(v, c, r) == 1.0
    ensures Quadric(CoefficientsOf(m, c, r, 1.0 - Level(m, c, r)), Scaled(v, m)) == 1.0
  {
    var d := 1.0 - Level(m, c, r);
    var p := CoefficientsOf(m, c, r, d);
    AxisFit(v.x, m.x, c.x, r.x, d);
    AxisFit(v.y, m.y, c.y, r.y, d);
    AxisFit(v.z, m.z, c.z, r.z, d);
    QuadricByAxes(p, Scaled(v, m));
    hide SquareCoefficient, Part, AxisTerm, Quadric, LineCoefficient;
    var s := Scaled(v, m);
    OnceShared(d, AxisTerm(p[0], p[3], s.x), AxisTerm(p[1], p[4], s.y), AxisTerm(p[2], p[5], s.z));
  }

  lemma OnceShared(d: real, x: real, y: real, z: real)
    requires d > 0.0 && Times(d, x) + Times(d, y) + Times(d, z) == d
    ensures x + y + z == 1.0
  {
    assert d * (x + y + z - 1.0) == 0.0;
    ZeroFactor(d, x + y + z - 1.0);
  }

  lemma AxisBack(m: real, c: real, r: real, d: real)
    requires r > 0.0 && d > 0.0
    ensures var a := SquareCoefficient(r, d);
            && Centre(a, LineCoefficient(m, c, a)) * SCALE + m == c
            && Times(d, Times(a, Times(Centre(a, LineCoefficient(m, c, a)), Centre(a, LineCoefficient(m, c, a)))))
               == Part(m, c, r)
            && Times(a, Times(r / SCALE, r / SCALE)) * d == 1.0
  {
    var a, w, q := SquareCoefficient(r, d), (m - c) / r, r / SCALE;
    AxisPoint(c, m, c, r);
    hide SquareCoefficient;
    var g := (c - m) / SCALE;
    assert g == -(q * w);
    CentreOfLine(a, g);
    assert d * (a * (g * g)) == a * (q * q * d) * (w * w);
  }

  lemma CentreOfLine(a: real, g: real)
    requires a > 0.0
    ensures Centre(a, -2.0 * Times(a, g)) == g
  {
    QuotientTimes(2.0 * (a * g), 2.0 * a);
    assert 2.0 * a * (2.0 * (a * g) / (2.0 * a) - g) == 0.0;
    ZeroFactor(2.0 * a, 2.0 * (a * g) / (2.0 * a) - g);
  }

  lemma KOfCoefficients(m: Vec3, c: Vec3, r: Vec3)
    requires Positive(r) && Level(m, c, r) < 1.0
    ensures var d := 1.0 - Level(m, c, r); Times(d, KOf(CoefficientsOf(m, c, r, d))) == 1.0
  {
    var d := 1.0 - Level(m, c, r);
    var p := CoefficientsOf(m, c, r, d);
    AxisBack(m.x, c.x, r.x, d);
    AxisBack(m.y, c.y, r.y, d);
    AxisBack(m.z, c.z, r.z, d);
    hide SquareCoefficient, Part, LineCoefficient, Centre, KOf;
    var gx, gy, gz := Centre(p[0], p[3]), Centre(p[1], p[4]), Centre(p[2], p[5]);
    KBySquares(p, gx, gy, gz);
    AddedUp(d, Times(p[0], Times(gx, gx)), Times(p[1], Times(gy, gy)), Times(p[2], Times(gz, gz)));
  }

  lemma AddedUp(d: real, x: real, y: real, z: real)
    ensures Times(d, 1.0 + x + y + z) == d + Times(d, x) + Times(d, y) + Times(d, z)
  {
    assert d * (1.0 + x + y + z) == d + d * x + d * y + d * z;
  }

  lemma SemiBack(k: real, a: real, r: real, d: real, sqrt: real -> real)
    requires r > 0.0 && d > 0.0 && a > 0.0 && IsSqrt(sqrt)
    requires Times(d, k) == 1.0 && Times(a, Times(r / SCALE, r / SCALE)) * d == 1.0
    ensures sqrt(k / a) * SCALE == r
  {
    var q := r / SCALE;
    QuotientTimes(k, a);
    assert d * (a * (q * q) - k) == 0.0;
    ZeroFactor(d, a * (q * q) - k);
    assert a * (q * q - k / a) == 0.0;
    ZeroFactor(a, q * q - k / a);
    assert k / a == Times(q, q);
    RootOf(sqrt, q);
  }

  lemma CalibrationBack(m: Vec3, c: Vec3, r: Vec3, sqrt: real -> real)
    requires Positive(r) && Level(m, c, r) < 1.0 && IsSqrt(sqrt)
    ensures CalibrationOf(CoefficientsOf(m, c, r, 1.0 - Level(m, c, r)), m, sqrt) == MagCalibration(c, r)
  {
    var d := 1.0 - Level(m, c, r);
    var p := CoefficientsOf(m, c, r, d);
    KOfCoefficients(m, c, r);
    AxisCalibrated(m.x, c.x, r.x, d, KOf(p), sqrt);
    AxisCalibrated(m.y, c.y, r.y, d, KOf(p), sqrt);
    AxisCalibrated(m.z, c.z, r.z, d, KOf(p), sqrt);
    hide SquareCoefficient, Part, LineCoefficient, Centre, KOf, Times, Level, IsSqrt;
  }

  lemma AxisCalibrated(m: real, c: real, r: real, d: real, k: real, sqrt: real -> real)
    requires r > 0.0 && d > 0.0 && Times(d, k) == 1.0 && IsSqrt(sqrt)
    ensures var a := SquareCoefficient(r, d);
            Centre(a, LineCoefficient(m, c, a)) * SCALE + m == c && sqrt(k / a) * SCALE == r
  {
    AxisBack(m, c, r, d);
    hide SquareCoefficient, Part, LineCoefficient, Centre, Times;
    SemiBack(k, SquareCoefficient(r, d), r, d, sqrt);
  }

  // The promise of the calibration: samples on an ellipsoid along the axes, wherever it lies, give back
  // its centre and its semi-axes whenever their fit is solved.
  lemma EllipsoidRecovered(samples: seq<Vec3>, c: Vec3, r: Vec3, p: seq<real>, sqrt: real -> real)
    requires samples != [] && Solvable(samples) && Fitted(samples, p) && IsSqrt(sqrt)
    requires Positive(r) && forall k :: 0 <= k < |samples| ==> Level(samples[k], c, r) == 1.0
    ensures Ellipsoid(p) && CalibrationOf(p, Mean(samples), sqrt) == MagCalibration(c, r)
  {
    hide Mean, Solvable, Fitted, Level, Quadric, Scaled, Ellipsoid, CalibrationOf;
    var m := Mean(samples);
    MeanInside(samples, c, r);
    var q := CoefficientsOf(m, c, r, 1.0 - Level(m, c, r));
    assert |q| == 6;
    forall k | 0 <= k < |samples| ensures Quadric(q, Scaled(samples[k], m)) == 1.0 {
      FitOfPoint(samples[k], m, c, r);
    }
    ExactFit(samples, q);
    OneFit(samples, p, q);
    CalibrationBack(m, c, r, sqrt);
  }

  // The calibrated reading is measured from the centre in semi-axes, so its magnitude is 1 exactly on the
  // ellipsoid: for the recovered one, exactly on that of the samples.
  lemma MagnitudeExactly(c: Vec3, r: Vec3, v: Vec3, sqrt: real -> real)
    requires r.x >= 0.000000000001 && r.y >= 0.000000000001 && r.z >= 0.000000000001 && IsSqrt(sqrt)
    ensures var m := Magnitude(MagCalibration(c, r), v, sqrt);
            m >= 0.0 && Times(m, m) == Level(v, c, r) && (m == 1.0 <==> Level(v, c, r) == 1.0)
  {
    CalibratedAxis(v.x, c.x, r.x);
    CalibratedAxis(v.y, c.y, r.y);
    CalibratedAxis(v.z, c.z, r.z);
    var u := CalibrateFromMag(v, EnvelopeOf(MagCalibration(c, r)));
    LevelSquare(u.x, u.y, u.z);
    hide Calibrated, Times;
    UnitRoot(sqrt, NormSquare(u));
  }

  lemma LevelSquare(x: real, y: real, z: real)
    ensures x * x + y * y + z * z == Times(x, x) + Times(y, y) + Times(z, z) >= 0.0
  {
  }
}
