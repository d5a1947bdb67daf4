// common/magcal.go: the ellipsoid fitted to raw magnetometer samples.
module MagCal {
  import opened LeastSquares
  import opened LinearSolve
  import opened Magnetometer
  import opened Reals

  const SCALE := 1000.0
  const MIN_SAMPLES := 12

  datatype MagCalibration = MagCalibration(centre: Vec3, semi: Vec3)

  // ---- The calibration applied ----

  function EnvelopeOf(c: MagCalibration): Envelope {
    Envelope(c.centre.x - c.semi.x, c.centre.x + c.semi.x,
             c.centre.y - c.semi.y, c.centre.y + c.semi.y,
             c.centre.z - c.semi.z, c.centre.z + c.semi.z)
  }

  function NormSquare(m: Vec3): real {
    m.x * m.x + m.y * m.y + m.z * m.z
  }

  function Magnitude(c: MagCalibration, v: Vec3, sqrt: real -> real): real {
    sqrt(NormSquare(CalibrateFromMag(v, EnvelopeOf(c))))
  }

  // ---- The data of the fit ----

  function SumOf(samples: seq<Vec3>, n: nat): Vec3
    requires n <= |samples|
  {
    if n == 0 then Vec3(0.0, 0.0, 0.0)
    else
      var before, s := SumOf(samples, n - 1), samples[n - 1];
      Vec3(before.x + s.x, before.y + s.y, before.z + s.z)
  }

  function Mean(samples: seq<Vec3>): Vec3
    requires samples != []
  {
    var sum, n := SumOf(samples, |samples|), |samples| as real;
    Vec3(sum.x / n, sum.y / n, sum.z / n)
  }

  function Scaled(v: Vec3, mean: Vec3): Vec3 {
    Vec3((v.x - mean.x) / SCALE, (v.y - mean.y) / SCALE, (v.z - mean.z) / SCALE)
  }

  function Features(s: Vec3): seq<real> {
    [s.x * s.x, s.y * s.y, s.z * s.z, s.x, s.y, s.z]
  }

  // The fit wants a x^2 + b y^2 + c z^2 + d x + e y + f z to be 1 at every sample.
  function Data(samples: seq<Vec3>, mean: Vec3): (data: seq<Sample>)
    ensures |data| == |samples| && Shaped(data, 6) && NonNegative(data)
  {
    seq(|samples|, k requires 0 <= k < |samples| => Sample(Features(Scaled(samples[k], mean)), 1.0, 1.0))
  }

  function Centre(a: real, d: real): real
    requires a > 0.0
  {
    -d / (2.0 * a)
  }

  ghost predicate Ellipsoid(p: seq<real>) {
    |p| == 6 && p[0] > 0.0 && p[1] > 0.0 && p[2] > 0.0
  }

  function KOf(p: seq<real>): real
    requires Ellipsoid(p)
  {
    var cx, cy, cz := Centre(p[0], p[3]), Centre(p[1], p[4]), Centre(p[2], p[5]);
    1.0 + p[0] * cx * cx + p[1] * cy * cy + p[2] * cz * cz
  }

  function CalibrationOf(p: seq<real>, mean: Vec3, sqrt: real -> real): MagCalibration
    requires Ellipsoid(p)
  {
    var k := KOf(p);
    MagCalibration(
      Vec3(Centre(p[0], p[3]) * SCALE + mean.x, Centre(p[1], p[4]) * SCALE + mean.y,
        Centre(p[2], p[5]) * SCALE + mean.z),
      Vec3(sqrt(k / p[0]) * SCALE, sqrt(k / p[1]) * SCALE, sqrt(k / p[2]) * SCALE))
  }

  // ---- The calibration maps the fitted surface onto the unit sphere ----

  function Quadric(p: seq<real>, s: Vec3): real
    requires |p| == 6
  {
    p[0] * s.x * s.x + p[1] * s.y * s.y + p[2] * s.z * s.z + p[3] * s.x + p[4] * s.y + p[5] * s.z
  }

  lemma WeightedSquareSign(a: real, c: real)
    requires a > 0.0
    ensures a * c * c >= 0.0
  {
    TimesSign(c, c);
    TimesSign(a, Times(c, c));
    assert a * c * c == Times(a, Times(c, c));
  }

  // The check for a non-positive k in the source never fires.
  lemma KIsPositive(p: seq<real>)
    requires Ellipsoid(p)
    ensures KOf(p) >= 1.0
  {
    WeightedSquareSign(p[0], Centre(p[0], p[3]));
    WeightedSquareSign(p[1], Centre(p[1], p[4]));
    WeightedSquareSign(p[2], Centre(p[2], p[5]));
  }

  lemma CompleteSquare(a: real, d: real, x: real)
    requires a > 0.0
    ensures var c := Centre(a, d); a * x * x + d * x == a * ((x - c) * (x - c)) - a * c * c
  {
    var c := Centre(a, d);
    assert c * (2.0 * a) == -d;
    assert a * ((x - c) * (x - c)) == a * x * x - c * (2.0 * a) * x + a * c * c;
  }

  // One axis of a raw sample, calibrated.
  lemma AxisRatio(v: real, mean: real, a: real, c: real, k: real, r: real, u: real)
    requires a > 0.0 && r > 0.0 && Times(r, r) == k / a
    requires u == (v - (c * SCALE + mean)) / (r * SCALE)
    ensures var x := (v - mean) / SCALE; k * (u * u) == a * ((x - c) * (x - c))
  {
    var x := (v - mean) / SCALE;
    assert u * r == x - c by {
      assert v - (c * SCALE + mean) == SCALE * (x - c);
      QuotientTimes(SCALE * (x - c), r * SCALE);
      assert u * (r * SCALE) == SCALE * (x - c);
      assert u * (r * SCALE) == (u * r) * SCALE;
    }
    assert k == a * (r * r) by {
      QuotientTimes(k, a);
    }
    Regroup(a, r, u);
  }

  lemma Regroup(a: real, r: real, u: real)
    ensures a * (r * r) * (u * u) == a * ((u * r) * (u * r))
  {
  }

  ghost predicate Regular(c: MagCalibration) {
    c.semi.x >= 0.000000000001 && c.semi.y >= 0.000000000001 && c.semi.z >= 0.000000000001
  }

  lemma CalibratedAxis(v: real, centre: real, semi: real)
    requires semi >= EPS
    ensures Calibrated(v, centre - semi, centre + semi) == (v - centre) / semi
  {
    assert (centre + semi + (centre - semi)) * 0.5 == centre;
    assert (centre + semi - (centre - semi)) * 0.5 == semi;
  }

  // k times the squared magnitude of a calibrated sample
  lemma CalibratedSquare(p: seq<real>, mean: Vec3, sqrt: real -> real, v: Vec3)
    requires Ellipsoid(p) && IsSqrt(sqrt) && Regular(CalibrationOf(p, mean, sqrt))
    ensures var m := CalibrateFromMag(v, EnvelopeOf(CalibrationOf(p, mean, sqrt)));
            NormSquare(m) >= 0.0 && KOf(p) * NormSquare(m) == Quadric(p, Scaled(v, mean)) + KOf(p) - 1.0
  {
    var k, c := KOf(p), CalibrationOf(p, mean, sqrt);
    var m := CalibrateFromMag(v, EnvelopeOf(c));
    KIsPositive(p);
    var s := Scaled(v, mean);
    var x := CalibratedTerm(p[0], p[3], k, sqrt, v.x, mean.x, c.centre.x, c.semi.x);
    var y := CalibratedTerm(p[1], p[4], k, sqrt, v.y, mean.y, c.centre.y, c.semi.y);
    var z := CalibratedTerm(p[2], p[5], k, sqrt, v.z, mean.z, c.centre.z, c.semi.z);
    SumOfSquares(m, k);
  }

  lemma SumOfSquares(m: Vec3, k: real)
    ensures NormSquare(m) >= 0.0
    ensures k * NormSquare(m) == k * (m.x * m.x) + k * (m.y * m.y) + k * (m.z * m.z)
  {
  }

  lemma CalibratedTerm(a: real, d: real, k: real, sqrt: real -> real, v: real, mean: real, centre: real, semi: real)
    returns (u: real)
    requires a > 0.0 && k > 0.0 && IsSqrt(sqrt)
    requires centre == Centre(a, d) * SCALE + mean && semi == sqrt(k / a) * SCALE && semi >= EPS
    ensures u == Calibrated(v, centre - semi, centre + semi)
    ensures var x, c := (v - mean) / SCALE, Centre(a, d); k * (u * u) == a * x * x + d * x + a * c * c
  {
    hide Times, Centre;
    CalibratedAxis(v, centre, semi);
    u := (v - centre) / semi;
    PositiveQuotient(k, a);
    RootPositive(sqrt, k / a);
    AxisRatio(v, mean, a, Centre(a, d), k, sqrt(k / a), u);
    CompleteSquare(a, d, (v - mean) / SCALE);
  }

  lemma PositiveQuotient(k: real, a: real)
    requires k > 0.0 && a > 0.0
    ensures k / a > 0.0
  {
  }

  // While no semi-axis is below the guard, the calibrated magnitude is 1 exactly on the surface.
  lemma UnitExactlyOnSurface(p: seq<real>, mean: Vec3, sqrt: real -> real, v: Vec3)
    requires Ellipsoid(p) && IsSqrt(sqrt) && Regular(CalibrationOf(p, mean, sqrt))
    ensures Magnitude(CalibrationOf(p, mean, sqrt), v, sqrt) == 1.0 <==> Quadric(p, Scaled(v, mean)) == 1.0
  {
    hide Quadric, KOf, CalibrationOf, CalibrateFromMag, NormSquare;
    var k, m := KOf(p), CalibrateFromMag(v, EnvelopeOf(CalibrationOf(p, mean, sqrt)));
    var t := NormSquare(m);
    KIsPositive(p);
    CalibratedSquare(p, mean, sqrt, v);
    UnitRoot(sqrt, t);
    assert k * t == k <==> t == 1.0 by {
      assert k * (t - 1.0) == k * t - k;
    }
  }

  lemma UnitRoot(sqrt: real -> real, t: real)
    requires IsSqrt(sqrt) && t >= 0.0
    ensures sqrt(t) == 1.0 <==> t == 1.0
  {
    assert Times(1.0, 1.0) == 1.0;
    RootOf(sqrt, 1.0);
    assert Times(sqrt(t), sqrt(t)) == t;
  }

  // ---- The fit ----

  method MeanOf(samples: seq<Vec3>) returns (mean: Vec3)
    requires samples != []
    ensures mean == Mean(samples)
  {
    mean := Vec3(0.0, 0.0, 0.0);
    for i := 0 to |samples|
      invariant mean == SumOf(samples, i)
    {
      var s := samples[i];
      mean := Vec3(mean.x + s.x, mean.y + s.y, mean.z + s.z);
    }
    var n := |samples| as real;
    mean := Vec3(mean.x / n, mean.y / n, mean.z / n);
  }

  method NormalEquations(samples: seq<Vec3>, mean: Vec3) returns (ata: array2<real>, atb: array<real>)
    ensures ata.Length0 == ata.Length1 == atb.Length == 6
    ensures IsNormal(ata, atb, Data(samples, mean), |samples|)
  {
    ata := new real[6, 6]((_, _) => 0.0);
    atb := new real[6](_ => 0.0);
    NormalStart(Data(samples, mean));
    hide Normal, Right, Data;
    for k := 0 to |samples|
      invariant ata.Length0 == ata.Length1 == atb.Length == 6 && fresh(ata) && fresh(atb)
      invariant IsNormal(ata, atb, Data(samples, mean), k)
    {
      AddSample(ata, atb, samples, mean, k);
    }
  }

  method AddSample(ata: array2<real>, atb: array<real>, samples: seq<Vec3>, mean: Vec3, k: nat)
    requires k < |samples| && IsNormal(ata, atb, Data(samples, mean), k)
    modifies ata, atb
    ensures IsNormal(ata, atb, Data(samples, mean), k + 1)
  {
    hide Normal, Right, Features, Scaled, Data, Product;
    DataAt(samples, mean, k);
    NormalStep(Data(samples, mean), k);
    Accumulate(ata, atb, Features(Scaled(samples[k], mean)));
  }

  lemma DataAt(samples: seq<Vec3>, mean: Vec3, k: nat)
    requires k < |samples|
    ensures Data(samples, mean)[k] == Sample(Features(Scaled(samples[k], mean)), 1.0, 1.0)
  {
  }

  function Product(v: seq<real>, i: nat, j: nat): real
    requires i < |v| && j < |v|
  {
    v[i] * v[j]
  }

  lemma NormalStart(data: seq<Sample>)
    requires Shaped(data, 6)
    ensures forall i: nat, j: nat :: i < 6 && j < 6 ==> Normal(data, 6, 0, i, j) == 0.0
    ensures forall i: nat :: i < 6 ==> Right(data, 6, 0, i) == 0.0
  {
  }

  lemma NormalStep(data: seq<Sample>, k: nat)
    requires Shaped(data, 6) && k < |data| && data[k].weight == data[k].target == 1.0
    ensures forall i: nat, j: nat :: i < 6 && j < 6 ==>
              Normal(data, 6, k + 1, i, j) == Normal(data, 6, k, i, j) + Product(data[k].row, i, j)
    ensures forall i: nat :: i < 6 ==> Right(data, 6, k + 1, i) == Right(data, 6, k, i) + data[k].row[i]
  {
  }

  lemma KFromCentres(p: seq<real>, cx: real, cy: real, cz: real)
    requires Ellipsoid(p) && cx == Centre(p[0], p[3]) && cy == Centre(p[1], p[4]) && cz == Centre(p[2], p[5])
    ensures KOf(p) == 1.0 + p[0] * cx * cx + p[1] * cy * cy + p[2] * cz * cz
  {
    hide Centre;
  }

  method CalibrationFrom(x: seq<real>, mean: Vec3, sqrt: real -> real) returns (cal: MagCalibration, ok: bool)
    requires |x| == 6
    ensures ok == Ellipsoid(x)
    ensures ok ==> cal == CalibrationOf(x, mean, sqrt)
  {
    cal := MagCalibration(Vec3(0.0, 0.0, 0.0), Vec3(0.0, 0.0, 0.0));
    if x[0] <= 0.0 || x[1] <= 0.0 || x[2] <= 0.0 {
      return cal, false;
    }
    var a, b, c, d, e, f := x[0], x[1], x[2], x[3], x[4], x[5];
    var cx, cy, cz := -d / (2.0 * a), -e / (2.0 * b), -f / (2.0 * c);
    var k := 1.0 + a * cx * cx + b * cy * cy + c * cz * cz;
    KFromCentres(x, cx, cy, cz);
    assert cx == Centre(a, d) && cy == Centre(b, e) && cz == Centre(c, f);
    hide KOf, Centre;
    KIsPositive(x);
    if k <= 0.0 {
      return cal, false;
    }
    cal := MagCalibration(
      Vec3(cx * SCALE + mean.x, cy * SCALE + mean.y, cz * SCALE + mean.z),
      Vec3(sqrt(k / a) * SCALE, sqrt(k / b) * SCALE, sqrt(k / c) * SCALE));
    return cal, true;
  }

  // p are the coefficients with the least squared residuals, and no others have as little.
  ghost predicate Fitted(samples: seq<Vec3>, p: seq<real>)
    requires samples != []
  {
    |p| == 6 && OnlyMinimiser(Data(samples, Mean(samples)), p)
  }

  lemma OneFit(samples: seq<Vec3>, p: seq<real>, q: seq<real>)
    requires samples != [] && Fitted(samples, p) && Fitted(samples, q)
    ensures p == q
  {
    hide Error, Data, Mean;
  }

  ghost predicate Solvable(samples: seq<Vec3>)
    requires samples != []
  {
    PivotsSuffice(NormalSystem(Data(samples, Mean(samples)), 6))
  }

  method FitMagEllipsoid(samples: seq<Vec3>, sqrt: real -> real) returns (cal: MagCalibration, ok: bool)
    ensures ok ==> |samples| >= 12 && Solvable(samples)
    ensures |samples| >= 12 && Solvable(samples) ==>
              exists p :: Fitted(samples, p) && ok == Ellipsoid(p)
                && (ok ==> cal == CalibrationOf(p, Mean(samples), sqrt))
    ensures |samples| >= 12 && Unconstrained(Data(samples, Mean(samples)), 6) ==> !ok
  {
    hide Unconstrained, Singular, OnlyMinimiser, CalibrationOf, Ellipsoid, IsNormal, RowOf, OnlySolution, Data, Mean,
         PivotsSuffice, NormalSystem;
    cal, ok := MagCalibration(Vec3(0.0, 0.0, 0.0), Vec3(0.0, 0.0, 0.0)), false;
    if |samples| < MIN_SAMPLES {
      return;
    }
    var mean := MeanOf(samples);
    var ata, atb := NormalEquations(samples, mean);
    SystemIsNormal(ata, atb, Data(samples, mean));
    SingularIsUnconstrained(Data(samples, mean), 6);
    RefusedExactly(NormalSystem(Data(samples, mean), 6));
    var p, solved := Solve(ata, atb);
    if !solved {
      return;
    }
    SolutionMinimises(Data(samples, mean), p);
    assert Fitted(samples, p);
    cal, ok := CalibrationFrom(p, mean, sqrt);
  }

  // The normal equations of the first k samples
  ghost predicate IsNormal(ata: array2<real>, atb: array<real>, data: seq<Sample>, k: nat)
    reads ata, atb
  {
    && ata.Length0 == ata.Length1 == atb.Length == 6
    && Shaped(data, 6) && k <= |data|
    && (forall i: nat, j: nat :: i < 6 && j < 6 ==> ata[i, j] == Normal(data, 6, k, i, j))
    && forall i: nat :: i < 6 ==> atb[i] == Right(data, 6, k, i)
  }

  method Accumulate(ata: array2<real>, atb: array<real>, v: seq<real>)
    requires ata.Length0 == ata.Length1 == atb.Length == |v|
    modifies ata, atb
    ensures forall i, j :: 0 <= i < |v| && 0 <= j < |v| ==> ata[i, j] == old(ata[i, j]) + Product(v, i, j)
    ensures forall i :: 0 <= i < |v| ==> atb[i] == old(atb[i]) + v[i]
  {
    var n := |v|;
    for i := 0 to n
      invariant forall r, j :: 0 <= r < i && 0 <= j < n ==> ata[r, j] == old(ata[r, j]) + Product(v, r, j)
      invariant forall r, j :: i <= r < n && 0 <= j < n ==> ata[r, j] == old(ata[r, j])
      invariant forall r :: 0 <= r < n ==> atb[r] == if r < i then old(atb[r]) + v[r] else old(atb[r])
    {
      atb[i] := atb[i] + v[i];
      for j := 0 to n
        invariant forall r, c :: 0 <= r < n && 0 <= c < n && r != i ==>
                  ata[r, c] == if r < i then old(ata[r, c]) + Product(v, r, c) else old(ata[r, c])
        invariant forall c :: 0 <= c < n ==>
                  ata[i, c] == if c < j then old(ata[i, c]) + Product(v, i, c) else old(ata[i, c])
        invariant forall r :: 0 <= r < n ==> atb[r] == if r <= i then old(atb[r]) + v[r] else old(atb[r])
      {
        ata[i, j] := ata[i, j] + v[i] * v[j];
      }
    }
  }

  // The normal equations as rows with a right-hand side
  ghost function NormalSystem(data: seq<Sample>, n: nat): (m: seq<Row>)
    requires Shaped(data, n)
    ensures |m| == n && Augmented(m, n)
  {
    seq(n, i requires 0 <= i < n => NormalRow(data, n, i))
  }

  ghost function NormalRow(data: seq<Sample>, n: nat, i: nat): (row: Row)
    requires Shaped(data, n) && i < n
    ensures |row| == n + 1
  {
    seq(n + 1, j requires 0 <= j <= n => if j < n then Normal(data, n, |data|, i, j) else Right(data, n, |data|, i))
  }

  lemma SystemIsNormal(ata: array2<real>, atb: array<real>, data: seq<Sample>)
    requires IsNormal(ata, atb, data, |data|)
    ensures SystemOf(ata, atb) == NormalSystem(data, 6)
  {
    hide Normal, Right;
    forall i: nat | i < 6 ensures SystemOf(ata, atb)[i] == NormalRow(data, 6, i) {
      assert RowOf(ata, atb, i) == NormalRow(data, 6, i);
    }
  }

  lemma {:induction false} RowIsNormal(data: seq<Sample>, p: seq<real>, i: nat, k: nat)
    requires Shaped(data, |p|) && i < |p| && k <= |p|
    ensures Dot(NormalRow(data, |p|, i), p, k) == NormalDot(data, p, |data|, i, k)
  {
    hide Normal, Right;
    if k > 0 {
      RowIsNormal(data, p, i, k - 1);
    }
  }

  lemma NormalSystemSolves(data: seq<Sample>, p: seq<real>)
    requires Shaped(data, |p|)
    ensures Solves(NormalSystem(data, |p|), p) <==> SolvesNormal(data, p)
  {
    hide Dot, NormalDot, Normal, Right;
    var m := NormalSystem(data, |p|);
    forall i: nat | i < |p|
      ensures RowHolds(m[i], p) <==> NormalDot(data, p, |data|, i, |p|) == Right(data, |p|, |data|, i)
    {
      RowIsNormal(data, p, i, |p|);
    }
  }

  // The one solution of the normal equations is the one vector of least error.
  lemma SolutionMinimises(data: seq<Sample>, p: seq<real>)
    requires Shaped(data, |p|) && NonNegative(data) && OnlySolution(NormalSystem(data, |p|), p)
    ensures OnlyMinimiser(data, p)
  {
    hide Solves, SolvesNormal, Minimises, Error, NormalSystem;
    NormalSystemSolves(data, p);
    NormalMinimises(data, p);
    forall q: seq<real> | |q| == |p| && Error(data, q, |data|) <= Error(data, p, |data|) ensures q == p {
      SameErrorSolves(data, p, q);
      NormalSystemSolves(data, q);
    }
  }

  // The samples leave some combination of the coefficients free.
  ghost predicate Unconstrained(data: seq<Sample>, n: nat)
    requires Shaped(data, n)
  {
    exists d: seq<real> :: |d| == n && NonZero(d) && Free(data, d)
  }

  ghost predicate Free(data: seq<Sample>, d: seq<real>)
    requires Shaped(data, |d|)
  {
    forall k :: 0 <= k < |data| ==> Unchanged(data, d, k)
  }

  lemma FreeVanishes(data: seq<Sample>, d: seq<real>)
    requires Shaped(data, |d|) && Free(data, d)
    ensures Vanishes(NormalSystem(data, |d|), d)
  {
    hide Dot, NormalDot, Normal, Right;
    var m := NormalSystem(data, |d|);
    forall r: nat | r < |d| ensures Dot(m[r], d, |d|) == 0.0 {
      RowIsNormal(data, d, r, |d|);
      UnchangedNormal(data, d, |data|, r);
    }
  }

  lemma VanishingIsFree(data: seq<Sample>, d: seq<real>)
    requires Shaped(data, |d|) && NonNegative(data) && Vanishes(NormalSystem(data, |d|), d)
    ensures Free(data, d)
  {
    hide Dot, NormalDot, Normal, Right, Change;
    var m := NormalSystem(data, |d|);
    forall i: nat | i < |d| ensures NormalDot(data, d, |data|, i, |d|) == 0.0 {
      RowIsNormal(data, d, i, |d|);
      assert Dot(m[i], d, |d|) == 0.0;
    }
    NoChange(data, d);
    ChangeSign(data, d, |data|);
  }

  // The linear system of the fit is singular exactly when the samples leave a combination free.
  lemma SingularIsUnconstrained(data: seq<Sample>, n: nat)
    requires Shaped(data, n) && NonNegative(data)
    ensures Singular(NormalSystem(data, n)) <==> Unconstrained(data, n)
  {
    hide Vanishes, Free, NonZero;
    var m := NormalSystem(data, n);
    if Unconstrained(data, n) {
      var d: seq<real> :| |d| == n && NonZero(d) && Free(data, d);
      FreeVanishes(data, d);
    }
    if Singular(m) {
      var d: seq<real> :| NonZero(d) && Vanishes(m, d);
      VanishingLength(m, d);
      VanishingIsFree(data, d);
    }
  }

  // ---- The guard of CalibrateFromMag ----

  function AxisTerm(a: real, d: real, x: real): real {
    a * x * x + d * x
  }

  lemma QuadricByAxes(p: seq<real>, s: Vec3)
    requires |p| == 6
    ensures Quadric(p, s) == AxisTerm(p[0], p[3], s.x) + AxisTerm(p[1], p[4], s.y) + AxisTerm(p[2], p[5], s.z)
  {
  }

  lemma AtCentre(a: real, d: real)
    requires a > 0.0
    ensures var c := Centre(a, d); AxisTerm(a, d, c) == -(a * c * c)
  {
    CompleteSquare(a, d, Centre(a, d));
  }

  lemma AtPole(a: real, d: real, k: real, r: real)
    requires a > 0.0 && Times(r, r) == k / a
    ensures var c := Centre(a, d); AxisTerm(a, d, c + r) == k - a * c * c
  {
    hide Centre;
    CompleteSquare(a, d, Centre(a, d) + r);
    QuotientTimes(k, a);
  }

  // A pole of the ellipsoid lies on the surface.
  lemma PoleTerm(a: real, d: real, k: real, sqrt: real -> real, mean: real, centre: real, semi: real)
    requires a > 0.0 && k > 0.0 && IsSqrt(sqrt)
    requires centre == Centre(a, d) * SCALE + mean && semi == sqrt(k / a) * SCALE
    ensures semi > 0.0
    ensures AxisTerm(a, d, (centre + semi - mean) / SCALE) == k - a * Centre(a, d) * Centre(a, d)
    ensures AxisTerm(a, d, (centre - mean) / SCALE) == -(a * Centre(a, d) * Centre(a, d))
  {
    hide Times, Centre, AxisTerm;
    PositiveQuotient(k, a);
    RootPositive(sqrt, k / a);
    AtPole(a, d, k, sqrt(k / a));
    AtCentre(a, d);
    assert (centre + semi - mean) / SCALE == Centre(a, d) + sqrt(k / a);
    assert (centre - mean) / SCALE == Centre(a, d);
  }

  lemma PoleCalibrated(centre: real, semi: real)
    requires 0.0 < semi < EPS
    ensures Calibrated(centre + semi, centre - semi, centre + semi) == semi
  {
    assert (centre + semi + (centre - semi)) * 0.5 == centre;
    assert (centre + semi - (centre - semi)) * 0.5 == semi;
  }

  lemma CentreCalibrated(centre: real, semi: real)
    ensures Calibrated(centre, centre - semi, centre + semi) == 0.0
  {
    assert (centre + semi + (centre - semi)) * 0.5 == centre;
  }

  lemma SmallRoot(sqrt: real -> real, m: Vec3, r: real)
    requires IsSqrt(sqrt) && 0.0 < r < EPS
    requires m in {Vec3(r, 0.0, 0.0), Vec3(0.0, r, 0.0), Vec3(0.0, 0.0, r)}
    ensures sqrt(NormSquare(m)) != 1.0
  {
    assert NormSquare(m) == Times(r, r);
    RootOf(sqrt, r);
  }

  // Along the axis of a semi-axis below the guard
  lemma DegeneratePole(p: seq<real>, mean: Vec3, sqrt: real -> real, v: Vec3, m: Vec3, r: real)
    requires Ellipsoid(p) && IsSqrt(sqrt) && 0.0 < r < EPS
    requires Quadric(p, Scaled(v, mean)) == 1.0
    requires m == CalibrateFromMag(v, EnvelopeOf(CalibrationOf(p, mean, sqrt)))
    requires m in {Vec3(r, 0.0, 0.0), Vec3(0.0, r, 0.0), Vec3(0.0, 0.0, r)}
    ensures Magnitude(CalibrationOf(p, mean, sqrt), v, sqrt) != 1.0
  {
    SmallRoot(sqrt, m, r);
  }

  // The poles of the ellipsoid on the three axes
  function Pole(c: MagCalibration, axis: nat): Vec3 {
    Vec3(c.centre.x + (if axis == 0 then c.semi.x else 0.0),
         c.centre.y + (if axis == 1 then c.semi.y else 0.0),
         c.centre.z + (if axis == 2 then c.semi.z else 0.0))
  }

  lemma PoleOnSurface(p: seq<real>, mean: Vec3, sqrt: real -> real, axis: nat)
    requires Ellipsoid(p) && IsSqrt(sqrt) && axis < 3
    ensures Quadric(p, Scaled(Pole(CalibrationOf(p, mean, sqrt), axis), mean)) == 1.0
  {
    hide Quadric, Centre, AxisTerm;
    var k, c := KOf(p), CalibrationOf(p, mean, sqrt);
    KIsPositive(p);
    PoleTerm(p[0], p[3], k, sqrt, mean.x, c.centre.x, c.semi.x);
    PoleTerm(p[1], p[4], k, sqrt, mean.y, c.centre.y, c.semi.y);
    PoleTerm(p[2], p[5], k, sqrt, mean.z, c.centre.z, c.semi.z);
    QuadricByAxes(p, Scaled(Pole(c, axis), mean));
  }

  lemma SemiPositive(p: seq<real>, mean: Vec3, sqrt: real -> real)
    requires Ellipsoid(p) && IsSqrt(sqrt)
    ensures var c := CalibrationOf(p, mean, sqrt); c.semi.x > 0.0 && c.semi.y > 0.0 && c.semi.z > 0.0
  {
    hide Centre, AxisTerm;
    var k, c := KOf(p), CalibrationOf(p, mean, sqrt);
    KIsPositive(p);
    PoleTerm(p[0], p[3], k, sqrt, mean.x, c.centre.x, c.semi.x);
    PoleTerm(p[1], p[4], k, sqrt, mean.y, c.centre.y, c.semi.y);
    PoleTerm(p[2], p[5], k, sqrt, mean.z, c.centre.z, c.semi.z);
  }

  // The guard is needed: with a semi-axis below it, a point of the surface has another magnitude.
  lemma DegenerateAxis(p: seq<real>, mean: Vec3, sqrt: real -> real) returns (v: Vec3)
    requires Ellipsoid(p) && IsSqrt(sqrt) && !Regular(CalibrationOf(p, mean, sqrt))
    ensures Quadric(p, Scaled(v, mean)) == 1.0
    ensures Magnitude(CalibrationOf(p, mean, sqrt), v, sqrt) != 1.0
  {
    hide Quadric, Calibrated, Magnitude, CalibrationOf, Ellipsoid, Scaled;
    var c := CalibrationOf(p, mean, sqrt);
    SemiPositive(p, mean, sqrt);
    CentreCalibrated(c.centre.x, c.semi.x);
    CentreCalibrated(c.centre.y, c.semi.y);
    CentreCalibrated(c.centre.z, c.semi.z);
    var axis, r := if c.semi.x < EPS then 0 else if c.semi.y < EPS then 1 else 2,
                   if c.semi.x < EPS then c.semi.x else if c.semi.y < EPS then c.semi.y else c.semi.z;
    v := Pole(c, axis);
    PoleCalibrated([c.centre.x, c.centre.y, c.centre.z][axis], r);
    PoleOnSurface(p, mean, sqrt, axis);
    DegeneratePole(p, mean, sqrt, v, CalibrateFromMag(v, EnvelopeOf(c)), r);
  }
}
