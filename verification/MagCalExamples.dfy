// common/magcal.go: samples that show where the bound on the pivots and the guard of
// CalibrateFromMag matter.
module MagCalExamples {
  import opened LeastSquares
  import opened LinearSolve
  import opened MagCal
  import opened MagCalExact
  import opened MagCalLimits
  import opened Magnetometer
  import opened Reals

  // ---- Elimination by hand: what is left below and right of the columns done ----

  type Block = seq<seq<real>>

  ghost predicate Square(b: Block) {
    forall r :: 0 <= r < |b| ==> |b[r]| == |b|
  }

  ghost predicate Holds(t: seq<Row>, c: nat, b: Block) {
    && Augmented(t, |t|) && Square(b) && c + |b| == |t|
    && forall r, k :: 0 <= r < |b| && 0 <= k < |b| ==> t[c + r][c + k] == b[r][k]
  }

  ghost predicate Leads(b: Block, p: nat)
    requires Square(b)
  {
    && p < |b|
    && (forall r :: 0 <= r < p ==> Abs(b[r][0]) < Abs(b[p][0]))
    && forall r :: p <= r < |b| ==> Abs(b[r][0]) <= Abs(b[p][0])
  }

  function Share(a: real, pivot: real): real {
    if pivot == 0.0 then 0.0 else a / pivot
  }

  // What one turn leaves with row p as the pivot row
  ghost function Rest(b: Block, p: nat): (rest: Block)
    requires Square(b) && p < |b|
    ensures Square(rest) && |rest| == |b| - 1
  {
    var s := b[0 := b[p]][p := b[0]];
    seq(|b| - 1, r requires 0 <= r < |b| - 1 =>
      seq(|b| - 1, k requires 0 <= k < |b| - 1 => s[r + 1][k + 1] - Times(Share(s[r + 1][0], s[0][0]), s[0][k + 1])))
  }

  lemma LeadsIsPivot(t: seq<Row>, c: nat, b: Block, p: nat)
    requires Holds(t, c, b) && b != [] && Leads(b, p)
    ensures p < |b| && PivotRow(t, c) == c + p && t[c + p][c] == b[p][0]
  {
    hide Abs;
    forall r | 0 <= r < |b| ensures t[c + r][c] == b[r][0] {
      assert t[c + r][c + 0] == b[r][0];
    }
    assert forall r :: c <= r < |t| ==> t[r][c] == b[r - c][0];
    assert IsPivotRow(t, c, c + p);
  }

  lemma TurnLeavesRest(t: seq<Row>, c: nat, b: Block, p: nat)
    requires Holds(t, c, b) && b != [] && Leads(b, p)
    ensures Holds(Turned(t, c), c + 1, Rest(b, p))
  {
    hide Turned, Leads, IsPivotRow, Times;
    LeadsIsPivot(t, c, b, p);
    var u, rest := Turned(t, c), Rest(b, p);
    forall r, k | 0 <= r < |rest| && 0 <= k < |rest| ensures u[c + 1 + r][c + 1 + k] == rest[r][k] {
      TurnedCell(t, c, b, p, r + 1, k + 1);
    }
  }

  lemma TurnedCell(t: seq<Row>, c: nat, b: Block, p: nat, r: nat, k: nat)
    requires Holds(t, c, b) && p < |b| && PivotRow(t, c) == c + p && 0 < r < |b| && 0 < k < |b|
    ensures var s := b[0 := b[p]][p := b[0]];
            Turned(t, c)[c + r][c + k] == s[r][k] - Times(Share(s[r][0], s[0][0]), s[0][k])
  {
    hide Turned, IsPivotRow, Times;
    TurnedEntry(t, c, c + r, c + k);
    SwappedBlock(t, c, b, p, 0, k);
    SwappedBlock(t, c, b, p, 0, 0);
    SwappedBlock(t, c, b, p, r, k);
    SwappedBlock(t, c, b, p, r, 0);
    hide Swapped;
  }

  lemma SwappedBlock(t: seq<Row>, c: nat, b: Block, p: nat, r: nat, k: nat)
    requires Holds(t, c, b) && p < |b| && r < |b| && k < |b|
    ensures Swapped(t, c, c + p)[c + r][c + k] == b[0 := b[p]][p := b[0]][r][k]
  {
    assert t[c + r][c + k] == b[r][k] && t[c + p][c + k] == b[p][k] && t[c + 0][c + k] == b[0][k];
  }

  // One column further
  lemma NextColumn(m: seq<Row>, c: nat, b: Block, p: nat, rest: Block)
    requires Augmented(m, |m|) && c < |m| && Holds(After(m, c), c, b) && Leads(b, p) && Rest(b, p) == rest
    ensures PivotOf(m, c) == b[p][0] && Holds(After(m, c + 1), c + 1, rest)
  {
    hide Holds, Leads, Rest, IsPivotRow, Turned;
    BlockSize(After(m, c), c, b);
    LeadsIsPivot(After(m, c), c, b, p);
    TurnLeavesRest(After(m, c), c, b, p);
  }

  lemma BlockSize(t: seq<Row>, c: nat, b: Block)
    requires Holds(t, c, b) && c < |t|
    ensures b != [] && Square(b)
  {
  }

  // ---- Twelve samples around the origin ----

  function Raw(x: real, y: real, z: real): Vec3 {
    Vec3(SCALE * x, SCALE * y, SCALE * z)
  }

  // Six points of the ellipsoid x^2 / e^2 + y^2 / l^2 + z^2 / l^2 = 2, each twice
  function Six(e: real, l: real): (s: seq<Vec3>)
    ensures |s| == 6
  {
    [Raw(e, l, 0.0), Raw(-e, -l, 0.0), Raw(e, 0.0, l), Raw(-e, 0.0, -l), Raw(0.0, l, l), Raw(0.0, -l, -l)]
  }

  function Twelve(e: real, l: real): (s: seq<Vec3>)
    ensures |s| == 12
  {
    Six(e, l) + Six(e, l)
  }

  function Powers(x: real, y: real, z: real): (row: seq<real>)
    ensures |row| == 6
  {
    [Times(x, x), Times(y, y), Times(z, z), x, y, z]
  }

  function RowOfSix(e: real, l: real, k: nat): (row: seq<real>)
    ensures |row| == 6
  {
    if k == 0 then Powers(e, l, 0.0)
    else if k == 1 then Powers(-e, -l, 0.0)
    else if k == 2 then Powers(e, 0.0, l)
    else if k == 3 then Powers(-e, 0.0, -l)
    else if k == 4 then Powers(0.0, l, l)
    else Powers(0.0, -l, -l)
  }

  lemma SumNext(samples: seq<Vec3>, n: nat, s: Vec3)
    requires n < |samples| && samples[n] == s
    ensures var before, now := SumOf(samples, n), SumOf(samples, n + 1);
            now == Vec3(before.x + s.x, before.y + s.y, before.z + s.z)
  {
  }

  lemma SumOfPair(samples: seq<Vec3>, n: nat, x: real, y: real, z: real)
    requires n + 2 <= |samples| && samples[n] == Raw(x, y, z) && samples[n + 1] == Raw(-x, -y, -z)
    ensures SumOf(samples, n + 2) == SumOf(samples, n)
  {
    SumNext(samples, n, Raw(x, y, z));
    SumNext(samples, n + 1, Raw(-x, -y, -z));
  }

  lemma NoMean(e: real, l: real)
    ensures Mean(Twelve(e, l)) == Vec3(0.0, 0.0, 0.0)
  {
    var s := Twelve(e, l);
    assert SumOf(s, 12) == SumOf(s, 0) by {
      hide SumOf, Raw;
      SumOfPair(s, 0, e, l, 0.0);
      SumOfPair(s, 2, e, 0.0, l);
      SumOfPair(s, 4, 0.0, l, l);
      SumOfPair(s, 6, e, l, 0.0);
      SumOfPair(s, 8, e, 0.0, l);
      SumOfPair(s, 10, 0.0, l, l);
    }
    NoSum(s);
    hide SumOf;
    var sum, n := SumOf(s, |s|), |s| as real;
    assert sum == Vec3(0.0, 0.0, 0.0) && n == 12.0;
    assert Mean(s) == Vec3(sum.x / n, sum.y / n, sum.z / n);
  }

  lemma NoSum(samples: seq<Vec3>)
    ensures SumOf(samples, 0) == Vec3(0.0, 0.0, 0.0)
  {
  }

  ghost function TwelveData(e: real, l: real): (data: seq<Sample>)
    ensures |data| == 12 && Wanted(data) && NonNegative(data)
  {
    Data(Twelve(e, l), Mean(Twelve(e, l)))
  }

  function PointOfSix(e: real, l: real, k: nat): Vec3 {
    if k == 0 then Raw(e, l, 0.0)
    else if k == 1 then Raw(-e, -l, 0.0)
    else if k == 2 then Raw(e, 0.0, l)
    else if k == 3 then Raw(-e, 0.0, -l)
    else if k == 4 then Raw(0.0, l, l)
    else Raw(0.0, -l, -l)
  }

  lemma TwelvePoints(e: real, l: real, k: nat)
    requires k < 12
    ensures Twelve(e, l)[k] == PointOfSix(e, l, k % 6)
  {
    hide Raw;
  }

  lemma RowsOfPoints(e: real, l: real, k: nat)
    requires k < 6
    ensures Features(Scaled(PointOfSix(e, l, k), Vec3(0.0, 0.0, 0.0))) == RowOfSix(e, l, k)
  {
    hide Features, Scaled, Raw, Powers;
    FeaturesOfRaw(e, l, 0.0);
    FeaturesOfRaw(-e, -l, 0.0);
    FeaturesOfRaw(e, 0.0, l);
    FeaturesOfRaw(-e, 0.0, -l);
    FeaturesOfRaw(0.0, l, l);
    FeaturesOfRaw(0.0, -l, -l);
  }

  lemma TwelveRows(e: real, l: real, k: nat)
    requires k < 12
    ensures TwelveData(e, l)[k] == Sample(RowOfSix(e, l, k % 6), 1.0, 1.0)
  {
    hide Mean, Features, Scaled, PointOfSix, RowOfSix, Twelve;
    NoMean(e, l);
    TwelvePoints(e, l, k);
    RowsOfPoints(e, l, k % 6);
    DataAt(Twelve(e, l), Mean(Twelve(e, l)), k);
    assert Mean(Twelve(e, l)) == Vec3(0.0, 0.0, 0.0);
    assert Features(Scaled(Twelve(e, l)[k], Mean(Twelve(e, l)))) == RowOfSix(e, l, k % 6);
    assert TwelveData(e, l) == Data(Twelve(e, l), Mean(Twelve(e, l)));
  }

  lemma FeaturesOfRaw(x: real, y: real, z: real)
    ensures Features(Scaled(Raw(x, y, z), Vec3(0.0, 0.0, 0.0))) == Powers(x, y, z)
  {
    assert Scaled(Raw(x, y, z), Vec3(0.0, 0.0, 0.0)) == Vec3(x, y, z);
    PowersOf(x, y, z);
    hide Features, Scaled, Raw, Powers;
  }

  lemma PowersOf(x: real, y: real, z: real)
    ensures Features(Vec3(x, y, z)) == Powers(x, y, z)
  {
    var a, b := Features(Vec3(x, y, z)), Powers(x, y, z);
    forall i | 0 <= i < 6 ensures a[i] == b[i] {
    }
  }

  // ---- Their normal equations ----

  // Entry i, j of what the first k of the six points add
  function SixSum(e: real, l: real, i: nat, j: nat, k: nat): real
    requires i < 6 && j < 6
  {
    if k == 0 then 0.0
    else SixSum(e, l, i, j, k - 1) + Times(RowOfSix(e, l, k - 1)[i], RowOfSix(e, l, k - 1)[j])
  }

  lemma {:induction false} NormalOfTwelve(e: real, l: real, i: nat, j: nat, m: nat)
    requires i < 6 && j < 6 && m <= 12
    ensures Normal(TwelveData(e, l), 6, m, i, j)
         == if m <= 6 then SixSum(e, l, i, j, m) else SixSum(e, l, i, j, 6) + SixSum(e, l, i, j, m - 6)
  {
    hide Normal, TwelveData, RowOfSix, Times;
    var d := TwelveData(e, l);
    NormalNext(d, m, i, j);
    if m > 0 {
      NormalOfTwelve(e, l, i, j, m - 1);
      TwelveRows(e, l, m - 1);
      var row := RowOfSix(e, l, (m - 1) % 6);
      OneTimes(Times(row[i], row[j]));
    }
  }

  // The three products of two scales s and t, as they come up in the normal matrix
  function Gram(s: real, t: real): (b: Block)
    ensures |b| == 3 && Square(b)
  {
    [[8.0 * Times(s, s), 4.0 * Times(s, t), 4.0 * Times(s, t)],
     [4.0 * Times(s, t), 8.0 * Times(t, t), 4.0 * Times(t, t)],
     [4.0 * Times(s, t), 4.0 * Times(t, t), 8.0 * Times(t, t)]]
  }

  // The normal matrix: the quadratic and the linear features do not mix.
  function Mixed(e: real, l: real, i: nat, j: nat): real
    requires i < 6 && j < 6
  {
    if i < 3 && j < 3 then Gram(Times(e, e), Times(l, l))[i][j]
    else if i >= 3 && j >= 3 then Gram(e, l)[i - 3][j - 3]
    else 0.0
  }

  lemma SixNext(e: real, l: real, i: nat, j: nat, k: nat)
    requires i < 6 && j < 6
    ensures SixSum(e, l, i, j, 0) == 0.0
    ensures SixSum(e, l, i, j, k + 1) == SixSum(e, l, i, j, k) + Times(RowOfSix(e, l, k)[i], RowOfSix(e, l, k)[j])
  {
    hide RowOfSix, Times;
  }

  lemma SixSumIs(e: real, l: real, i: nat, j: nat)
    requires i < 6 && j < 6
    ensures 2.0 * SixSum(e, l, i, j, 6) == Mixed(e, l, i, j)
  {
    hide Times, SixSum, Powers, Mixed;
    SixNext(e, l, i, j, 0);
    SixNext(e, l, i, j, 1);
    SixNext(e, l, i, j, 2);
    SixNext(e, l, i, j, 3);
    SixNext(e, l, i, j, 4);
    SixNext(e, l, i, j, 5);
    PairSum(e, l, 0.0, i, j);
    PairSum(e, 0.0, l, i, j);
    PairSum(0.0, l, l, i, j);
    MixedIs(e, l, i, j);
  }

  // A point and its negative: what is odd in the two cancels.
  lemma PairSum(x: real, y: real, z: real, i: nat, j: nat)
    requires i < 6 && j < 6
    ensures Times(Powers(x, y, z)[i], Powers(x, y, z)[j]) + Times(Powers(-x, -y, -z)[i], Powers(-x, -y, -z)[j])
         == if (i < 3) == (j < 3) then 2.0 * Times(Powers(x, y, z)[i], Powers(x, y, z)[j]) else 0.0
  {
    var a, b := Powers(x, y, z), Powers(-x, -y, -z);
    assert b[i] == if i < 3 then a[i] else -a[i];
    assert b[j] == if j < 3 then a[j] else -a[j];
    hide Powers;
    SignsOfProduct(a[i], a[j]);
  }

  lemma SignsOfProduct(a: real, b: real)
    ensures Times(-a, -b) == Times(a, b) && Times(-a, b) == Times(a, -b) == -Times(a, b)
  {
  }

  lemma MixedIs(e: real, l: real, i: nat, j: nat)
    requires i < 6 && j < 6
    ensures Mixed(e, l, i, j)
         == if (i < 3) == (j < 3) then
              4.0 * (Times(Powers(e, l, 0.0)[i], Powers(e, l, 0.0)[j])
                + Times(Powers(e, 0.0, l)[i], Powers(e, 0.0, l)[j])
                     + Times(Powers(0.0, l, l)[i], Powers(0.0, l, l)[j]))
            else 0.0
  {
    hide Times, Gram;
    TimesZero(0.0);
    if i < 3 && j < 3 {
      ThreeSums(Times(e, e), Times(l, l), i, j);
    } else if i >= 3 && j >= 3 {
      ThreeSums(e, l, i - 3, j - 3);
    }
  }

  lemma TimesZero(a: real)
    ensures Times(0.0, a) == Times(a, 0.0) == 0.0
  {
  }

  lemma ThreeSums(s: real, t: real, i: nat, j: nat)
    requires i < 3 && j < 3
    ensures var a, b, c := [s, t, 0.0], [s, 0.0, t], [0.0, t, t];
            4.0 * (Times(a[i], a[j]) + Times(b[i], b[j]) + Times(c[i], c[j])) == Gram(s, t)[i][j]
  {
    hide Times;
    TimesZero(0.0);
    TimesZero(s);
    TimesZero(t);
    TimesSwaps(s, t);
  }

  lemma TimesSwaps(s: real, t: real)
    ensures Times(s, t) == Times(t, s)
  {
  }

  ghost function TwelveSystem(e: real, l: real): (m: seq<Row>)
    ensures |m| == 6 && Augmented(m, 6)
  {
    NormalSystem(TwelveData(e, l), 6)
  }

  lemma TwelveEntry(e: real, l: real, i: nat, j: nat)
    requires i < 6 && j < 6
    ensures TwelveSystem(e, l)[i][j] == Mixed(e, l, i, j)
  {
    hide Normal, Mixed, SixSum;
    NormalEntry(TwelveData(e, l), i, j);
    NormalOfTwelve(e, l, i, j, 12);
    SixSumIs(e, l, i, j);
  }

  // ---- Their elimination ----

  function Blocks(a: Block, b: Block): (c: Block)
    requires Square(a) && Square(b)
    ensures |c| == |a| + |b| && Square(c)
  {
    seq(|a| + |b|, r requires 0 <= r < |a| + |b| =>
      seq(|a| + |b|, k requires 0 <= k < |a| + |b| =>
        if r < |a| && k < |a| then a[r][k] else if r >= |a| && k >= |a| then b[r - |a|][k - |a|] else 0.0))
  }

  lemma TwelveHolds(e: real, l: real)
    ensures Holds(After(TwelveSystem(e, l), 0), 0, Blocks(Gram(Times(e, e), Times(l, l)), Gram(e, l)))
  {
    hide TwelveSystem, Gram;
    var m, b := TwelveSystem(e, l), Blocks(Gram(Times(e, e), Times(l, l)), Gram(e, l));
    forall r, k | 0 <= r < 6 && 0 <= k < 6 ensures m[r][k] == b[r][k] {
      TwelveEntry(e, l, r, k);
    }
  }

  // A turn with the pivot row in the first block leaves the second one alone.
  lemma RestOfBlocks(a: Block, b: Block, p: nat)
    requires Square(a) && Square(b) && p < |a| && Leads(a, p)
    ensures Leads(Blocks(a, b), p) && Rest(Blocks(a, b), p) == Blocks(Rest(a, p), b)
  {
    hide Times;
    var c := Blocks(a, b);
    assert forall r :: 0 <= r < |c| ==> c[r][0] == if r < |a| then a[r][0] else 0.0;
    TimesZero(0.0);
    var x, y := Rest(c, p), Blocks(Rest(a, p), b);
    forall r, k | 0 <= r < |x| && 0 <= k < |x| ensures x[r][k] == y[r][k] {
      RestOfBlocksAt(a, b, p, r, k);
    }
    SameBlock(x, y);
  }

  lemma SameBlock(x: Block, y: Block)
    requires Square(x) && Square(y) && |x| == |y|
    requires forall r, k :: 0 <= r < |x| && 0 <= k < |x| ==> x[r][k] == y[r][k]
    ensures x == y
  {
    forall r | 0 <= r < |x| ensures x[r] == y[r] {
    }
  }

  lemma RestOfBlocksAt(a: Block, b: Block, p: nat, r: nat, k: nat)
    requires Square(a) && Square(b) && p < |a| && r < |a| + |b| - 1 && k < |a| + |b| - 1
    ensures Rest(Blocks(a, b), p)[r][k] == Blocks(Rest(a, p), b)[r][k]
  {
    hide Times;
    var c := Blocks(a, b);
    var s, u := c[0 := c[p]][p := c[0]], a[0 := a[p]][p := a[0]];
    assert s[r + 1][k + 1] == if r + 1 < |a| && k + 1 < |a| then u[r + 1][k + 1]
                              else if r + 1 >= |a| && k + 1 >= |a| then b[r + 1 - |a|][k + 1 - |a|] else 0.0;
    assert s[0][k + 1] == if k + 1 < |a| then u[0][k + 1] else 0.0;
    assert s[r + 1][0] == if r + 1 < |a| then u[r + 1][0] else 0.0;
    assert s[0][0] == u[0][0];
    TimesZero(s[0][k + 1]);
    TimesZero(Share(s[r + 1][0], s[0][0]));
  }

  lemma FirstRest(s: real, t: real)
    requires 0.0 < 3.0 * s < t
    ensures Leads(Gram(s, t), 1) && Rest(Gram(s, t), 1) == SecondBlock(s, t)
  {
    GramOrder(s, t);
    var x, y := Rest(Gram(s, t), 1), SecondBlock(s, t);
    TwiceShare(s, t);
    SameShare(4.0 * Times(s, t));
    OneTimes(8.0 * Times(t, t));
    OneTimes(4.0 * Times(t, t));
    hide Times, Share;
    assert x[0][0] == y[0][0] && x[0][1] == y[0][1] && x[1][0] == y[1][0] && x[1][1] == y[1][1];
    SameBlock(x, y);
  }

  function SecondBlock(s: real, t: real): (b: Block)
    ensures |b| == 2 && Square(b)
  {
    [[-12.0 * Times(s, t), -4.0 * Times(s, t)], [-4.0 * Times(t, t), 4.0 * Times(t, t)]]
  }

  function ThirdBlock(s: real, t: real): (b: Block)
    ensures |b| == 1 && Square(b)
  {
    [[-16.0 * Times(s, t)]]
  }

  lemma GramOrder(s: real, t: real)
    requires 0.0 < 3.0 * s < t
    ensures 0.0 < 3.0 * Times(s, s) < Times(s, t) && 3.0 * Times(s, t) < Times(t, t)
  {
    TimesSign(s, s);
    assert s * (t - 3.0 * s) > 0.0 && t * (t - 3.0 * s) > 0.0;
  }

  lemma SameShare(a: real)
    ensures a != 0.0 ==> Share(a, a) == 1.0
  {
  }

  lemma TwiceShare(s: real, t: real)
    requires 0.0 < s && 0.0 < t && Times(s, t) > 0.0
    ensures var f := Share(8.0 * Times(s, s), 4.0 * Times(s, t));
            Times(f, 8.0 * Times(t, t)) == 16.0 * Times(s, t) && Times(f, 4.0 * Times(t, t)) == 8.0 * Times(s, t)
  {
    var f := Share(8.0 * Times(s, s), 4.0 * Times(s, t));
    assert f * (4.0 * (s * t)) == 8.0 * (s * s);
    assert (s * t) * (f * t - 2.0 * s) == 0.0 by {
      assert (s * t) * (f * t) == (f * (s * t)) * t;
    }
    ZeroFactor(s * t, f * t - 2.0 * s);
    assert f * (t * t) == (f * t) * t;
  }

  lemma SecondRest(s: real, t: real)
    requires 0.0 < 3.0 * s < t
    ensures Leads(SecondBlock(s, t), 1) && Rest(SecondBlock(s, t), 1) == ThirdBlock(s, t)
  {
    GramOrder(s, t);
    ThriceShare(s, t);
    SameBlock(Rest(SecondBlock(s, t), 1), ThirdBlock(s, t));
  }

  lemma ThriceShare(s: real, t: real)
    requires 0.0 < s && 0.0 < t && Times(t, t) > 0.0
    ensures Times(Share(-12.0 * Times(s, t), -4.0 * Times(t, t)), 4.0 * Times(t, t)) == 12.0 * Times(s, t)
  {
    var f := Share(-12.0 * Times(s, t), -4.0 * Times(t, t));
    assert f * (-4.0 * (t * t)) == -12.0 * (s * t);
  }

  lemma ThirdRest(s: real, t: real)
    ensures Leads(ThirdBlock(s, t), 0) && Rest(ThirdBlock(s, t), 0) == []
  {
  }

  lemma NoBlock(b: Block)
    requires Square(b)
    ensures Blocks([], b) == b
  {
    SameBlock(Blocks([], b), b);
  }

  // The three pivots of the products of two scales far apart
  lemma GramPivots(m: seq<Row>, c: nat, s: real, t: real, b: Block)
    requires Augmented(m, |m|) && Square(b) && c + 3 + |b| == |m| && 0.0 < 3.0 * s < t
    requires Holds(After(m, c), c, Blocks(Gram(s, t), b))
    ensures PivotOf(m, c) == 4.0 * Times(s, t) && PivotOf(m, c + 1) == -4.0 * Times(t, t)
            && PivotOf(m, c + 2) == -16.0 * Times(s, t)
    ensures Holds(After(m, c + 3), c + 3, b)
  {
    hide Holds, After, PivotOf, Leads, Rest, Times, Augmented;
    var g2, g3 := SecondBlock(s, t), ThirdBlock(s, t);
    FirstRest(s, t);
    RestOfBlocks(Gram(s, t), b, 1);
    NextColumn(m, c, Blocks(Gram(s, t), b), 1, Blocks(g2, b));
    SecondRest(s, t);
    RestOfBlocks(g2, b, 1);
    NextColumn(m, c + 1, Blocks(g2, b), 1, Blocks(g3, b));
    ThirdRest(s, t);
    RestOfBlocks(g3, b, 0);
    NoBlock(b);
    NextColumn(m, c + 2, Blocks(g3, b), 0, b);
  }

  // How far the twelve samples must reach for the fit to be solved
  lemma TwelveSolvable(e: real, l: real)
    requires 0.0 < 3.0 * e < l
    ensures Solvable(Twelve(e, l))
            <==> 4.0 * Times(Times(e, e), Times(l, l)) >= PIVOT_EPS && 4.0 * Times(e, l) >= PIVOT_EPS
  {
    hide PivotOf, Holds, After, Gram, Times, Blocks, Mean;
    var m, none := TwelveSystem(e, l), [];
    var s, t := Times(e, e), Times(l, l);
    TwelveHolds(e, l);
    SquaresApart(e, l);
    GramPivots(m, 0, s, t, Gram(e, l));
    NoSecondBlock(Gram(e, l));
    GramPivots(m, 3, e, l, none);
    GramOrder(s, t);
    GramOrder(e, l);
    PivotSizes(m, s, t, e, l);
  }

  lemma NoSecondBlock(b: Block)
    requires Square(b)
    ensures Blocks(b, []) == b
  {
    SameBlock(Blocks(b, []), b);
  }

  lemma SquaresApart(e: real, l: real)
    requires 0.0 < 3.0 * e < l
    ensures 0.0 < 3.0 * Times(e, e) < Times(l, l)
  {
    GramOrder(e, l);
  }

  lemma PivotSizes(m: seq<Row>, s: real, t: real, e: real, l: real)
    requires Augmented(m, 6) && |m| == 6
    requires 0.0 < 3.0 * Times(s, t) < Times(t, t) && 0.0 < 3.0 * Times(e, l) < Times(l, l)
    requires PivotOf(m, 0) == 4.0 * Times(s, t) && PivotOf(m, 1) == -4.0 * Times(t, t)
             && PivotOf(m, 2) == -16.0 * Times(s, t)
    requires PivotOf(m, 3) == 4.0 * Times(e, l) && PivotOf(m, 4) == -4.0 * Times(l, l)
             && PivotOf(m, 5) == -16.0 * Times(e, l)
    ensures PivotsSuffice(m) <==> 4.0 * Times(s, t) >= PIVOT_EPS && 4.0 * Times(e, l) >= PIVOT_EPS
  {
    hide PivotOf, Times;
    if 4.0 * Times(s, t) >= PIVOT_EPS && 4.0 * Times(e, l) >= PIVOT_EPS {
      forall c: nat | c < 6 ensures Abs(PivotOf(m, c)) >= PIVOT_EPS {
        assert c == 0 || c == 1 || c == 2 || c == 3 || c == 4 || c == 5;
      }
    } else {
      assert Abs(PivotOf(m, 0)) < PIVOT_EPS || Abs(PivotOf(m, 3)) < PIVOT_EPS;
    }
  }

  // ---- Samples that lie on a surface ----

  // The coefficients of the ellipsoid through the twelve samples
  function Surface(e: real, l: real): (p: seq<real>)
    requires e > 0.0 && l > 0.0
    ensures |p| == 6
  {
    [HalfInverse(e), HalfInverse(l), HalfInverse(l), 0.0, 0.0, 0.0]
  }

  // 1 / (2 e^2)
  function HalfInverse(e: real): (a: real)
    requires e > 0.0
    ensures a > 0.0 && Times(a, Times(e, e)) == 0.5 && 1.0 / a == 2.0 * Times(e, e)
  {
    TimesSign(e, e);
    InverseOf(2.0 * Times(e, e));
    1.0 / (2.0 * Times(e, e))
  }

  lemma InverseOf(q: real)
    requires q > 0.0
    ensures 1.0 / q > 0.0 && Times(1.0 / q, q / 2.0) == 0.5 && 1.0 / (1.0 / q) == q
  {
    PositiveQuotient(1.0, q);
    QuotientTimes(1.0, q);
    OnlyQuotient(1.0, 1.0 / q, q);
  }

  function Half(x: real): real {
    if x == 0.0 then 0.0 else 0.5
  }

  lemma HalfSquare(e: real, x: real)
    requires e > 0.0 && (x == 0.0 || x == e || x == -e)
    ensures HalfInverse(e) * x * x == Half(x)
  {
    var a := HalfInverse(e);
    hide HalfInverse;
    Regrouped(a, e, e);
    assert a * -e * -e == a * e * e;
  }

  lemma SurfaceAt(e: real, l: real, x: real, y: real, z: real)
    requires e > 0.0 && l > 0.0 && (x == 0.0 || x == e || x == -e)
    requires (y == 0.0 || y == l || y == -l) && (z == 0.0 || z == l || z == -l)
    ensures Quadric(Surface(e, l), Vec3(x, y, z)) == Half(x) + Half(y) + Half(z)
  {
    HalfSquare(e, x);
    HalfSquare(l, y);
    HalfSquare(l, z);
    assert 0.0 * x + 0.0 * y + 0.0 * z == 0.0;
    hide Half;
  }

  lemma ScaledRaw(x: real, y: real, z: real)
    ensures Scaled(Raw(x, y, z), Vec3(0.0, 0.0, 0.0)) == Vec3(x, y, z)
  {
  }

  lemma OnSurface(e: real, l: real, k: nat)
    requires e > 0.0 && l > 0.0 && k < 12
    ensures Quadric(Surface(e, l), Scaled(Twelve(e, l)[k], Mean(Twelve(e, l)))) == 1.0
  {
    hide Mean, Scaled, Twelve, Raw, Quadric, Surface;
    NoMean(e, l);
    TwelvePoints(e, l, k);
    var i := k % 6;
    var x, y, z := if i == 0 || i == 2 then e else if i == 1 || i == 3 then -e else 0.0,
                   if i == 0 || i == 4 then l else if i == 1 || i == 5 then -l else 0.0,
                   if i == 2 || i == 4 then l else if i == 3 || i == 5 then -l else 0.0;
    assert Twelve(e, l)[k] == Raw(x, y, z);
    ScaledRaw(x, y, z);
    SurfaceAt(e, l, x, y, z);
  }

  // ---- An accepted fit below the guard ----

  // However narrow the ellipsoid is in one direction, the fit is accepted when it is wide enough in
  // the others, and then that semi-axis is below the guard of CalibrateFromMag.
  lemma NarrowAccepted(e: real, l: real, sqrt: real -> real)
    requires 0.0 < 3.0 * e < l && Times(e, l) >= 0.000001 && e <= 0.0000000000000001 && IsSqrt(sqrt)
    ensures Solvable(Twelve(e, l)) && Fitted(Twelve(e, l), Surface(e, l)) && Ellipsoid(Surface(e, l))
    ensures !Regular(CalibrationOf(Surface(e, l), Mean(Twelve(e, l)), sqrt))
  {
    hide Mean, Solvable, Fitted, Times, Twelve, Quadric, Scaled;
    LargeProduct(e, l);
    TwelveSolvable(e, l);
    SurfaceIsEllipsoid(e, l);
    hide Surface;
    forall k | 0 <= k < 12 ensures Quadric(Surface(e, l), Scaled(Twelve(e, l)[k], Mean(Twelve(e, l)))) == 1.0 {
      OnSurface(e, l, k);
    }
    ExactFit(Twelve(e, l), Surface(e, l));
    NarrowRoot(e, sqrt);
  }

  lemma LargeProduct(e: real, l: real)
    requires Times(e, l) >= 0.000001
    ensures 4.0 * Times(Times(e, e), Times(l, l)) >= PIVOT_EPS && 4.0 * Times(e, l) >= PIVOT_EPS
  {
    var q := e * l;
    assert (e * e) * (l * l) == q * q;
    TimesGrows(0.000001, 0.000001, q, q);
  }

  lemma SurfaceIsEllipsoid(e: real, l: real)
    requires e > 0.0 && l > 0.0
    ensures Ellipsoid(Surface(e, l)) && KOf(Surface(e, l)) == 1.0
    ensures 1.0 / Surface(e, l)[0] == 2.0 * Times(e, e)
  {
    hide HalfInverse, Times, KOf, Centre;
    var p := Surface(e, l);
    NoCentre(p[0]);
    NoCentre(p[1]);
    KFromCentres(p, 0.0, 0.0, 0.0);
    assert p[0] * 0.0 * 0.0 + p[1] * 0.0 * 0.0 + p[2] * 0.0 * 0.0 == 0.0;
  }

  lemma NoCentre(a: real)
    requires a > 0.0
    ensures Centre(a, 0.0) == 0.0
  {
  }

  lemma NarrowRoot(e: real, sqrt: real -> real)
    requires 0.0 < e <= 0.0000000000000001 && IsSqrt(sqrt)
    ensures sqrt(2.0 * Times(e, e)) * SCALE < EPS
  {
    var r := 0.0000000000000001;
    TimesGrows(e, e, r, r);
    var root := sqrt(2.0 * Times(e, e));
    assert Times(root, root) == 2.0 * Times(e, e);
    if root >= 0.000000000000001 {
      TimesGrows(0.000000000000001, 0.000000000000001, root, root);
    }
  }

  // Such samples exist: x within 1e-13 and y and z around 1e13.
  lemma GuardTripped(sqrt: real -> real) returns (samples: seq<Vec3>, p: seq<real>, v: Vec3)
    requires IsSqrt(sqrt)
    ensures |samples| == MIN_SAMPLES && Solvable(samples) && Fitted(samples, p) && Ellipsoid(p)
    ensures Quadric(p, Scaled(v, Mean(samples))) == 1.0
    ensures Magnitude(CalibrationOf(p, Mean(samples), sqrt), v, sqrt) != 1.0
  {
    hide Mean, Solvable, Fitted, Twelve, Surface, CalibrationOf, Quadric, Magnitude, Regular, Ellipsoid;
    var e, l := 0.0000000000000001, 10000000000.0;
    assert Times(e, l) == 0.000001;
    NarrowAccepted(e, l, sqrt);
    samples, p := Twelve(e, l), Surface(e, l);
    v := DegenerateAxis(p, Mean(samples), sqrt);
  }

  // ---- Samples that determine an ellipsoid and are refused ----

  lemma SixEquations(e: real, l: real, d: seq<real>, k: nat)
    requires |d| == 6 && k < 6
    ensures Dot(RowOfSix(e, l, k), d, 6)
         == Times(RowOfSix(e, l, k)[0], d[0]) + Times(RowOfSix(e, l, k)[1], d[1]) + Times(RowOfSix(e, l, k)[2], d[2])
            + Times(RowOfSix(e, l, k)[3], d[3]) + Times(RowOfSix(e, l, k)[4], d[4]) + Times(RowOfSix(e, l, k)[5], d[5])
  {
    hide Dot, Times, RowOfSix;
    var v := RowOfSix(e, l, k);
    NoDot(v, d);
    DotNext(v, d, 0);
    DotNext(v, d, 1);
    DotNext(v, d, 2);
    DotNext(v, d, 3);
    DotNext(v, d, 4);
    DotNext(v, d, 5);
  }

  // An even and an odd part that cancel in both signs are zero.
  lemma EvenAndOdd(x: real, y: real, z: real, d: seq<real>)
    requires |d| == 6
    requires Times(Times(x, x), d[0]) + Times(Times(y, y), d[1]) + Times(Times(z, z), d[2])
             + Times(x, d[3]) + Times(y, d[4]) + Times(z, d[5]) == 0.0
    requires Times(Times(-x, -x), d[0]) + Times(Times(-y, -y), d[1]) + Times(Times(-z, -z), d[2])
             + Times(-x, d[3]) + Times(-y, d[4]) + Times(-z, d[5]) == 0.0
    ensures Times(Times(x, x), d[0]) + Times(Times(y, y), d[1]) + Times(Times(z, z), d[2]) == 0.0
    ensures Times(x, d[3]) + Times(y, d[4]) + Times(z, d[5]) == 0.0
  {
    hide Times;
    SignsOfProduct(x, x);
    SignsOfProduct(y, y);
    SignsOfProduct(z, z);
    SignsOfProduct(x, d[3]);
    SignsOfProduct(y, d[4]);
    SignsOfProduct(z, d[5]);
  }

  // Two scales that vanish pairwise with three numbers make them zero.
  lemma PairwiseZero(s: real, t: real, a: real, b: real, c: real)
    requires s > 0.0 && t > 0.0
    requires Times(s, a) + Times(t, b) == 0.0 && Times(s, a) + Times(t, c) == 0.0 && Times(t, b) + Times(t, c) == 0.0
    ensures a == 0.0 && b == 0.0 && c == 0.0
  {
    ZeroFactor(t, b);
    ZeroFactor(t, c);
    ZeroFactor(s, a);
  }

  // The twelve samples leave no combination of the coefficients free.
  lemma TwelveDetermine(e: real, l: real)
    requires e > 0.0 && l > 0.0
    ensures !Unconstrained(TwelveData(e, l), 6)
  {
    hide Free, NonZero, TwelveData;
    if Unconstrained(TwelveData(e, l), 6) {
      var d: seq<real> :| |d| == 6 && NonZero(d) && Free(TwelveData(e, l), d);
      FreeIsZero(e, l, d);
    }
  }

  lemma FreeDot(e: real, l: real, d: seq<real>, k: nat)
    requires |d| == 6 && k < 6 && Free(TwelveData(e, l), d)
    ensures Dot(RowOfSix(e, l, k), d, 6) == 0.0
  {
    hide Dot, RowOfSix, TwelveData;
    TwelveRows(e, l, k);
    assert Unchanged(TwelveData(e, l), d, k);
  }

  lemma FreePair(e: real, l: real, d: seq<real>, k: nat)
    requires |d| == 6 && k < 6 && k % 2 == 0 && Free(TwelveData(e, l), d)
    ensures var row := RowOfSix(e, l, k);
            && Times(row[0], d[0]) + Times(row[1], d[1]) + Times(row[2], d[2]) == 0.0
            && Times(row[3], d[3]) + Times(row[4], d[4]) + Times(row[5], d[5]) == 0.0
  {
    hide Dot, Times, Free, TwelveData;
    FreeDot(e, l, d, k);
    FreeDot(e, l, d, k + 1);
    SixEquations(e, l, d, k);
    SixEquations(e, l, d, k + 1);
    var row := RowOfSix(e, l, k);
    EvenAndOdd(row[3], row[4], row[5], d);
  }

  lemma FreeIsZero(e: real, l: real, d: seq<real>)
    requires e > 0.0 && l > 0.0 && |d| == 6 && Free(TwelveData(e, l), d)
    ensures !NonZero(d)
  {
    hide Times, Free, TwelveData;
    FreePair(e, l, d, 0);
    FreePair(e, l, d, 2);
    FreePair(e, l, d, 4);
    TimesZero(d[0]);
    TimesZero(d[1]);
    TimesZero(d[2]);
    TimesZero(d[3]);
    TimesZero(d[4]);
    TimesZero(d[5]);
    TimesZero(0.0);
    TimesSign(e, e);
    TimesSign(l, l);
    PairwiseZero(Times(e, e), Times(l, l), d[0], d[1], d[2]);
    PairwiseZero(e, l, d[3], d[4], d[5]);
  }

  // Too close together they are refused all the same.
  lemma SmallRefused(e: real)
    requires 0.0 < e <= 1.0 && Times(12.0, Times(e, Times(e, e))) < PIVOT_EPS
    ensures !Unconstrained(TwelveData(e, e), 6) && !Solvable(Twelve(e, e))
  {
    hide Times, TwelveData, Twelve, NormalSystem, Doubled, PivotsSuffice;
    TwelveDetermine(e, e);
    SquareBelow(e);
    forall i: nat | i < 6 ensures Below(TwelveData(e, e), i, e) {
      TwelveBelow(e, i);
    }
    TwelveBelow(e, 0);
    NotDoubled(Times(12.0, Times(e, Times(e, e))));
    SmallFeatureRefused(TwelveData(e, e), 0, Times(e, e), e);
    RefusedSystem(e, e);
  }

  lemma NotDoubled(b: real)
    ensures Doubled(b, 0) == b
  {
  }

  lemma RefusedSystem(e: real, l: real)
    requires !PivotsSuffice(NormalSystem(TwelveData(e, l), 6))
    ensures !Solvable(Twelve(e, l))
  {
    hide Twelve, Mean, PivotsSuffice, NormalSystem;
  }

  lemma SquareBelow(e: real)
    requires 0.0 < e <= 1.0
    ensures 0.0 <= Times(e, e) <= e
  {
    TimesGrows(e, e, 1.0, e);
    OneTimes(e);
  }

  lemma TwelveBelow(e: real, i: nat)
    requires 0.0 < e <= 1.0 && i < 6
    ensures Below(TwelveData(e, e), i, e) && (i < 3 ==> Below(TwelveData(e, e), i, Times(e, e)))
  {
    hide TwelveData, Times;
    var data := TwelveData(e, e);
    SquareBelow(e);
    forall k | 0 <= k < 12 ensures Abs(data[k].row[i]) <= if i < 3 then Times(e, e) else e {
      TwelveRows(e, e, k);
      SignsOfProduct(e, e);
      TimesZero(0.0);
    }
  }

  // Twelve samples exactly on a sphere, within 0.02 of their mean
  lemma SmallSphereRefused()
    ensures var samples := Twelve(0.00001, 0.00001);
            && |samples| >= MIN_SAMPLES && !Unconstrained(Data(samples, Mean(samples)), 6) && !Solvable(samples)
            && forall k :: 0 <= k < |samples| ==> NormSquare(samples[k]) == 0.0002
  {
    hide Unconstrained, Solvable, Mean;
    SmallRefused(0.00001);
    forall k | 0 <= k < 12 ensures NormSquare(Twelve(0.00001, 0.00001)[k]) == 0.0002 {
      TwelvePoints(0.00001, 0.00001, k);
    }
  }
}
