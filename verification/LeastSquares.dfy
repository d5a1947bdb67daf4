// Weighted linear least squares over any number of samples and unknowns: the solutions of the
// normal equations are the minimisers.
module LeastSquares {
  import opened Reals

  // One sample: the row of the unknowns' coefficients, the wanted value and its weight.
  datatype Sample = Sample(row: seq<real>, target: real, weight: real)

  ghost predicate Shaped(data: seq<Sample>, n: nat) {
    forall k :: 0 <= k < |data| ==> |data[k].row| == n
  }

  ghost predicate NonNegative(data: seq<Sample>) {
    forall k :: 0 <= k < |data| ==> data[k].weight >= 0.0
  }

  // The first n products.
  function Dot(u: seq<real>, v: seq<real>, n: nat): real
    requires n <= |u| && n <= |v|
  {
    if n == 0 then 0.0 else Dot(u, v, n - 1) + u[n - 1] * v[n - 1]
  }

  function Residual(s: Sample, p: seq<real>): real
    requires |s.row| == |p|
  {
    Dot(s.row, p, |p|) - s.target
  }

  // The weighted sum of the squared residuals of the first m samples.
  function Error(data: seq<Sample>, p: seq<real>, m: nat): real
    requires Shaped(data, |p|) && m <= |data|
  {
    if m == 0 then 0.0
    else
      var r := Residual(data[m - 1], p);
      Error(data, p, m - 1) + Times(data[m - 1].weight, Times(r, r))
  }

  // Entry i, j of the normal matrix.
  function Normal(data: seq<Sample>, n: nat, m: nat, i: nat, j: nat): real
    requires Shaped(data, n) && m <= |data| && i < n && j < n
  {
    if m == 0 then 0.0
    else
      var s := data[m - 1];
      Normal(data, n, m - 1, i, j) + s.weight * (s.row[i] * s.row[j])
  }

  // Entry i of the right-hand side of the normal equations.
  function Right(data: seq<Sample>, n: nat, m: nat, i: nat): real
    requires Shaped(data, n) && m <= |data| && i < n
  {
    if m == 0 then 0.0
    else
      var s := data[m - 1];
      Right(data, n, m - 1, i) + s.weight * (s.row[i] * s.target)
  }

  // The first k products of row i of the normal matrix with p.
  function NormalDot(data: seq<Sample>, p: seq<real>, m: nat, i: nat, k: nat): real
    requires Shaped(data, |p|) && m <= |data| && i < |p| && k <= |p|
  {
    if k == 0 then 0.0 else NormalDot(data, p, m, i, k - 1) + Normal(data, |p|, m, i, k - 1) * p[k - 1]
  }

  ghost predicate SolvesNormal(data: seq<Sample>, p: seq<real>)
    requires Shaped(data, |p|)
  {
    forall i: nat :: i < |p| ==> NormalDot(data, p, |data|, i, |p|) == Right(data, |p|, |data|, i)
  }

  ghost predicate Minimises(data: seq<Sample>, p: seq<real>)
    requires Shaped(data, |p|)
  {
    forall q: seq<real> :: |q| == |p| ==> Error(data, p, |data|) <= Error(data, q, |data|)
  }

  // ---- Proof ----

  function Minus(q: seq<real>, p: seq<real>): seq<real>
    requires |q| == |p|
  {
    seq(|p|, i requires 0 <= i < |p| => q[i] - p[i])
  }

  lemma {:induction false} DotMinus(u: seq<real>, q: seq<real>, p: seq<real>, n: nat)
    requires |q| == |p| && n <= |p| && n <= |u|
    ensures Dot(u, Minus(q, p), n) == Dot(u, q, n) - Dot(u, p, n)
  {
    if n > 0 {
      DotMinus(u, q, p, n - 1);
      var a, b, c := u[n - 1], q[n - 1], p[n - 1];
      assert a * (b - c) == a * b - a * c;
    }
  }

  // Half the derivative of the error along the unknown i.
  function Gradient(data: seq<Sample>, p: seq<real>, m: nat, i: nat): real
    requires Shaped(data, |p|) && m <= |data| && i < |p|
  {
    if m == 0 then 0.0
    else
      var s := data[m - 1];
      Gradient(data, p, m - 1, i) + s.weight * s.row[i] * Residual(s, p)
  }

  function GradientDot(data: seq<Sample>, p: seq<real>, d: seq<real>, m: nat, k: nat): real
    requires Shaped(data, |p|) && m <= |data| && k <= |p| == |d|
  {
    if k == 0 then 0.0 else GradientDot(data, p, d, m, k - 1) + d[k - 1] * Gradient(data, p, m, k - 1)
  }

  // The same derivative, sample by sample.
  function Slope(data: seq<Sample>, p: seq<real>, d: seq<real>, m: nat): real
    requires Shaped(data, |p|) && m <= |data| && |p| == |d|
  {
    if m == 0 then 0.0
    else
      var s := data[m - 1];
      Slope(data, p, d, m - 1) + Times(Times(s.weight, Residual(s, p)), Dot(s.row, d, |d|))
  }

  lemma {:induction false} GradientDotStep(data: seq<Sample>, p: seq<real>, d: seq<real>, m: nat, k: nat)
    requires Shaped(data, |p|) && 0 < m <= |data| && k <= |p| == |d|
    ensures GradientDot(data, p, d, m, k)
         == GradientDot(data, p, d, m - 1, k)
            + Times(Times(data[m - 1].weight, Residual(data[m - 1], p)), Dot(data[m - 1].row, d, k))
  {
    hide Residual;
    if k > 0 {
      GradientDotStep(data, p, d, m, k - 1);
      var s := data[m - 1];
      StepTerm(s.weight, Residual(s, p), d[k - 1], Gradient(data, p, m - 1, k - 1), s.row[k - 1], Dot(s.row, d, k - 1));
    }
  }

  lemma StepTerm(w: real, r: real, d: real, g: real, x: real, dot: real)
    ensures Times(Times(w, r), dot + x * d) == Times(Times(w, r), dot) + d * (g + w * x * r) - d * g
  {
    assert w * r * (dot + x * d) == w * r * dot + d * (w * x * r);
    assert d * (g + w * x * r) == d * g + d * (w * x * r);
  }

  lemma {:induction false} GradientDotZero(data: seq<Sample>, p: seq<real>, d: seq<real>, k: nat)
    requires Shaped(data, |p|) && k <= |p| == |d|
    ensures GradientDot(data, p, d, 0, k) == 0.0
  {
    if k > 0 {
      GradientDotZero(data, p, d, k - 1);
    }
  }

  lemma {:induction false} SlopeIsGradient(data: seq<Sample>, p: seq<real>, d: seq<real>, m: nat)
    requires Shaped(data, |p|) && m <= |data| && |p| == |d|
    ensures Slope(data, p, d, m) == GradientDot(data, p, d, m, |p|)
  {
    hide Residual, Dot;
    if m == 0 {
      GradientDotZero(data, p, d, |p|);
    } else {
      SlopeIsGradient(data, p, d, m - 1);
      GradientDotStep(data, p, d, m, |p|);
    }
  }

  // The gradient is the normal matrix times p, less the right-hand side.
  lemma {:induction false} NormalDotStep(data: seq<Sample>, p: seq<real>, m: nat, i: nat, k: nat)
    requires Shaped(data, |p|) && 0 < m <= |data| && i < |p| && k <= |p|
    ensures NormalDot(data, p, m, i, k)
         == NormalDot(data, p, m - 1, i, k) + data[m - 1].weight * data[m - 1].row[i] * Dot(data[m - 1].row, p, k)
  {
    if k > 0 {
      NormalDotStep(data, p, m, i, k - 1);
      var s := data[m - 1];
      NormalTerm(s.weight, s.row[i], s.row[k - 1], p[k - 1], Normal(data, |p|, m - 1, i, k - 1), Dot(s.row, p, k - 1));
    }
  }

  lemma NormalTerm(w: real, x: real, y: real, p: real, g: real, dot: real)
    ensures (g + w * (x * y)) * p == g * p + w * x * (y * p)
    ensures w * x * (dot + y * p) == w * x * dot + w * x * (y * p)
  {
  }

  lemma {:induction false} NormalDotZero(data: seq<Sample>, p: seq<real>, i: nat, k: nat)
    requires Shaped(data, |p|) && i < |p| && k <= |p|
    ensures NormalDot(data, p, 0, i, k) == 0.0
  {
    if k > 0 {
      NormalDotZero(data, p, i, k - 1);
    }
  }

  lemma {:induction false} GradientIsNormal(data: seq<Sample>, p: seq<real>, m: nat, i: nat)
    requires Shaped(data, |p|) && m <= |data| && i < |p|
    ensures Gradient(data, p, m, i) == NormalDot(data, p, m, i, |p|) - Right(data, |p|, m, i)
  {
    hide NormalDot, Dot;
    if m == 0 {
      NormalDotZero(data, p, i, |p|);
    } else {
      GradientIsNormal(data, p, m - 1, i);
      NormalDotStep(data, p, m, i, |p|);
      var s := data[m - 1];
      GradientTerm(s.weight, s.row[i], Dot(s.row, p, |p|), s.target);
    }
  }

  lemma GradientTerm(w: real, x: real, dot: real, t: real)
    ensures w * x * (dot - t) == w * x * dot - w * (x * t)
  {
  }

  lemma {:induction false} FlatGradient(data: seq<Sample>, p: seq<real>, d: seq<real>, k: nat)
    requires Shaped(data, |p|) && k <= |p| == |d| && SolvesNormal(data, p)
    ensures GradientDot(data, p, d, |data|, k) == 0.0
  {
    if k > 0 {
      FlatGradient(data, p, d, k - 1);
      GradientIsNormal(data, p, |data|, k - 1);
    }
  }

  // The weighted squares of what a change of the unknowns by d changes at the samples
  function Change(data: seq<Sample>, d: seq<real>, m: nat): real
    requires Shaped(data, |d|) && m <= |data|
  {
    if m == 0 then 0.0
    else
      var s := data[m - 1];
      var e := Dot(s.row, d, |d|);
      Change(data, d, m - 1) + Times(s.weight, Times(e, e))
  }

  // Moving from p to q changes the error by the slope and by that sum of squares.
  lemma {:induction false} ErrorChanges(data: seq<Sample>, p: seq<real>, q: seq<real>, m: nat)
    requires Shaped(data, |p|) && |q| == |p| && m <= |data|
    ensures Error(data, q, m)
         == Error(data, p, m) + 2.0 * Slope(data, p, Minus(q, p), m) + Change(data, Minus(q, p), m)
  {
    hide Residual, Times, Dot;
    if m > 0 {
      ErrorChanges(data, p, q, m - 1);
      ResidualChanges(data[m - 1], p, q);
      SquareChanges(data[m - 1].weight, Residual(data[m - 1], p), Residual(data[m - 1], q),
                    Dot(data[m - 1].row, Minus(q, p), |p|));
    }
  }

  lemma ResidualChanges(s: Sample, p: seq<real>, q: seq<real>)
    requires |s.row| == |p| == |q|
    ensures Residual(s, q) == Residual(s, p) + Dot(s.row, Minus(q, p), |p|)
  {
    DotMinus(s.row, q, p, |p|);
  }

  lemma SquareChanges(w: real, r: real, t: real, e: real)
    requires t == r + e
    ensures Times(w, Times(t, t)) == Times(w, Times(r, r)) + 2.0 * Times(Times(w, r), e) + Times(w, Times(e, e))
  {
    assert w * ((r + e) * (r + e)) == w * (r * r) + 2.0 * (w * r * e) + w * (e * e);
  }

  ghost predicate Unchanged(data: seq<Sample>, d: seq<real>, k: nat)
    requires Shaped(data, |d|) && k < |data|
  {
    data[k].weight == 0.0 || Dot(data[k].row, d, |d|) == 0.0
  }

  lemma {:induction false} ChangeSign(data: seq<Sample>, d: seq<real>, m: nat)
    requires Shaped(data, |d|) && NonNegative(data) && m <= |data|
    ensures Change(data, d, m) >= 0.0
    ensures Change(data, d, m) == 0.0 ==> forall k :: 0 <= k < m ==> Unchanged(data, d, k)
  {
    hide Times, Dot;
    if m > 0 {
      ChangeSign(data, d, m - 1);
      var e := Dot(data[m - 1].row, d, |d|);
      TimesSign(e, e);
      TimesSign(data[m - 1].weight, Times(e, e));
    }
  }

  lemma ErrorAtSolution(data: seq<Sample>, p: seq<real>, q: seq<real>)
    requires Shaped(data, |p|) && |q| == |p| && SolvesNormal(data, p)
    ensures Error(data, q, |data|) == Error(data, p, |data|) + Change(data, Minus(q, p), |data|)
  {
    ErrorChanges(data, p, q, |data|);
    SlopeIsGradient(data, p, Minus(q, p), |data|);
    FlatGradient(data, p, Minus(q, p), |p|);
  }

  // A solution of the normal equations has the least error of all vectors.
  lemma NormalMinimises(data: seq<Sample>, p: seq<real>)
    requires Shaped(data, |p|) && NonNegative(data) && SolvesNormal(data, p)
    ensures Minimises(data, p)
  {
    forall q: seq<real> | |q| == |p| ensures Error(data, p, |data|) <= Error(data, q, |data|) {
      ErrorAtSolution(data, p, q);
      ChangeSign(data, Minus(q, p), |data|);
    }
  }

  lemma {:induction false} NormalDotMinus(data: seq<Sample>, q: seq<real>, p: seq<real>, m: nat, i: nat, k: nat)
    requires Shaped(data, |p|) && |q| == |p| && m <= |data| && i < |p| && k <= |p|
    ensures NormalDot(data, Minus(q, p), m, i, k) == NormalDot(data, q, m, i, k) - NormalDot(data, p, m, i, k)
  {
    hide Normal;
    if k > 0 {
      NormalDotMinus(data, q, p, m, i, k - 1);
      var a, b, c := Normal(data, |p|, m, i, k - 1), q[k - 1], p[k - 1];
      assert a * (b - c) == a * b - a * c;
    }
  }

  lemma {:induction false} UnchangedNormal(data: seq<Sample>, d: seq<real>, m: nat, i: nat)
    requires Shaped(data, |d|) && m <= |data| && i < |d|
    requires forall k :: 0 <= k < m ==> Unchanged(data, d, k)
    ensures NormalDot(data, d, m, i, |d|) == 0.0
  {
    hide Dot, NormalDot;
    if m == 0 {
      NormalDotZero(data, d, i, |d|);
    } else {
      UnchangedNormal(data, d, m - 1, i);
      NormalDotStep(data, d, m, i, |d|);
      assert Unchanged(data, d, m - 1);
    }
  }

  // The samples with the wanted values replaced by zero
  function Untargeted(data: seq<Sample>): (u: seq<Sample>)
    ensures |u| == |data|
  {
    seq(|data|, k requires 0 <= k < |data| => data[k].(target := 0.0))
  }

  lemma {:induction false} UntargetedNormal(data: seq<Sample>, n: nat, m: nat, i: nat, j: nat)
    requires Shaped(data, n) && m <= |data| && i < n && j < n
    ensures Shaped(Untargeted(data), n)
    ensures Normal(Untargeted(data), n, m, i, j) == Normal(data, n, m, i, j)
    ensures Right(Untargeted(data), n, m, i) == 0.0
  {
    if m > 0 {
      UntargetedNormal(data, n, m - 1, i, j);
    }
  }

  lemma {:induction false} UntargetedDot(data: seq<Sample>, d: seq<real>, i: nat, k: nat)
    requires Shaped(data, |d|) && i < |d| && k <= |d|
    ensures Shaped(Untargeted(data), |d|)
    ensures NormalDot(Untargeted(data), d, |data|, i, k) == NormalDot(data, d, |data|, i, k)
  {
    hide Normal;
    if k > 0 {
      UntargetedDot(data, d, i, k - 1);
      UntargetedNormal(data, |d|, |data|, i, k - 1);
    }
  }

  lemma {:induction false} SlopeIsChange(data: seq<Sample>, d: seq<real>, m: nat)
    requires Shaped(data, |d|) && m <= |data|
    ensures Shaped(Untargeted(data), |d|)
    ensures Slope(Untargeted(data), d, d, m) == Change(data, d, m)
  {
    hide Dot;
    if m > 0 {
      SlopeIsChange(data, d, m - 1);
    }
  }

  // A vector that the normal matrix takes to zero changes nothing.
  lemma NoChange(data: seq<Sample>, d: seq<real>)
    requires Shaped(data, |d|) && forall i: nat :: i < |d| ==> NormalDot(data, d, |data|, i, |d|) == 0.0
    ensures Change(data, d, |data|) == 0.0
  {
    hide Normal, NormalDot, Right, Slope, Change;
    SlopeIsChange(data, d, |data|);
    var u := Untargeted(data);
    forall i: nat | i < |d| ensures NormalDot(u, d, |u|, i, |d|) == Right(u, |d|, |u|, i) {
      UntargetedDot(data, d, i, |d|);
      UntargetedNormal(data, |d|, |data|, i, 0);
    }
    SlopeIsGradient(u, d, d, |u|);
    FlatGradient(u, d, d, |d|);
  }

  // Any other vector with that least error solves the normal equations too.
  lemma SameErrorSolves(data: seq<Sample>, p: seq<real>, q: seq<real>)
    requires Shaped(data, |p|) && NonNegative(data) && SolvesNormal(data, p)
    requires |q| == |p| && Error(data, q, |data|) <= Error(data, p, |data|)
    ensures SolvesNormal(data, q)
  {
    var d := Minus(q, p);
    ErrorAtSolution(data, p, q);
    ChangeSign(data, d, |data|);
    forall i: nat | i < |q| ensures NormalDot(data, q, |data|, i, |q|) == Right(data, |q|, |data|, i) {
      UnchangedNormal(data, d, |data|, i);
      NormalDotMinus(data, q, p, |data|, i, |p|);
    }
  }

  // p is the one vector of least error.
  ghost predicate OnlyMinimiser(data: seq<Sample>, p: seq<real>)
    requires Shaped(data, |p|)
  {
    && Minimises(data, p)
    && forall q: seq<real> :: |q| == |p| && Error(data, q, |data|) <= Error(data, p, |data|) ==> q == p
  }
}
