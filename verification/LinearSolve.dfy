// common/magcal.go, solve6: Gauss-Jordan elimination with partial pivoting, for any number of
// unknowns n. A matrix holds n rows of n coefficients and a right-hand side.
module LinearSolve {
  import opened LeastSquares
  import opened Reals

  type Row = seq<real>

  ghost predicate Augmented(m: seq<Row>, n: nat) {
    |m| == n && forall r :: 0 <= r < n ==> |m[r]| == n + 1
  }

  ghost predicate RowHolds(row: Row, x: seq<real>) {
    |row| == |x| + 1 && Dot(row, x, |x|) == row[|x|]
  }

  ghost predicate Solves(m: seq<Row>, x: seq<real>) {
    && Augmented(m, |x|)
    && forall r :: 0 <= r < |m| ==> RowHolds(m[r], x)
  }

  // The same solutions
  ghost predicate Equivalent(m: seq<Row>, m': seq<Row>, n: nat) {
    forall x: seq<real> :: |x| == n ==> (Solves(m, x) <==> Solves(m', x))
  }

  // The coefficients of m, without the right-hand side, take d to zero.
  ghost predicate Vanishes(m: seq<Row>, d: seq<real>) {
    && Augmented(m, |d|)
    && forall r :: 0 <= r < |m| ==> Dot(m[r], d, |d|) == 0.0
  }

  ghost predicate SameVanishing(m: seq<Row>, m': seq<Row>, n: nat) {
    forall d: seq<real> :: |d| == n ==> (Vanishes(m, d) <==> Vanishes(m', d))
  }

  // ---- Elementary steps ----

  function Swapped(m: seq<Row>, i: nat, j: nat): seq<Row>
    requires i < |m| && j < |m|
  {
    m[i := m[j]][j := m[i]]
  }

  lemma SwapKeeps(m: seq<Row>, i: nat, j: nat, n: nat)
    requires Augmented(m, n) && i < n && j < n
    ensures Augmented(Swapped(m, i, j), n)
    ensures Equivalent(m, Swapped(m, i, j), n) && SameVanishing(m, Swapped(m, i, j), n)
  {
    hide Dot;
    var s := Swapped(m, i, j);
    assert s[i] == m[j] && s[j] == m[i];
    forall x: seq<real> | |x| == n ensures Solves(m, x) <==> Solves(s, x) {
      if Solves(s, x) {
        forall r | 0 <= r < n ensures RowHolds(m[r], x) {
          assert RowHolds(s[if r == i then j else if r == j then i else r], x);
        }
      }
    }
    forall d: seq<real> | |d| == n ensures Vanishes(m, d) <==> Vanishes(s, d) {
      if Vanishes(s, d) {
        forall r | 0 <= r < n ensures Dot(m[r], d, n) == 0.0 {
          assert Dot(s[if r == i then j else if r == j then i else r], d, n) == 0.0;
        }
      }
    }
  }

  // a - f * b, from column c on
  function Reduced(a: Row, b: Row, f: real, c: nat): Row
    requires |a| == |b|
  {
    seq(|a|, k requires 0 <= k < |a| => if k < c then a[k] else a[k] - f * b[k])
  }

  lemma {:induction false} ReducedDot(a: Row, b: Row, f: real, x: seq<real>, k: nat)
    requires |a| == |b| && k <= |x| < |a|
    ensures Dot(Reduced(a, b, f, 0), x, k) == Dot(a, x, k) - f * Dot(b, x, k)
  {
    if k > 0 {
      ReducedDot(a, b, f, x, k - 1);
      ReducedTerm(a[k - 1], b[k - 1], f, x[k - 1], Dot(b, x, k - 1));
    }
  }

  lemma ReducedTerm(a: real, b: real, f: real, x: real, dot: real)
    ensures (a - f * b) * x == a * x - f * (b * x)
    ensures f * (dot + b * x) == f * dot + f * (b * x)
  {
  }

  // With cleared columns left of c, reducing from c on is reducing the whole row.
  lemma ReducedFrom(a: Row, b: Row, f: real, c: nat)
    requires |a| == |b| && forall k :: 0 <= k < c && k < |b| ==> b[k] == 0.0
    ensures Reduced(a, b, f, c) == Reduced(a, b, f, 0)
  {
  }

  lemma ReducedHolds(a: Row, b: Row, f: real, x: seq<real>)
    requires |a| == |b| == |x| + 1 && RowHolds(b, x)
    ensures RowHolds(a, x) <==> RowHolds(Reduced(a, b, f, 0), x)
  {
    ReducedDot(a, b, f, x, |x|);
  }

  function Eliminated(m: seq<Row>, r: nat, c: nat, f: real): seq<Row>
    requires r < |m| && c < |m| && |m[r]| == |m[c]|
  {
    m[r := Reduced(m[r], m[c], f, 0)]
  }

  // How often row c goes into row r, to leave a zero in column c
  function Factor(m: seq<Row>, r: nat, c: nat): real
    requires r < |m| && c < |m| && c < |m[r]| && c < |m[c]|
  {
    if m[c][c] == 0.0 then 0.0 else m[r][c] / m[c][c]
  }

  // Row c subtracted from all others as often as it goes.
  ghost function ColumnCleared(m: seq<Row>, c: nat): (e: seq<Row>)
    requires Augmented(m, |m|) && c < |m|
    ensures |e| == |m| && Augmented(e, |m|)
  {
    seq(|m|, r requires 0 <= r < |m| => if r == c then m[c] else Reduced(m[r], m[c], Factor(m, r, c), 0))
  }

  lemma ColumnClearedKeeps(m: seq<Row>, c: nat)
    requires Augmented(m, |m|) && c < |m|
    ensures Equivalent(m, ColumnCleared(m, c), |m|) && SameVanishing(m, ColumnCleared(m, c), |m|)
  {
    hide Reduced, Dot, Factor, RowHolds;
    var n, e := |m|, ColumnCleared(m, c);
    assert e[c] == m[c];
    forall x: seq<real> | |x| == n ensures Solves(m, x) <==> Solves(e, x) {
      if RowHolds(m[c], x) {
        forall r | 0 <= r < n ensures RowHolds(m[r], x) <==> RowHolds(e[r], x) {
          ReducedHolds(m[r], m[c], Factor(m, r, c), x);
        }
      }
      SameRows(m, e, c, x);
    }
    forall d: seq<real> | |d| == n ensures Vanishes(m, d) <==> Vanishes(e, d) {
      if Dot(m[c], d, n) == 0.0 {
        forall r | 0 <= r < n ensures Dot(m[r], d, n) == Dot(e[r], d, n) {
          ReducedDot(m[r], m[c], Factor(m, r, c), d, n);
        }
      }
    }
  }

  lemma SameRows(m: seq<Row>, e: seq<Row>, c: nat, x: seq<real>)
    requires Augmented(m, |x|) && Augmented(e, |x|) && c < |x| && e[c] == m[c]
    requires RowHolds(m[c], x) ==> forall r :: 0 <= r < |x| ==> (RowHolds(m[r], x) <==> RowHolds(e[r], x))
    ensures Solves(m, x) <==> Solves(e, x)
  {
    hide RowHolds;
  }

  lemma EquivalentSteps(a: seq<Row>, b: seq<Row>, c: seq<Row>, n: nat)
    requires Equivalent(a, b, n) && Equivalent(b, c, n)
    ensures Equivalent(a, c, n)
  {
    hide Solves;
  }

  lemma VanishingSteps(a: seq<Row>, b: seq<Row>, c: seq<Row>, n: nat)
    requires SameVanishing(a, b, n) && SameVanishing(b, c, n)
    ensures SameVanishing(a, c, n)
  {
    hide Vanishes;
  }

  // ---- What the columns already done look like ----

  ghost predicate ClearedColumn(m: seq<Row>, c: nat)
    requires c < |m| && Augmented(m, |m|)
  {
    && m[c][c] != 0.0
    && forall r :: 0 <= r < |m| && r != c ==> m[r][c] == 0.0
  }

  ghost predicate Cleared(m: seq<Row>, cols: nat) {
    && Augmented(m, |m|) && cols <= |m|
    && forall c :: 0 <= c < cols ==> ClearedColumn(m, c)
  }

  lemma {:induction false} ClearedDot(row: Row, i: nat, x: seq<real>, k: nat)
    requires k <= |x| < |row| && forall c :: 0 <= c < |x| && c != i ==> row[c] == 0.0
    ensures Dot(row, x, k) == if i < k then row[i] * x[i] else 0.0
  {
    if k > 0 {
      ClearedDot(row, i, x, k - 1);
    }
  }

  ghost predicate Quotients(m: seq<Row>, x: seq<real>) {
    && Augmented(m, |x|)
    && forall i :: 0 <= i < |x| ==> m[i][i] != 0.0 && x[i] == m[i][|x|] / m[i][i]
  }

  lemma ClearedRow(m: seq<Row>, x: seq<real>, i: nat)
    requires Augmented(m, |x|) && Cleared(m, |x|) && i < |x|
    ensures RowHolds(m[i], x) <==> m[i][i] * x[i] == m[i][|x|]
  {
    assert ClearedColumn(m, i);
    forall c | 0 <= c < |x| && c != i ensures m[i][c] == 0.0 {
      assert ClearedColumn(m, c);
    }
    ClearedDot(m[i], i, x, |x|);
  }

  // A fully cleared system has exactly one solution, read off its diagonal.
  lemma ClearedSolution(m: seq<Row>, x: seq<real>, n: nat)
    requires Augmented(m, n) && Cleared(m, n) && |x| == n && Quotients(m, x)
    ensures Solves(m, x)
    ensures forall y: seq<real> :: |y| == n && Solves(m, y) ==> y == x
  {
    hide Dot, RowHolds;
    forall i | 0 <= i < n ensures RowHolds(m[i], x) {
      ClearedRow(m, x, i);
      QuotientTimes(m[i][n], m[i][i]);
    }
    forall y: seq<real> | |y| == n && Solves(m, y) ensures y == x {
      forall i | 0 <= i < n ensures y[i] == x[i] {
        ClearedRow(m, y, i);
        assert RowHolds(m[i], y);
        assert ClearedColumn(m, i);
        OnlyQuotient(m[i][n], m[i][i], y[i]);
      }
    }
  }

  lemma QuotientTimes(b: real, d: real)
    requires d != 0.0
    ensures d * (b / d) == b && b / d * d == b
  {
  }

  lemma OnlyQuotient(b: real, d: real, y: real)
    requires d != 0.0 && d * y == b
    ensures y == b / d
  {
  }

  lemma SwapCleared(m: seq<Row>, i: nat, j: nat, cols: nat)
    requires Cleared(m, cols) && cols <= i < |m| && cols <= j < |m|
    ensures Cleared(Swapped(m, i, j), cols)
  {
    var s := Swapped(m, i, j);
    forall c | 0 <= c < cols ensures ClearedColumn(s, c) {
      assert ClearedColumn(m, c);
    }
  }

  lemma ColumnClearedClears(m: seq<Row>, c: nat)
    requires Cleared(m, c) && c < |m| && m[c][c] != 0.0
    ensures Cleared(ColumnCleared(m, c), c + 1)
  {
    var e := ColumnCleared(m, c);
    forall k | 0 <= k <= c ensures ClearedColumn(e, k) {
      if k < c {
        assert ClearedColumn(m, k);
      } else {
        forall r | 0 <= r < |m| && r != c ensures e[r][c] == 0.0 {
          QuotientTimes(m[r][c], m[c][c]);
        }
      }
    }
  }

  // ---- What elimination comes to ----

  // The first row of largest magnitude in column c, from the diagonal down
  ghost predicate IsPivotRow(m: seq<Row>, c: nat, p: nat)
    requires Augmented(m, |m|) && c < |m|
  {
    && c <= p < |m|
    && (forall r :: c <= r < p ==> Abs(m[r][c]) < Abs(m[p][c]))
    && forall r :: p <= r < |m| ==> Abs(m[r][c]) <= Abs(m[p][c])
  }

  lemma {:induction false} PivotRowExists(m: seq<Row>, c: nat, k: nat) returns (p: nat)
    requires Augmented(m, |m|) && c < k <= |m|
    ensures c <= p < k
    ensures forall r :: c <= r < p ==> Abs(m[r][c]) < Abs(m[p][c])
    ensures forall r :: p <= r < k ==> Abs(m[r][c]) <= Abs(m[p][c])
  {
    if k == c + 1 {
      p := c;
    } else {
      p := PivotRowExists(m, c, k - 1);
      if Abs(m[k - 1][c]) > Abs(m[p][c]) {
        p := k - 1;
      }
    }
  }

  lemma SomePivotRow(m: seq<Row>, c: nat)
    requires Augmented(m, |m|) && c < |m|
    ensures exists p: nat :: IsPivotRow(m, c, p)
  {
    var p := PivotRowExists(m, c, |m|);
    assert IsPivotRow(m, c, p);
  }

  ghost function PivotRow(m: seq<Row>, c: nat): (p: nat)
    requires Augmented(m, |m|) && c < |m|
    ensures IsPivotRow(m, c, p)
    ensures forall q: nat :: IsPivotRow(m, c, q) ==> q == p
  {
    SomePivotRow(m, c);
    var p: nat :| IsPivotRow(m, c, p);
    p
  }

  // One turn of elimination
  ghost function Turned(m: seq<Row>, c: nat): (t: seq<Row>)
    requires Augmented(m, |m|) && c < |m|
    ensures |t| == |m| && Augmented(t, |m|)
  {
    SwapKeeps(m, c, PivotRow(m, c), |m|);
    ColumnCleared(Swapped(m, c, PivotRow(m, c)), c)
  }

  // The matrix after the first c columns
  ghost function After(m: seq<Row>, c: nat): (t: seq<Row>)
    requires Augmented(m, |m|) && c <= |m|
    ensures |t| == |m| && Augmented(t, |m|)
  {
    if c == 0 then m else Turned(After(m, c - 1), c - 1)
  }

  ghost function PivotOf(m: seq<Row>, c: nat): real
    requires Augmented(m, |m|) && c < |m|
  {
    var t := After(m, c);
    t[PivotRow(t, c)][c]
  }

  lemma TurnedKeeps(m: seq<Row>, c: nat)
    requires Augmented(m, |m|) && c < |m| && Cleared(m, c) && m[PivotRow(m, c)][c] != 0.0
    ensures Cleared(Turned(m, c), c + 1)
    ensures Equivalent(m, Turned(m, c), |m|) && SameVanishing(m, Turned(m, c), |m|)
  {
    hide Equivalent, SameVanishing, ColumnCleared, Cleared, IsPivotRow;
    var n, p := |m|, PivotRow(m, c);
    assert c <= p < n by {
      PivotRowBounds(m, c);
    }
    var s := Swapped(m, c, p);
    SwapKeeps(m, c, p, n);
    SwapCleared(m, c, p, c);
    ColumnClearedKeeps(s, c);
    ColumnClearedClears(s, c);
    EquivalentSteps(m, s, ColumnCleared(s, c), n);
    VanishingSteps(m, s, ColumnCleared(s, c), n);
  }

  lemma PivotRowBounds(m: seq<Row>, c: nat)
    requires Augmented(m, |m|) && c < |m|
    ensures c <= PivotRow(m, c) < |m|
  {
  }

  // While no pivot is zero, elimination clears the columns and keeps the solutions.
  lemma {:induction false} AfterKeeps(m: seq<Row>, c: nat)
    requires Augmented(m, |m|) && c <= |m| && forall k: nat :: k < c ==> PivotOf(m, k) != 0.0
    ensures Cleared(After(m, c), c)
    ensures Equivalent(m, After(m, c), |m|) && SameVanishing(m, After(m, c), |m|)
  {
    hide Turned, Solves, Vanishes, ClearedColumn;
    if c > 0 {
      AfterKeeps(m, c - 1);
      assert PivotOf(m, c - 1) != 0.0;
      var t := After(m, c - 1);
      TurnedKeeps(t, c - 1);
      EquivalentSteps(m, t, Turned(t, c - 1), |m|);
      VanishingSteps(m, t, Turned(t, c - 1), |m|);
    }
  }

  // ---- How large entries get ----

  function Doubled(b: real, c: nat): real {
    if c == 0 then b else 2.0 * Doubled(b, c - 1)
  }

  ghost predicate Bounded(m: seq<Row>, from: nat, k: nat, b: real)
    requires Augmented(m, |m|) && k <= |m|
  {
    forall r :: from <= r < |m| ==> Abs(m[r][k]) <= b
  }

  // A row below the diagonal after one turn
  lemma TurnedEntry(m: seq<Row>, c: nat, r: nat, k: nat)
    requires Augmented(m, |m|) && c < r < |m| && k <= |m|
    ensures var s := Swapped(m, c, PivotRow(m, c));
            && Augmented(s, |m|) && Turned(m, c)[r][k] == s[r][k] - Times(Factor(s, r, c), s[c][k])
  {
    hide Equivalent, SameVanishing, IsPivotRow;
    PivotRowBounds(m, c);
    SwapKeeps(m, c, PivotRow(m, c), |m|);
  }

  // With the largest entry as the pivot, no row is subtracted more than once.
  lemma FactorAtMostOne(m: seq<Row>, c: nat, r: nat)
    requires Augmented(m, |m|) && c < r < |m|
    ensures var s := Swapped(m, c, PivotRow(m, c)); Augmented(s, |m|) && Abs(Factor(s, r, c)) <= 1.0
  {
    hide Equivalent, SameVanishing;
    var p := PivotRow(m, c);
    SwapKeeps(m, c, p, |m|);
    var s := Swapped(m, c, p);
    assert s[c] == m[p] && (s[r] == m[r] || s[r] == m[c]);
    if s[c][c] != 0.0 {
      SmallQuotient(s[r][c], s[c][c]);
    }
  }

  lemma SmallQuotient(a: real, b: real)
    requires b != 0.0 && Abs(a) <= Abs(b)
    ensures Abs(a / b) <= 1.0
  {
    var q := a / b;
    assert q * b == a;
    AbsTimes(q, b);
    if Abs(q) > 1.0 {
      TimesLess(Abs(b), 1.0, Abs(q));
    }
  }

  lemma AbsTimes(a: real, b: real)
    ensures Abs(a * b) == Times(Abs(a), Abs(b)) == Times(Abs(b), Abs(a))
    ensures Times(Abs(a), 1.0) == Abs(a)
  {
  }

  lemma SmallMultiple(a: real, f: real, p: real, b: real)
    requires Abs(a) <= b && Abs(f) <= 1.0 && Abs(p) <= b
    ensures Abs(a - Times(f, p)) <= 2.0 * b
  {
    AbsTimes(f, p);
    AbsTimes(p, f);
    if p != 0.0 && Abs(f) < 1.0 {
      TimesLess(Abs(p), Abs(f), 1.0);
    }
    assert Abs(f * p) <= Abs(p);
  }

  lemma SwappedBounded(m: seq<Row>, i: nat, j: nat, k: nat, b: real)
    requires Augmented(m, |m|) && i <= j < |m| && k <= |m| && Bounded(m, i, k, b)
    ensures Augmented(Swapped(m, i, j), |m|) && Bounded(Swapped(m, i, j), i, k, b)
  {
    hide Abs;
  }

  lemma TurnedGrows(m: seq<Row>, c: nat, k: nat, b: real)
    requires Augmented(m, |m|) && c < |m| && k <= |m| && Bounded(m, c, k, b)
    ensures Bounded(Turned(m, c), c + 1, k, 2.0 * b)
  {
    hide Turned, Factor, IsPivotRow, Times, Abs, Swapped;
    PivotRowBounds(m, c);
    var s := Swapped(m, c, PivotRow(m, c));
    SwappedBounded(m, c, PivotRow(m, c), k, b);
    forall r | c + 1 <= r < |m| ensures Abs(Turned(m, c)[r][k]) <= 2.0 * b {
      TurnedEntry(m, c, r, k);
      FactorAtMostOne(m, c, r);
      SmallMultiple(s[r][k], Factor(s, r, c), s[c][k], b);
    }
  }

  // Every column cleared at most doubles the entries of the rows still to come.
  lemma {:induction false} AfterGrows(m: seq<Row>, c: nat, k: nat, b: real)
    requires Augmented(m, |m|) && c <= |m| && k <= |m| && Bounded(m, 0, k, b)
    ensures Bounded(After(m, c), c, k, Doubled(b, c))
  {
    hide Turned, Bounded;
    if c > 0 {
      AfterGrows(m, c - 1, k, b);
      TurnedGrows(After(m, c - 1), c - 1, k, Doubled(b, c - 1));
    }
  }

  // So a pivot is at most 2^c times the largest entry of its column.
  lemma PivotAtMost(m: seq<Row>, c: nat, b: real)
    requires Augmented(m, |m|) && c < |m| && Bounded(m, 0, c, b)
    ensures Abs(PivotOf(m, c)) <= Doubled(b, c)
  {
    hide After, Doubled;
    AfterGrows(m, c, c, b);
    PivotRowBounds(After(m, c), c);
  }

  // ---- Singular systems ----

  // A combination of the columns that is not trivial gives zero.
  ghost predicate Singular(m: seq<Row>) {
    exists d: seq<real> :: NonZero(d) && Vanishes(m, d)
  }

  ghost predicate NonZero(d: seq<real>) {
    exists i :: 0 <= i < |d| && d[i] != 0.0
  }

  ghost predicate OnlySolution(m: seq<Row>, x: seq<real>) {
    Solves(m, x) && forall y: seq<real> :: |y| == |x| && Solves(m, y) ==> y == x
  }

  // What takes column c away with the cleared columns before it
  function Combination(m: seq<Row>, c: nat): (d: seq<real>)
    requires c < |m| && forall r :: 0 <= r < |m| ==> |m[r]| == |m| + 1
    requires forall k :: 0 <= k < c ==> m[k][k] != 0.0
  {
    seq(|m|, k requires 0 <= k < |m| => if k < c then -(m[k][c] / m[k][k]) else if k == c then 1.0 else 0.0)
  }

  lemma {:induction false} CombinationDot(m: seq<Row>, c: nat, r: nat, k: nat)
    requires c < |m| && r < |m| && k <= |m| && Cleared(m, c)
    requires forall j :: 0 <= j < c ==> m[j][j] != 0.0
    ensures Dot(m[r], Combination(m, c), k)
         == (if r < c && r < k then -m[r][c] else 0.0) + if c < k then m[r][c] else 0.0
  {
    if k > 0 {
      CombinationDot(m, c, r, k - 1);
      if k - 1 < c {
        assert ClearedColumn(m, k - 1);
        if r == k - 1 {
          QuotientTimes(m[r][c], m[r][r]);
        }
      }
    }
  }

  // Cleared columns and then one of zeros from the diagonal down
  lemma ZeroColumn(m: seq<Row>, c: nat)
    requires c < |m| && Cleared(m, c) && forall r :: c <= r < |m| ==> m[r][c] == 0.0
    ensures Singular(m)
  {
    hide Dot;
    forall j | 0 <= j < c ensures m[j][j] != 0.0 {
      assert ClearedColumn(m, j);
    }
    var d := Combination(m, c);
    assert d[c] == 1.0;
    forall r | 0 <= r < |m| ensures Dot(m[r], d, |d|) == 0.0 {
      CombinationDot(m, c, r, |m|);
    }
    assert NonZero(d) && Vanishes(m, d);
  }

  lemma ClearedVanishes(m: seq<Row>, d: seq<real>)
    requires Cleared(m, |m|) && Vanishes(m, d)
    ensures !NonZero(d)
  {
    hide Dot;
    forall i | 0 <= i < |d| ensures d[i] == 0.0 {
      assert ClearedColumn(m, i);
      forall c | 0 <= c < |d| && c != i ensures m[i][c] == 0.0 {
        assert ClearedColumn(m, c);
      }
      ClearedDot(m[i], i, d, |d|);
      assert m[i][i] * d[i] == 0.0;
    }
  }

  // A system is singular exactly when elimination comes to a pivot of zero.
  lemma SingularExactly(m: seq<Row>)
    requires Augmented(m, |m|)
    ensures Singular(m) <==> exists c: nat :: c < |m| && PivotOf(m, c) == 0.0
  {
    hide PivotOf, After, Vanishes, Cleared;
    if c: nat :| c < |m| && PivotOf(m, c) == 0.0 {
      var k := FirstZeroPivot(m, c);
      AfterKeeps(m, k);
      ZeroPivot(m, k);
      var d: seq<real> :| NonZero(d) && Vanishes(After(m, k), d);
      VanishingLength(After(m, k), d);
    } else {
      AfterKeeps(m, |m|);
      var t := After(m, |m|);
      forall d: seq<real> | Vanishes(m, d) ensures !NonZero(d) {
        VanishingLength(m, d);
        ClearedVanishes(t, d);
      }
    }
  }

  lemma VanishingLength(m: seq<Row>, d: seq<real>)
    requires Vanishes(m, d)
    ensures |d| == |m|
  {
  }

  lemma {:induction false} FirstZeroPivot(m: seq<Row>, c: nat) returns (k: nat)
    requires Augmented(m, |m|) && c < |m| && PivotOf(m, c) == 0.0
    ensures k <= c && PivotOf(m, k) == 0.0 && forall j: nat :: j < k ==> PivotOf(m, j) != 0.0
    decreases c
  {
    hide PivotOf;
    if j: nat :| j < c && PivotOf(m, j) == 0.0 {
      k := FirstZeroPivot(m, j);
    } else {
      k := c;
    }
  }

  lemma ZeroPivot(m: seq<Row>, c: nat)
    requires Augmented(m, |m|) && c < |m| && Cleared(After(m, c), c) && PivotOf(m, c) == 0.0
    ensures Singular(After(m, c))
  {
    hide After, Cleared, Singular;
    var t := After(m, c);
    assert IsPivotRow(t, c, PivotRow(t, c));
    ZeroColumn(t, c);
  }

  // The systems with one solution are those that are not singular.
  lemma SolvableExactly(m: seq<Row>)
    requires Augmented(m, |m|)
    ensures (exists x: seq<real> :: OnlySolution(m, x)) <==> !Singular(m)
  {
    hide Singular, OnlySolution, After, PivotOf, Solves, Cleared;
    if !Singular(m) {
      SingularExactly(m);
      var x := EliminatedSolution(m);
    }
    if x: seq<real> :| OnlySolution(m, x) {
      SingularHasMore(m, x);
    }
  }

  // ---- When elimination goes through ----

  const PIVOT_EPS := 0.000000000001

  ghost predicate PivotsSuffice(m: seq<Row>)
    requires Augmented(m, |m|)
  {
    forall c: nat :: c < |m| ==> Abs(PivotOf(m, c)) >= PIVOT_EPS
  }

  lemma EliminatedSolution(m: seq<Row>) returns (x: seq<real>)
    requires Augmented(m, |m|) && forall c: nat :: c < |m| ==> PivotOf(m, c) != 0.0
    ensures OnlySolution(m, x)
  {
    hide After, PivotOf, Solves, OnlySolution;
    AfterKeeps(m, |m|);
    var t := After(m, |m|);
    forall i | 0 <= i < |m| ensures t[i][i] != 0.0 {
      assert ClearedColumn(t, i);
    }
    x := seq(|m|, i requires 0 <= i < |m| => t[i][|m|] / t[i][i]);
    ClearedOnlySolution(t, x, |m|);
    EquivalentSolution(m, t, x);
  }

  // Elimination turns a system down exactly when it is singular or comes to a pivot that is not zero
  // but below the bound.
  lemma RefusedExactly(m: seq<Row>)
    requires Augmented(m, |m|)
    ensures !PivotsSuffice(m) <==>
            Singular(m) || exists c: nat :: c < |m| && 0.0 < Abs(PivotOf(m, c)) < 0.000000000001
  {
    hide PivotOf, Singular;
    SingularExactly(m);
  }

  // A column whose entries are too small is refused, whatever else the system is.
  lemma SmallColumnRefused(m: seq<Row>, c: nat, b: real)
    requires Augmented(m, |m|) && c < |m| && Bounded(m, 0, c, b) && Doubled(b, c) < PIVOT_EPS
    ensures !PivotsSuffice(m)
  {
    PivotAtMost(m, c, b);
  }

  // 1e-13 in the first row and 1 in the others, on the diagonal and on the right
  ghost function SmallDiagonal(): (m: seq<Row>)
    ensures |m| == 6 && Augmented(m, 6)
  {
    seq(6, r requires 0 <= r < 6 =>
      seq(7, k requires 0 <= k < 7 =>
        if k == 6 then 1.0 else if k != r then 0.0 else if r == 0 then 0.0000000000001 else 1.0))
  }

  // Its six equations have one solution and are turned down.
  lemma SmallPivotRefused()
    ensures !Singular(SmallDiagonal()) && !PivotsSuffice(SmallDiagonal())
    ensures OnlySolution(SmallDiagonal(), [10000000000000.0, 1.0, 1.0, 1.0, 1.0, 1.0])
  {
    var m, x := SmallDiagonal(), [10000000000000.0, 1.0, 1.0, 1.0, 1.0, 1.0];
    assert Cleared(m, 6) by {
      forall c | 0 <= c < 6 ensures ClearedColumn(m, c) {
      }
    }
    assert Quotients(m, x) by {
      hide Cleared;
    }
    hide Cleared, Quotients, Singular, OnlySolution, SmallDiagonal;
    ClearedOnlySolution(m, x, 6);
    SingularHasMore(m, x);
    assert Doubled(0.0000000000001, 0) == 0.0000000000001;
    SmallColumnRefused(m, 0, 0.0000000000001);
  }

  // ---- The algorithm ----

  method FindPivot(m: array<Row>, col: nat) returns (piv: nat)
    requires Augmented(m[..], m.Length) && col < m.Length
    ensures IsPivotRow(m[..], col, piv)
  {
    piv := col;
    for r := col + 1 to m.Length
      invariant col <= piv < r
      invariant forall k :: col <= k < piv ==> Abs(m[k][col]) < Abs(m[piv][col])
      invariant forall k :: piv <= k < r ==> Abs(m[k][col]) <= Abs(m[piv][col])
    {
      if Abs(m[r][col]) > Abs(m[piv][col]) {
        piv := r;
      }
    }
  }

  // m[r] -= f * m[col], from column col on.
  method EliminateRow(m: array<Row>, r: nat, col: nat, f: real)
    requires Augmented(m[..], m.Length) && r < m.Length && col < m.Length && r != col
    requires forall k :: 0 <= k < col ==> m[col][k] == 0.0
    modifies m
    ensures m[..] == Eliminated(old(m[..]), r, col, f)
  {
    var n := m.Length;
    ghost var before := m[..];
    for k := col to n + 1
      invariant |m[r]| == n + 1
      invariant m[..] == before[r := m[r]]
      invariant forall j :: 0 <= j < k && j <= n ==>
                m[r][j] == if j < col then before[r][j] else before[r][j] - f * before[col][j]
      invariant forall j :: k <= j <= n ==> m[r][j] == before[r][j]
    {
      m[r] := m[r][k := m[r][k] - f * m[col][k]];
    }
    ReducedFrom(before[r], before[col], f, col);
    forall j | 0 <= j <= n ensures m[r][j] == Reduced(before[r], before[col], f, col)[j] {
    }
    assert m[r] == Reduced(before[r], before[col], f, col);
  }

  // Clears the column but for its diagonal.
  method ClearColumn(m: array<Row>, col: nat)
    requires Augmented(m[..], m.Length) && Cleared(m[..], col)
    requires col < m.Length && m[col][col] != 0.0
    modifies m
    ensures m[..] == ColumnCleared(old(m[..]), col)
  {
    hide Reduced;
    var n := m.Length;
    ghost var before := m[..];
    forall k | 0 <= k < col ensures before[col][k] == 0.0 {
      assert ClearedColumn(before, k);
    }
    hide Cleared;
    for r := 0 to n
      invariant forall k :: 0 <= k < r ==> m[k] == ColumnCleared(before, col)[k]
      invariant m[col] == before[col]
      invariant forall k :: r <= k < n ==> m[k] == before[k]
    {
      if r == col {
        continue;
      }
      var f := m[r][col] / m[col][col];
      EliminateRow(m, r, col, f);
    }
  }

  // Row i of the system a x = b
  function RowOf(a: array2<real>, b: array<real>, i: nat): (row: Row)
    requires i < a.Length0 == b.Length
    reads a, b
    ensures |row| == a.Length1 + 1
  {
    seq(a.Length1 + 1, j requires 0 <= j <= a.Length1 reads a, b => if j < a.Length1 then a[i, j] else b[i])
  }

  ghost function SystemOf(a: array2<real>, b: array<real>): (m: seq<Row>)
    requires a.Length0 == a.Length1 == b.Length
    reads a, b
    ensures Augmented(m, b.Length)
  {
    seq(b.Length, i requires 0 <= i < b.Length reads a, b => RowOf(a, b, i))
  }

  lemma EquivalentSolution(m: seq<Row>, m': seq<Row>, x: seq<real>)
    requires Equivalent(m, m', |x|) && OnlySolution(m', x)
    ensures OnlySolution(m, x)
  {
    hide Solves;
  }

  // One turn of the loop, from the matrix after col columns to the next
  lemma TurnIsNext(start: seq<Row>, m: seq<Row>, col: nat, piv: nat)
    requires Augmented(start, |start|) && col < |start| && m == After(start, col) && IsPivotRow(m, col, piv)
    ensures PivotOf(start, col) == m[piv][col]
    ensures (forall c: nat :: c <= col ==> PivotOf(start, c) != 0.0) ==>
              var s := Swapped(m, col, piv);
              && Augmented(s, |s|) && Cleared(s, col) && s[col][col] != 0.0
              && ColumnCleared(s, col) == After(start, col + 1)
  {
    hide IsPivotRow, Cleared, ColumnCleared, Equivalent, SameVanishing, Swapped;
    PivotRowBounds(m, col);
    assert piv == PivotRow(m, col);
    SwapKeeps(m, col, piv, |m|);
    if forall c: nat :: c <= col ==> PivotOf(start, c) != 0.0 {
      assert PivotOf(start, col) != 0.0;
      AfterKeeps(start, col);
      SwapCleared(m, col, piv, col);
      SwappedAt(m, col, piv);
    }
  }

  lemma SwappedAt(m: seq<Row>, i: nat, j: nat)
    requires i < |m| && j < |m|
    ensures |Swapped(m, i, j)| == |m| && Swapped(m, i, j)[i] == m[j]
  {
  }

  method Eliminate(m: array<Row>) returns (ok: bool)
    requires Augmented(m[..], m.Length)
    modifies m
    ensures Augmented(old(m[..]), m.Length)
    ensures ok <==> PivotsSuffice(old(m[..]))
    ensures ok ==> m[..] == After(old(m[..]), m.Length)
  {
    hide Swapped, ColumnCleared, PivotRow, PivotOf, After, Cleared;
    var n := m.Length;
    ghost var start := m[..];
    assert m[..] == After(start, 0) by {
      NothingDone(start);
    }
    for col := 0 to n
      invariant m[..] == After(start, col)
      invariant forall c: nat :: c < col ==> Abs(PivotOf(start, c)) >= PIVOT_EPS
    {
      var piv := FindPivot(m, col);
      TurnIsNext(start, m[..], col, piv);
      if Abs(m[piv][col]) < PIVOT_EPS {
        return false;
      }
      SwapRows(m, col, piv);
      ClearColumn(m, col);
    }
    return true;
  }

  lemma NothingDone(m: seq<Row>)
    requires Augmented(m, |m|)
    ensures After(m, 0) == m
  {
  }

  method SwapRows(m: array<Row>, i: nat, j: nat)
    requires i < m.Length && j < m.Length
    modifies m
    ensures m[..] == Swapped(old(m[..]), i, j)
    ensures m[i] == old(m[j])
  {
    m[i], m[j] := m[j], m[i];
  }

  method Load(a: array2<real>, b: array<real>) returns (m: array<Row>)
    requires a.Length0 == a.Length1 == b.Length
    ensures fresh(m) && m[..] == SystemOf(a, b)
  {
    var n := b.Length;
    m := new Row[n](_ => []);
    for i := 0 to n
      invariant forall k :: 0 <= k < i ==> m[k] == RowOf(a, b, k)
    {
      m[i] := RowOf(a, b, i);
    }
  }

  method ReadOff(m: array<Row>) returns (x: seq<real>)
    requires Augmented(m[..], m.Length) && Cleared(m[..], m.Length)
    ensures |x| == m.Length && Quotients(m[..], x)
  {
    var n := m.Length;
    x := seq(n, _ => 0.0);
    for i := 0 to n
      invariant |x| == n
      invariant forall k :: 0 <= k < i ==> m[k][k] != 0.0 && x[k] == m[k][n] / m[k][k]
    {
      assert ClearedColumn(m[..], i);
      x := x[i := m[i][n] / m[i][i]];
    }
  }

  method Solve(a: array2<real>, b: array<real>) returns (x: seq<real>, ok: bool)
    requires a.Length0 == a.Length1 == b.Length
    ensures |x| == b.Length
    ensures ok <==> PivotsSuffice(SystemOf(a, b))
    ensures ok ==> OnlySolution(SystemOf(a, b), x)
  {
    hide RowOf, Equivalent, Solves, OnlySolution, Quotients, After, PivotOf;
    ghost var system := SystemOf(a, b);
    var m := Load(a, b);
    ok := Eliminate(m);
    if !ok {
      return seq(b.Length, _ => 0.0), false;
    }
    AfterKeeps(system, b.Length);
    x := ReadOff(m);
    ClearedOnlySolution(m[..], x, b.Length);
    EquivalentSolution(system, m[..], x);
  }

  lemma ClearedOnlySolution(m: seq<Row>, x: seq<real>, n: nat)
    requires Augmented(m, n) && Cleared(m, n) && |x| == n && Quotients(m, x)
    ensures OnlySolution(m, x)
  {
    ClearedSolution(m, x, n);
  }

  lemma Moved(x: seq<real>, d: seq<real>)
    requires |x| == |d| && NonZero(d)
    ensures Minus(x, d) != x
  {
    var i :| 0 <= i < |d| && d[i] != 0.0;
    assert Minus(x, d)[i] != x[i];
  }

  lemma SingularHasMore(m: seq<Row>, x: seq<real>)
    requires OnlySolution(m, x)
    ensures !Singular(m)
  {
    hide Dot, NonZero;
    if Singular(m) {
      var d: seq<real> :| NonZero(d) && Vanishes(m, d);
      var y := Minus(x, d);
      Moved(x, d);
      forall r | 0 <= r < |x| ensures RowHolds(m[r], y) {
        DotMinus(m[r], x, d, |x|);
        assert RowHolds(m[r], x);
      }
    }
  }
}
