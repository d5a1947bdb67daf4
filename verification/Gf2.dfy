// Polynomials over GF(2) as bit strings, most significant coefficient first, and the
// shift-register division both CRCs of the system are built on.
module Gf2 {

  type Bits = seq<bool>

  function Zeros(n: nat): (z: Bits)
    ensures |z| == n && forall i :: 0 <= i < n ==> !z[i]
  {
    seq(n, _ => false)
  }

  function Ones(n: nat): (z: Bits)
    ensures |z| == n && forall i :: 0 <= i < n ==> z[i]
  {
    seq(n, _ => true)
  }

  // Addition of polynomials with the same number of coefficients.
  function Xor(a: Bits, b: Bits): (c: Bits)
    requires |a| == |b|
    ensures |c| == |a| && forall i :: 0 <= i < |a| ==> c[i] == (a[i] != b[i])
  {
    seq(|a|, i requires 0 <= i < |a| => a[i] != b[i])
  }

  // One clock of the division register r for the generator x^|g| + g: the next coefficient is
  // shifted in, and the generator is subtracted when a coefficient x^|g| is shifted out.
  function Step(g: Bits, r: Bits, b: bool): (s: Bits)
    requires |g| == |r| > 0
    ensures |s| == |g|
  {
    if r[0] then Xor(r[1..] + [b], g) else r[1..] + [b]
  }

  function Feed(g: Bits, r: Bits, m: Bits): (s: Bits)
    requires |g| == |r| > 0
    ensures |s| == |g|
  {
    if m == [] then r else Step(g, Feed(g, r, m[..|m| - 1]), m[|m| - 1])
  }

  // The bit-serial remainder of the message polynomial m.
  function Rem(g: Bits, m: Bits): (r: Bits)
    requires |g| > 0
    ensures |r| == |g|
  {
    Feed(g, Zeros(|g|), m)
  }

  // The product of q and the generator x^|g| + g, written out to |q| + |g| coefficients.
  function Times(g: Bits, q: Bits): (p: Bits)
    ensures |p| == |q| + |g|
  {
    if q == [] then Zeros(|g|)
    else
      var k := |q| - 1;
      Xor(Times(g, q[..k]) + [false], Zeros(k) + Taken(g, q[k]))
  }

  function Quot(g: Bits, m: Bits): (q: Bits)
    requires |g| > 0
    ensures |q| == |m|
  {
    if m == [] then [] else Quot(g, m[..|m| - 1]) + [Rem(g, m[..|m| - 1])[0]]
  }

  // m == q * (x^|g| + g) + r
  ghost predicate Divides(g: Bits, m: Bits, q: Bits, r: Bits) {
    |q| == |m| && |r| == |g| && Zeros(|g|) + m == Xor(Times(g, q), Zeros(|m|) + r)
  }

  lemma {:induction false} RemIsRemainder(g: Bits, m: Bits)
    requires |g| > 0
    ensures Divides(g, m, Quot(g, m), Rem(g, m))
  {
    hide *;
    if m == [] {
      EmptyDivides(g);
      assert m == [];
    } else {
      var k := |m| - 1;
      RemIsRemainder(g, m[..k]);
      var q, r := Quot(g, m[..k]), Rem(g, m[..k]);
      QuotientStep(g, m);
      DivideStep(g, Times(g, q), r, m[k]);
      DividesStep(g, m, q, r);
    }
  }

  lemma EmptyDivides(g: Bits)
    requires |g| > 0
    ensures Divides(g, [], Quot(g, []), Rem(g, []))
  {
  }

  function Taken(g: Bits, take: bool): (t: Bits)
    ensures |t| == |g| + 1
  {
    if take then [true] + g else Zeros(|g| + 1)
  }

  lemma QuotientStep(g: Bits, m: Bits)
    requires |g| > 0 && m != []
    ensures var k := |m| - 1;
            var q, r := Quot(g, m[..k]), Rem(g, m[..k]);
            && Times(g, Quot(g, m)) == Xor(Times(g, q) + [false], Zeros(k) + Taken(g, r[0]))
            && Rem(g, m) == Step(g, r, m[k])
  {
    hide *;
    var k := |m| - 1;
    QuotAppend(g, m);
    RemStep(g, m);
    TimesAppend(g, Quot(g, m[..k]), Rem(g, m[..k])[0]);
  }

  lemma QuotAppend(g: Bits, m: Bits)
    requires |g| > 0 && m != []
    ensures Quot(g, m) == Quot(g, m[..|m| - 1]) + [Rem(g, m[..|m| - 1])[0]]
  {
    hide Rem;
  }

  lemma RemStep(g: Bits, m: Bits)
    requires |g| > 0 && m != []
    ensures Rem(g, m) == Step(g, Rem(g, m[..|m| - 1]), m[|m| - 1])
  {
    hide Step;
  }

  lemma TimesAppend(g: Bits, q: Bits, b: bool)
    ensures Times(g, q + [b]) == Xor(Times(g, q) + [false], Zeros(|q|) + Taken(g, b))
  {
    hide Xor, Zeros, Taken;
    assert (q + [b])[..|q|] == q;
  }

  lemma DividesStep(g: Bits, m: Bits, q: Bits, r: Bits)
    requires |g| > 0 && m != [] && Divides(g, m[..|m| - 1], q, r)
    requires var k := |m| - 1;
             && Xor(Times(g, q), Zeros(k) + r) + [m[k]]
                == Xor(Times(g, Quot(g, m)), Zeros(k + 1) + Rem(g, m))
    ensures Divides(g, m, Quot(g, m), Rem(g, m))
  {
    hide Xor, Times, Quot, Rem;
    var k := |m| - 1;
    assert Zeros(|g|) + m == (Zeros(|g|) + m[..k]) + [m[k]];
  }

  // What one clock does to "product plus remainder": shifting both left by one coefficient and
  // moving the generator from the remainder to the product changes nothing else.
  lemma DivideStep(g: Bits, p: Bits, r: Bits, b: bool)
    requires |g| == |r| > 0 && |p| >= |g|
    ensures var k := |p| - |g|;
            Xor(p, Zeros(k) + r) + [b]
            == Xor(Xor(p + [false], Zeros(k) + Taken(g, r[0])), Zeros(k + 1) + Step(g, r, b))
  {
    var k, w := |p| - |g|, |g|;
    var take := Taken(g, r[0]);
    var left := Xor(p, Zeros(k) + r) + [b];
    var right := Xor(Xor(p + [false], Zeros(k) + take), Zeros(k + 1) + Step(g, r, b));
    forall i | 0 <= i < |left| ensures left[i] == right[i] {
      var bit := (p + [false])[i];
      if i < k {
        assert left[i] == right[i] == bit;
      } else {
        var j := i - k;
        assert (Zeros(k) + take)[i] == take[j];
        assert left[i] == (bit != (r + [b])[j]);
        assert right[i] == ((bit != take[j]) != ([false] + Step(g, r, b))[j]);
        assert (r + [b])[j] == (take[j] != ([false] + Step(g, r, b))[j]);
      }
    }
  }

  lemma {:induction false} TimesLinear(g: Bits, p: Bits, q: Bits)
    requires |p| == |q|
    ensures Times(g, Xor(p, q)) == Xor(Times(g, p), Times(g, q))
  {
    if p != [] {
      var k := |p| - 1;
      TimesLinear(g, p[..k], q[..k]);
      assert Xor(p, q)[..k] == Xor(p[..k], q[..k]);
      TakenLinear(g, Times(g, p[..k]), Times(g, q[..k]), k, p[k], q[k]);
    }
  }

  lemma TakenLinear(g: Bits, a: Bits, b: Bits, k: nat, x: bool, y: bool)
    requires |a| == |b| == k + |g|
    ensures Xor(Xor(a, b) + [false], Zeros(k) + Taken(g, x != y))
         == Xor(Xor(a + [false], Zeros(k) + Taken(g, x)), Xor(b + [false], Zeros(k) + Taken(g, y)))
  {
    var z, t, u := Zeros(k) + Taken(g, x != y), Zeros(k) + Taken(g, x), Zeros(k) + Taken(g, y);
    assert z == Xor(t, u);
    assert Xor(a, b) + [false] == Xor(a + [false], b + [false]);
    XorOfSums(a + [false], b + [false], t, u);
  }

  lemma XorOfSums(a: Bits, b: Bits, t: Bits, u: Bits)
    requires |a| == |b| == |t| == |u|
    ensures Xor(Xor(a, b), Xor(t, u)) == Xor(Xor(a, t), Xor(b, u))
  {
  }

  lemma {:induction false} TimesZeros(g: Bits, n: nat)
    ensures Times(g, Zeros(n)) == Zeros(n + |g|)
  {
    if n > 0 {
      TimesZeros(g, n - 1);
      assert Zeros(n)[..n - 1] == Zeros(n - 1);
    }
  }

  // The leading term of a product is the leading term of q times x^|g|.
  lemma {:induction false} TimesLeading(g: Bits, q: Bits, i: nat)
    requires i < |q| && q[i] && forall j :: 0 <= j < i ==> !q[j]
    ensures Times(g, q)[i]
  {
    var k := |q| - 1;
    if i < k {
      TimesLeading(g, q[..k], i);
    } else {
      assert q[..k] == Zeros(k);
      TimesZeros(g, k);
    }
  }

  lemma FirstTrue(q: Bits) returns (i: nat)
    requires true in q
    ensures i < |q| && q[i] && forall j :: 0 <= j < i ==> !q[j]
  {
    i := 0;
    while !q[i]
      invariant i < |q| && forall j :: 0 <= j < i ==> !q[j]
      decreases |q| - i
    {
      assert exists j :: i < j < |q| && q[j];
      i := i + 1;
    }
  }

  // Division with remainder is unique, so Rem is the remainder and nothing else is.
  lemma RemainderUnique(g: Bits, m: Bits, q: Bits, r: Bits)
    requires |g| > 0 && Divides(g, m, q, r)
    ensures q == Quot(g, m) && r == Rem(g, m)
  {
    RemIsRemainder(g, m);
    var q', r' := Quot(g, m), Rem(g, m);
    var d := Xor(q, q');
    TimesLinear(g, q, q');
    var a, b := Xor(Times(g, q), Zeros(|m|) + r), Xor(Times(g, q'), Zeros(|m|) + r');
    assert a == b;
    forall i | 0 <= i < |m| ensures !Times(g, d)[i] {
      assert a[i] == b[i];
    }
    if true in d {
      var i := FirstTrue(d);
      TimesLeading(g, d, i);
      assert false;
    }
    assert q == q' by {
      assert forall i :: 0 <= i < |q| ==> d[i] == (q[i] != q'[i]);
    }
    SameTail(Times(g, q), r, r');
  }

  lemma SameTail(p: Bits, r: Bits, s: Bits)
    requires |r| == |s| <= |p| && Xor(p, Zeros(|p| - |r|) + r) == Xor(p, Zeros(|p| - |r|) + s)
    ensures r == s
  {
    var k := |p| - |r|;
    forall i | 0 <= i < |r| ensures r[i] == s[i] {
      assert Xor(p, Zeros(k) + r)[k + i] == Xor(p, Zeros(k) + s)[k + i];
      assert (Zeros(k) + r)[k + i] == (Zeros(k) + s)[k + i];
    }
  }

  lemma {:induction false} FeedConcat(g: Bits, r: Bits, a: Bits, b: Bits)
    requires |g| == |r| > 0
    ensures Feed(g, r, a + b) == Feed(g, Feed(g, r, a), b)
  {
    if b == [] {
      assert a + b == a;
    } else {
      var k := |b| - 1;
      FeedConcat(g, r, a, b[..k]);
      assert (a + b)[..|a| + k] == a + b[..k];
    }
  }

  // Feeding is linear in the register and the message together.
  lemma {:induction false} FeedLinear(g: Bits, r: Bits, s: Bits, a: Bits, b: Bits)
    requires |g| == |r| == |s| > 0 && |a| == |b|
    ensures Feed(g, Xor(r, s), Xor(a, b)) == Xor(Feed(g, r, a), Feed(g, s, b))
  {
    if a != [] {
      var k := |a| - 1;
      FeedLinear(g, r, s, a[..k], b[..k]);
      assert Xor(a, b)[..k] == Xor(a[..k], b[..k]);
      StepLinear(g, Feed(g, r, a[..k]), Feed(g, s, b[..k]), a[k], b[k]);
    }
  }

  lemma StepLinear(g: Bits, r: Bits, s: Bits, a: bool, b: bool)
    requires |g| == |r| == |s| > 0
    ensures Step(g, Xor(r, s), a != b) == Xor(Step(g, r, a), Step(g, s, b))
  {
    assert Xor(r, s)[1..] + [a != b] == Xor(r[1..] + [a], s[1..] + [b]);
  }

  lemma RemLinear(g: Bits, a: Bits, b: Bits)
    requires |g| > 0 && |a| == |b|
    ensures Rem(g, Xor(a, b)) == Xor(Rem(g, a), Rem(g, b))
  {
    FeedLinear(g, Zeros(|g|), Zeros(|g|), a, b);
    assert Xor(Zeros(|g|), Zeros(|g|)) == Zeros(|g|);
  }

  // Coefficients shifted through a register whose leading part is still empty arrive unchanged.
  lemma {:induction false} FeedShifts(g: Bits, r: Bits, m: Bits)
    requires |g| == |r| > 0 && |m| <= |g| && r[..|m|] == Zeros(|m|)
    ensures Feed(g, r, m) == r[|m|..] + m
  {
    if m != [] {
      var k := |m| - 1;
      assert r[..k] == Zeros(k) by {
        assert forall i :: 0 <= i < k ==> r[i] == r[..|m|][i];
      }
      FeedShifts(g, r, m[..k]);
      assert !r[k] by { assert r[k] == r[..|m|][k]; }
    } else {
      assert r[|m|..] + m == r;
    }
  }

  // The table step: the coefficients leaving the register select one table entry.
  function TableEntry(g: Bits, top: Bits): (t: Bits)
    requires 0 < |top| <= |g|
    ensures |t| == |g|
  {
    Feed(g, top + Zeros(|g| - |top|), Zeros(|top|))
  }

  lemma FeedByTable(g: Bits, r: Bits, m: Bits)
    requires |g| == |r| && 0 < |m| <= |g|
    ensures Feed(g, r, m) == Xor(TableEntry(g, r[..|m|]), r[|m|..] + m)
  {
    var n := |m|;
    var high, low := r[..n] + Zeros(|g| - n), Zeros(n) + r[n..];
    SplitRegister(r, n);
    XorWithZeros(m);
    FeedLinear(g, high, low, Zeros(n), m);
    FeedShifts(g, low, m);
  }

  lemma SplitRegister(r: Bits, n: nat)
    requires n <= |r|
    ensures var low := Zeros(n) + r[n..];
            Xor(r[..n] + Zeros(|r| - n), low) == r && low[..n] == Zeros(n) && low[n..] == r[n..]
  {
  }

  lemma StepKeepsNonZero(g: Bits, s: Bits)
    requires |g| == |s| > 0 && g[|g| - 1] && s != Zeros(|g|)
    ensures Step(g, s, false) != Zeros(|g|)
  {
    var t := Step(g, s, false);
    if s[0] {
      assert t[|g| - 1] != Zeros(|g|)[|g| - 1];
    } else {
      var i :| 0 <= i < |s| && s[i] != Zeros(|g|)[i];
      assert t[i - 1] != Zeros(|g|)[i - 1];
    }
  }

  // A generator with constant term 1 never clears a register that holds something.
  lemma {:induction false} FeedZerosInjective(g: Bits, r: Bits, n: nat)
    requires |g| == |r| > 0 && g[|g| - 1] && Feed(g, r, Zeros(n)) == Zeros(|g|)
    ensures r == Zeros(|g|)
  {
    if n > 0 {
      assert Zeros(n)[..n - 1] == Zeros(n - 1);
      var s := Feed(g, r, Zeros(n - 1));
      if s != Zeros(|g|) {
        StepKeepsNonZero(g, s);
        assert false;
      }
      FeedZerosInjective(g, r, n - 1);
    }
  }

  // An error pattern confined to a window no wider than the generator has remainder zero only
  // when it is empty.
  lemma BurstRemainder(g: Bits, before: nat, burst: Bits, after: nat)
    requires |g| > 0 && g[|g| - 1] && |burst| <= |g|
    requires Rem(g, Zeros(before) + burst + Zeros(after)) == Zeros(|g|)
    ensures burst == Zeros(|burst|)
  {
    var w, n := |g|, |burst|;
    FeedConcat(g, Zeros(w), Zeros(before) + burst, Zeros(after));
    FeedConcat(g, Zeros(w), Zeros(before), burst);
    FeedZeroRegister(g, before);
    FeedShifts(g, Zeros(w), burst);
    var r := Zeros(w)[n..] + burst;
    FeedZerosInjective(g, r, after);
    forall i | 0 <= i < n ensures !burst[i] {
      assert burst[i] == r[w - n + i];
    }
  }

  lemma ErrorPattern(a: Bits, b: Bits, from: nat, to: nat)
    requires |a| == |b| && from <= to <= |a|
    requires a[..from] == b[..from] && a[to..] == b[to..]
    ensures Xor(a, b) == Zeros(from) + Xor(a[from..to], b[from..to]) + Zeros(|a| - to)
  {
    var e := Zeros(from) + Xor(a[from..to], b[from..to]) + Zeros(|a| - to);
    forall i | 0 <= i < |a| ensures e[i] == (a[i] != b[i]) {
      if i < from {
        assert a[i] == a[..from][i] == b[..from][i];
      } else if to <= i {
        assert a[i] == a[to..][i - to] == b[to..][i - to];
      } else {
        assert e[i] == Xor(a[from..to], b[from..to])[i - from];
      }
    }
  }

  // Burst detection: messages that differ, and only inside a window no wider than the
  // generator, have different remainders.
  lemma BurstDetected(g: Bits, a: Bits, b: Bits, from: nat, to: nat)
    requires |g| > 0 && g[|g| - 1] && |a| == |b|
    requires from <= to <= |a| && to - from <= |g|
    requires a[..from] == b[..from] && a[to..] == b[to..]
    ensures Rem(g, a) == Rem(g, b) <==> a == b
  {
    hide Rem;
    if Rem(g, a) == Rem(g, b) {
      RemLinear(g, a, b);
      ErrorPattern(a, b, from, to);
      var burst := Xor(a[from..to], b[from..to]);
      assert Rem(g, Xor(a, b)) == Zeros(|g|);
      BurstRemainder(g, from, burst, |a| - to);
      SameWithoutBurst(a, b, from, to);
    }
  }

  lemma SameWithoutBurst(a: Bits, b: Bits, from: nat, to: nat)
    requires |a| == |b| && from <= to <= |a| && a[..from] == b[..from] && a[to..] == b[to..]
    requires Xor(a[from..to], b[from..to]) == Zeros(to - from)
    ensures a == b
  {
    var burst := Xor(a[from..to], b[from..to]);
    assert a[from..to] == b[from..to] by {
      assert forall i :: 0 <= i < to - from ==> burst[i] == (a[from..to][i] != b[from..to][i]);
    }
    assert a == a[..from] + a[from..to] + a[to..];
    assert b == b[..from] + b[from..to] + b[to..];
  }

  lemma {:induction false} FeedZeroRegister(g: Bits, n: nat)
    requires |g| > 0
    ensures Feed(g, Zeros(|g|), Zeros(n)) == Zeros(|g|)
  {
    if n > 0 {
      FeedZeroRegister(g, n - 1);
      assert Zeros(n)[..n - 1] == Zeros(n - 1);
    }
  }

  lemma XorTail(t: Bits, u: Bits, v: Bits)
    requires |t| == |u| + |v|
    ensures Xor(Xor(t, u + Zeros(|v|)), Zeros(|u|) + v) == Xor(t, u + v)
  {
  }

  lemma XorMove(c: Bits, x: Bits, x': Bits, y': Bits)
    requires |c| == |x| == |x'| == |y'|
    ensures Xor(c, x') == y' <==> Xor(x, x') == Xor(Xor(c, x), y')
  {
    var l, r := Xor(x, x'), Xor(Xor(c, x), y');
    if l == r {
      forall i | 0 <= i < |c| ensures Xor(c, x')[i] == y'[i] {
        assert l[i] == r[i];
      }
    }
  }

  lemma XorWithZeros(r: Bits)
    ensures Xor(r, Zeros(|r|)) == r && Xor(Zeros(|r|), r) == r
  {
  }

  lemma ZerosConcat(m: nat, n: nat)
    ensures Zeros(m) + Zeros(n) == Zeros(m + n) && Zeros(m + n)[m..] == Zeros(n) && Zeros(m + n)[..m] == Zeros(m)
  {
  }

  // A message fed to a register is the register alone and the message alone, added.
  lemma FeedSplit(g: Bits, r: Bits, m: Bits)
    requires |g| == |r| > 0
    ensures Feed(g, r, m) == Xor(Feed(g, r, Zeros(|m|)), Rem(g, m))
  {
    XorWithZeros(r);
    XorWithZeros(m);
    FeedLinear(g, r, Zeros(|g|), Zeros(|m|), m);
  }

  lemma FeedZerosLinear(g: Bits, r: Bits, s: Bits, n: nat)
    requires |g| == |r| == |s| > 0
    ensures Feed(g, Xor(r, s), Zeros(n)) == Xor(Feed(g, r, Zeros(n)), Feed(g, s, Zeros(n)))
  {
    XorWithZeros(Zeros(n));
    FeedLinear(g, r, s, Zeros(n), Zeros(n));
  }

  // Coefficients entering the empty register pass through it unchanged.
  lemma EnterEmpty(g: Bits, b: Bits, k: nat)
    requires |g| == |b| + k > 0
    ensures Rem(g, b) == Zeros(k) + b
  {
    ZerosConcat(|b|, k);
    FeedShifts(g, Zeros(|g|), b);
  }

  lemma ShiftUp(g: Bits, b: Bits, k: nat)
    requires |g| == |b| + k > 0
    ensures Feed(g, Zeros(k) + b, Zeros(k)) == b + Zeros(k)
  {
    var low := Zeros(k) + b;
    assert low[..k] == Zeros(k) && low[k..] == b;
    FeedShifts(g, low, Zeros(k));
  }

  // Coefficients followed by |g| zeros are first shifted to the top of the empty register.
  lemma AlignTop(g: Bits, b: Bits, k: nat)
    requires |g| == |b| + k > 0
    ensures Rem(g, b + Zeros(|g|)) == Feed(g, b + Zeros(k), Zeros(|b|))
  {
    FeedConcat(g, Zeros(|g|), b, Zeros(|g|));
    EnterEmpty(g, b, k);
    ZerosConcat(k, |b|);
    FeedConcat(g, Zeros(k) + b, Zeros(k), Zeros(|b|));
    ShiftUp(g, b, k);
  }

  lemma FeedZerosTwice(g: Bits, r: Bits, m: nat, n: nat)
    requires |g| == |r| > 0
    ensures Feed(g, r, Zeros(m + n)) == Feed(g, Feed(g, r, Zeros(m)), Zeros(n))
  {
    ZerosConcat(m, n);
    FeedConcat(g, r, Zeros(m), Zeros(n));
  }

  lemma EnterFromTop(g: Bits, r: Bits, b: Bits, k: nat)
    requires |g| == |r| == |b| + k > 0
    ensures Feed(g, r, b + Zeros(|g|)) == Feed(g, Xor(Feed(g, r, Zeros(|g|)), b + Zeros(k)), Zeros(|b|))
  {
    hide *;
    EnterAlone(g, r, b + Zeros(|g|), |b|);
    EnterTop(g, Feed(g, r, Zeros(|g|)), b, k);
  }

  lemma EnterAlone(g: Bits, r: Bits, tail: Bits, n: nat)
    requires |g| == |r| > 0 && |tail| == |g| + n
    ensures Feed(g, r, tail) == Xor(Feed(g, Feed(g, r, Zeros(|g|)), Zeros(n)), Rem(g, tail))
  {
    hide *;
    FeedSplit(g, r, tail);
    FeedZerosTwice(g, r, |g|, n);
  }

  lemma EnterTop(g: Bits, rem: Bits, b: Bits, k: nat)
    requires |g| == |rem| == |b| + k > 0
    ensures Feed(g, Xor(rem, b + Zeros(k)), Zeros(|b|)) == Xor(Feed(g, rem, Zeros(|b|)), Rem(g, b + Zeros(|g|)))
  {
    hide *;
    AlignTop(g, b, k);
    FeedZerosLinear(g, rem, b + Zeros(k), |b|);
  }

  // The register of a table-driven checksum holds the remainder of the message times x^|g|. The
  // next coefficients b meet that register from the top, and only then are shifted through it.
  lemma AugmentedStep(g: Bits, m: Bits, b: Bits, k: nat)
    requires |g| == |b| + k > 0
    ensures Rem(g, m + (b + Zeros(|g|))) == Feed(g, Xor(Rem(g, m + Zeros(|g|)), b + Zeros(k)), Zeros(|b|))
  {
    FeedConcat(g, Zeros(|g|), m, b + Zeros(|g|));
    FeedConcat(g, Zeros(|g|), m, Zeros(|g|));
    EnterFromTop(g, Rem(g, m), b, k);
  }

  // A message followed by a full register of coefficients.
  lemma RemAppend(g: Bits, m: Bits, p: Bits)
    requires |g| == |p| > 0
    ensures Rem(g, m + p) == Xor(Rem(g, m + Zeros(|g|)), p)
  {
    FeedConcat(g, Zeros(|g|), m, p);
    FeedConcat(g, Zeros(|g|), m, Zeros(|g|));
    FeedSplit(g, Rem(g, m), p);
    EnterEmpty(g, p, 0);
    assert Zeros(0) + p == p;
  }

  lemma XorSelfCancels(c: Bits, p: Bits)
    requires |c| == |p|
    ensures Xor(c, Xor(c, p)) == p
  {
  }
}
