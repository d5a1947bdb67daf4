// math.Abs and math.Sqrt over exact reals.
module Reals {

  function Abs(x: real): real {
    if x < 0.0 then -x else x
  }

  function Times(a: real, b: real): real {
    a * b
  }

  // sqrt is a square root of every number that has one.
  ghost predicate IsSqrt(sqrt: real -> real) {
    forall t: real :: t >= 0.0 ==> sqrt(t) >= 0.0 && Times(sqrt(t), sqrt(t)) == t
  }

  lemma TimesSign(a: real, b: real)
    ensures a == 0.0 || b == 0.0 ==> Times(a, b) == 0.0
    ensures (a > 0.0 && b > 0.0) || (a < 0.0 && b < 0.0) ==> Times(a, b) > 0.0
  {
    if (a > 0.0 && b > 0.0) || (a < 0.0 && b < 0.0) {
      assert a * b > 0.0;
    }
  }

  lemma TimesLess(a: real, b: real, c: real)
    requires a > 0.0 && b < c
    ensures Times(a, b) < Times(a, c) && Times(b, a) < Times(c, a)
  {
    assert a * (c - b) > 0.0;
  }

  lemma ZeroFactor(p: real, q: real)
    requires p != 0.0 && p * q == 0.0
    ensures q == 0.0
  {
  }

  lemma RootPositive(sqrt: real -> real, t: real)
    requires IsSqrt(sqrt) && t > 0.0
    ensures sqrt(t) > 0.0 && Times(sqrt(t), sqrt(t)) == t
  {
  }

  lemma LargerSquare(s: real, r: real)
    requires 0.0 <= s < r
    ensures Times(s, s) < Times(r, r)
  {
    hide Times;
    TimesLess(r, s, r);
    if s > 0.0 {
      TimesLess(s, s, r);
    } else {
      TimesSign(s, s);
      TimesSign(r, r);
    }
  }

  // The root of the square of a number that is not negative is that number.
  lemma RootOf(sqrt: real -> real, r: real)
    requires IsSqrt(sqrt) && r >= 0.0
    ensures Times(r, r) >= 0.0 && sqrt(Times(r, r)) == r
  {
    hide Times;
    TimesSign(r, r);
    var s := sqrt(Times(r, r));
    if s < r {
      LargerSquare(s, r);
    } else if r < s {
      LargerSquare(r, s);
    }
  }
}
