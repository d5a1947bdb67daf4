// Unsigned machine words as numbers, their bits most significant first, and the bitwise
// operators on them.
module Words {
  import opened Gf2
  import opened Integers

  function Pow2(n: nat): (p: nat)
    ensures p > 0
  {
    if n == 0 then 1 else 2 * Pow2(n - 1)
  }

  lemma Powers()
    ensures Pow2(8) == 0x100 && Pow2(16) == 0x1_0000 && Pow2(24) == 0x100_0000 && Pow2(32) == 0x1_0000_0000
  {
    assert Pow2(2) == 4 && Pow2(4) == 16 && Pow2(6) == 64 && Pow2(8) == 256;
    PowSum(8, 8);
    PowSum(16, 8);
    PowSum(24, 8);
  }

  lemma {:induction false} PowSum(m: nat, n: nat)
    ensures Pow2(m + n) == Pow2(m) * Pow2(n)
  {
    if n > 0 {
      PowSum(m, n - 1);
    }
  }

  // The n low bits of v.
  function LowBits(v: nat, n: nat): (s: Bits)
    ensures |s| == n
  {
    if n == 0 then [] else LowBits(v / 2, n - 1) + [v % 2 == 1]
  }

  function Value(s: Bits): (v: nat)
    ensures v < Pow2(|s|)
  {
    if s == [] then 0 else 2 * Value(s[..|s| - 1]) + (if s[|s| - 1] then 1 else 0)
  }

  function XorWord(a: nat, b: nat): (c: nat) {
    if a == 0 && b == 0 then 0 else 2 * XorWord(a / 2, b / 2) + (a + b) % 2
  }

  function AndWord(a: nat, b: nat): (c: nat) {
    if a == 0 || b == 0 then 0 else 2 * AndWord(a / 2, b / 2) + (if a % 2 == 1 && b % 2 == 1 then 1 else 0)
  }

  function OrWord(a: nat, b: nat): (c: nat) {
    if a == 0 && b == 0 then 0 else 2 * OrWord(a / 2, b / 2) + (if a % 2 == 1 || b % 2 == 1 then 1 else 0)
  }

  lemma {:induction false} BitsOfZero(n: nat)
    ensures LowBits(0, n) == Zeros(n)
  {
    if n > 0 {
      BitsOfZero(n - 1);
    }
  }

  lemma XorHalf(a: nat, b: nat)
    ensures XorWord(a, b) / 2 == XorWord(a / 2, b / 2) && XorWord(a, b) % 2 == (a + b) % 2
  {
  }

  lemma OddSum(a: nat, b: nat)
    ensures (a + b) % 2 == 1 <==> (a % 2 == 1) != (b % 2 == 1)
  {
  }

  lemma {:induction false} BitsOfXor(a: nat, b: nat, n: nat)
    ensures LowBits(XorWord(a, b), n) == Xor(LowBits(a, n), LowBits(b, n))
  {
    if n > 0 {
      BitsOfXor(a / 2, b / 2, n - 1);
      XorHalf(a, b);
      OddSum(a, b);
      var x, y := LowBits(a / 2, n - 1), LowBits(b / 2, n - 1);
      assert Xor(x + [a % 2 == 1], y + [b % 2 == 1]) == Xor(x, y) + [(a + b) % 2 == 1];
    }
  }

  lemma {:induction false} BitsOfAnd(a: nat, b: nat, n: nat, i: nat)
    requires i < n
    ensures LowBits(AndWord(a, b), n)[i] == (LowBits(a, n)[i] && LowBits(b, n)[i])
  {
    if a == 0 || b == 0 {
      BitsOfZero(n);
    } else {
      assert AndWord(a, b) / 2 == AndWord(a / 2, b / 2);
      assert AndWord(a, b) % 2 == (a % 2) * (b % 2);
      if i < n - 1 {
        BitsOfAnd(a / 2, b / 2, n - 1, i);
      }
    }
  }

  lemma {:induction false} BitsOfOr(a: nat, b: nat, n: nat, i: nat)
    requires i < n
    ensures LowBits(OrWord(a, b), n)[i] == (LowBits(a, n)[i] || LowBits(b, n)[i])
  {
    if a == 0 && b == 0 {
      BitsOfZero(n);
    } else {
      assert OrWord(a, b) / 2 == OrWord(a / 2, b / 2);
      if i < n - 1 {
        BitsOfOr(a / 2, b / 2, n - 1, i);
      }
    }
  }

  lemma {:induction false} XorZero(a: nat)
    ensures XorWord(a, 0) == a
  {
    if a != 0 {
      XorZero(a / 2);
    }
  }

  lemma EvenHalf(a: nat, b: nat)
    ensures (2 * b) / 2 == b && (a + 2 * b) % 2 == a % 2
  {
  }

  lemma XorNext(p: nat, q: nat, r: nat)
    requires r < 2
    ensures XorWord(2 * p + r, 2 * q) == 2 * XorWord(p, q) + r
  {
    hide XorWord;
    XorHalf(2 * p + r, 2 * q);
    assert (2 * p + r) / 2 == p && 2 * q / 2 == q && (2 * p + r + 2 * q) % 2 == r;
  }

  // 0x7E ^ 0x20 and 0x7D ^ 0x20
  lemma XorSpaceBit()
    ensures XorWord(0x7E, 0x20) == 0x5E && XorWord(0x7D, 0x20) == 0x5D
  {
    XorNext(0x3F, 0x10, 0);
    XorNext(0x1F, 0x08, 1);
    XorNext(0x3E, 0x10, 1);
    XorNext(0x1F, 0x08, 0);
    XorNext(0x0F, 0x04, 1);
    XorNext(0x07, 0x02, 1);
    XorNext(0x03, 0x01, 1);
    XorHalf(3, 1);
    XorZero(1);
  }

  lemma {:induction false} XorTwice(a: nat, b: nat)
    ensures XorWord(XorWord(a, b), b) == a
  {
    if !(a == 0 && b == 0) {
      var c := XorWord(a, b);
      XorTwice(a / 2, b / 2);
      XorHalf(a, b);
      XorHalf(c, b);
      ParityTwice(a, b, c);
    }
  }

  lemma ParityTwice(a: nat, b: nat, c: nat)
    requires c % 2 == (a + b) % 2
    ensures (c + b) % 2 == a % 2
  {
  }

  lemma XorByte(a: uint8, b: uint8)
    ensures XorWord(a, b) < 256
  {
    Powers();
    XorBounded(a, b, 8);
  }

  lemma {:induction false} XorSelf(a: nat)
    ensures XorWord(a, a) == 0
  {
    if a != 0 {
      XorSelf(a / 2);
    }
  }

  // What x and x' differ by is what c ^ x and y' differ by exactly when y' is c ^ x'.
  lemma XorDifference(c: uint8, x: uint8, x': uint8, y': uint8)
    ensures XorWord(c, x') == y' <==> XorWord(x, x') == XorWord(XorWord(c, x), y')
  {
    var y := XorWord(c, x);
    XorByte(c, x);
    XorByte(c, x');
    XorByte(x, x');
    XorByte(y, y');
    Powers();
    BitsOfXor(c, x, 8);
    BitsOfXor(c, x', 8);
    BitsOfXor(x, x', 8);
    BitsOfXor(y, y', 8);
    XorMove(LowBits(c, 8), LowBits(x, 8), LowBits(x', 8), LowBits(y', 8));
    if XorWord(c, x') == y' {
      SameBitsSameWord(XorWord(x, x'), XorWord(y, y'), 8);
    }
    if XorWord(x, x') == XorWord(y, y') {
      SameBitsSameWord(XorWord(c, x'), y', 8);
    }
  }

  lemma {:induction false} XorShifted(a: nat, b: nat, n: nat)
    ensures ShiftRight(XorWord(a, b), n) == XorWord(ShiftRight(a, n), ShiftRight(b, n))
  {
    if n > 0 {
      XorShifted(a / 2, b / 2, n - 1);
      XorHalf(a, b);
    }
  }

  // XOR with a byte touches the low byte only.
  lemma XorLowByte(c: nat, x: uint8)
    ensures XorWord(c, x) / 256 == c / 256 && XorWord(c, x) % 256 == XorWord(c % 256, x)
  {
    XorShifted(c, x, 8);
    ShiftRightByte(c);
    ShiftRightByte(x);
    ShiftRightByte(XorWord(c, x));
    XorZero(c / 256);
    XorByte(c % 256, x);
    LowByteBits(XorWord(c, x));
    LowByteBits(c);
    BitsOfXor(c, x, 8);
    BitsOfXor(c % 256, x, 8);
    Powers();
    SameBitsSameWord(XorWord(c, x) % 256, XorWord(c % 256, x), 8);
  }

  lemma LowByteBits(v: nat)
    ensures LowBits(v % 256, 8) == LowBits(v, 8)
  {
    Powers();
    BitsOfMod(v, 8);
  }

  lemma {:induction false} XorBounded(a: nat, b: nat, n: nat)
    requires a < Pow2(n) && b < Pow2(n)
    ensures XorWord(a, b) < Pow2(n)
  {
    if n > 0 && !(a == 0 && b == 0) {
      XorBounded(a / 2, b / 2, n - 1);
    }
  }

  lemma {:induction false} OrBounded(a: nat, b: nat, n: nat)
    requires a < Pow2(n) && b < Pow2(n)
    ensures OrWord(a, b) < Pow2(n)
  {
    if n > 0 && !(a == 0 && b == 0) {
      OrBounded(a / 2, b / 2, n - 1);
    }
  }

  lemma {:induction false} AndBounded(a: nat, b: nat)
    ensures AndWord(a, b) <= a
  {
    if a != 0 && b != 0 {
      AndBounded(a / 2, b / 2);
    }
  }

  lemma {:induction false} ValueOfBits(v: nat, n: nat)
    requires v < Pow2(n)
    ensures Value(LowBits(v, n)) == v
  {
    if n > 0 {
      ValueOfBits(v / 2, n - 1);
      assert LowBits(v, n)[..n - 1] == LowBits(v / 2, n - 1);
    }
  }

  lemma {:induction false} BitsOfValue(s: Bits)
    ensures LowBits(Value(s), |s|) == s
  {
    if s != [] {
      BitsOfValue(s[..|s| - 1]);
    }
  }

  lemma SameBitsSameWord(a: nat, b: nat, n: nat)
    requires a < Pow2(n) && b < Pow2(n) && LowBits(a, n) == LowBits(b, n)
    ensures a == b
  {
    ValueOfBits(a, n);
    ValueOfBits(b, n);
  }

  lemma {:induction false} TopBit(v: nat, n: nat)
    requires 0 < n && v < Pow2(n)
    ensures LowBits(v, n)[0] == (v >= Pow2(n - 1))
  {
    if n > 1 {
      TopBit(v / 2, n - 1);
    }
  }

  lemma {:induction false} DropTop(v: nat, n: nat)
    requires 0 < n
    ensures LowBits(v, n)[1..] == LowBits(v, n - 1)
  {
    if n > 1 {
      DropTop(v / 2, n - 1);
    }
  }

  // A word of n bits shifted left by one place.
  lemma DoubledBits(v: nat, n: nat)
    requires n > 0
    ensures LowBits((2 * v) % Pow2(n), n) == LowBits(v, n)[1..] + [false]
  {
    BitsOfMod(2 * v, n);
    DropTop(v, n);
    EvenHalf(0, v);
  }

  function ShiftRight(v: nat, n: nat): nat {
    if n == 0 then v else ShiftRight(v / 2, n - 1)
  }

  lemma {:induction false} BitsSplit(v: nat, m: nat, n: nat)
    ensures LowBits(v, m + n) == LowBits(ShiftRight(v, n), m) + LowBits(v, n)
  {
    if n > 0 {
      BitsSplit(v / 2, m, n - 1);
    }
  }

  lemma ShiftRightByte(v: nat)
    ensures ShiftRight(v, 8) == v / 256
  {
    hide ShiftRight;
    ShiftRightTwo(v, 6);
    ShiftRightTwo(v / 4, 4);
    ShiftRightTwo(v / 16, 2);
    ShiftRightTwo(v / 64, 0);
    NoShift(v / 256);
    assert v / 4 / 4 == v / 16 && v / 16 / 4 == v / 64 && v / 64 / 4 == v / 256;
  }

  lemma ShiftRightTwo(v: nat, n: nat)
    ensures ShiftRight(v, n + 2) == ShiftRight(v / 4, n)
  {
    assert v / 2 / 2 == v / 4;
  }

  lemma NoShift(v: nat)
    ensures ShiftRight(v, 0) == v
  {
  }

  // The bits of a word are the bits of its high part followed by those of its low byte.
  lemma BitsByByte(v: nat, m: nat)
    ensures LowBits(v, m + 8) == LowBits(v / 256, m) + LowBits(v % 256, 8)
  {
    BitsSplit(v, m, 8);
    ShiftRightByte(v);
    BitsOfMod(v, 8);
    Powers();
  }

  lemma ValueNibble(s: Bits, a: bool, b: bool, c: bool, d: bool)
    ensures Value(s + [a, b, c, d])
         == 16 * Value(s) + (if a then 8 else 0) + (if b then 4 else 0) + (if c then 2 else 0) + (if d then 1 else 0)
  {
    hide Value;
    ValueAppend(s, a);
    ValueAppend(s + [a], b);
    ValueAppend(s + [a] + [b], c);
    ValueAppend(s + [a] + [b] + [c], d);
    assert s + [a, b, c, d] == s + [a] + [b] + [c] + [d];
  }

  lemma ValueAppend(s: Bits, b: bool)
    ensures Value(s + [b]) == 2 * Value(s) + (if b then 1 else 0)
  {
    assert (s + [b])[..|s|] == s;
  }

  lemma {:induction false} BitsOfSum(x: nat, y: nat, n: nat)
    ensures LowBits(x * Pow2(n) + y, n) == LowBits(y, n)
  {
    if n > 0 {
      var m := x * Pow2(n - 1);
      assert x * Pow2(n) == 2 * m;
      EvenPart(2 * m + y, m, y);
      BitsOfSum(x, y / 2, n - 1);
    }
  }

  lemma EvenPart(v: nat, m: nat, r: nat)
    requires v == 2 * m + r
    ensures v / 2 == m + r / 2 && v % 2 == r % 2
  {
  }

  lemma BitsOfMod(v: nat, n: nat)
    ensures LowBits(v % Pow2(n), n) == LowBits(v, n)
  {
    var q, r := DivMod(v, Pow2(n));
    BitsOfSum(q, r, n);
  }

  lemma DivMod(v: nat, p: nat) returns (q: nat, r: nat)
    requires p > 0
    ensures v == q * p + r && r == v % p
  {
    q, r := v / p, v % p;
  }

  lemma {:induction false} BitsOfShift(v: nat, n: nat, k: nat)
    ensures LowBits(v * Pow2(k), n + k) == LowBits(v, n) + Zeros(k)
  {
    if k > 0 {
      hide LowBits, Zeros;
      BitsOfShift(v, n, k - 1);
      TwiceShifted(v, k);
      OneMoreZero(v * Pow2(k - 1), n + k);
      ZeroAppended(LowBits(v, n), k);
    } else {
      assert LowBits(v, n) + Zeros(0) == LowBits(v, n);
    }
  }

  lemma TwiceShifted(v: nat, k: nat)
    requires k > 0
    ensures v * Pow2(k) == 2 * (v * Pow2(k - 1))
  {
  }

  lemma OneMoreZero(u: nat, n: nat)
    requires n > 0
    ensures LowBits(2 * u, n) == LowBits(u, n - 1) + [false]
  {
    assert 2 * u / 2 == u;
  }

  lemma ZeroAppended(s: Bits, k: nat)
    requires k > 0
    ensures s + Zeros(k) == s + Zeros(k - 1) + [false]
  {
    assert Zeros(k) == Zeros(k - 1) + [false];
  }

  // The message polynomial: the bytes in order, each from its most significant bit.
  function MessageBits(data: seq<uint8>): (s: Bits)
    ensures |s| == 8 * |data|
  {
    if data == [] then [] else MessageBits(data[..|data| - 1]) + LowBits(data[|data| - 1], 8)
  }

  lemma {:induction false} MessageBitsConcat(a: seq<uint8>, b: seq<uint8>)
    ensures MessageBits(a + b) == MessageBits(a) + MessageBits(b)
  {
    if b == [] {
      assert a + b == a;
    } else {
      var k := |b| - 1;
      assert (a + b)[..|a| + k] == a + b[..k];
      MessageBitsConcat(a, b[..k]);
    }
  }

  lemma {:induction false} MessageBitsInjective(a: seq<uint8>, b: seq<uint8>)
    requires |a| == |b| && MessageBits(a) == MessageBits(b)
    ensures a == b
  {
    if a != [] {
      hide MessageBits, LowBits;
      var k := |a| - 1;
      LastByte(a);
      LastByte(b);
      MessageBitsInjective(a[..k], b[..k]);
      Powers();
      SameBitsSameWord(a[k], b[k], 8);
      assert a == a[..k] + [a[k]] && b == b[..k] + [b[k]];
    }
  }

  lemma LastByte(a: seq<uint8>)
    requires a != []
    ensures var k := |a| - 1;
            MessageBits(a)[..8 * k] == MessageBits(a[..k]) && MessageBits(a)[8 * k..] == LowBits(a[k], 8)
  {
    hide LowBits;
  }

  lemma MessageCut(a: seq<uint8>, i: nat)
    requires i <= |a|
    ensures MessageBits(a)[..8 * i] == MessageBits(a[..i]) && MessageBits(a)[8 * i..] == MessageBits(a[i..])
  {
    hide MessageBits;
    var x, y := MessageBits(a[..i]), MessageBits(a[i..]);
    assert a == a[..i] + a[i..];
    MessageBitsConcat(a[..i], a[i..]);
    assert MessageBits(a) == x + y && |x| == 8 * i;
  }

  function XorBytes(a: seq<uint8>, b: seq<uint8>): (c: seq<uint8>)
    requires |a| == |b|
    ensures |c| == |a| && forall i :: 0 <= i < |a| ==> c[i] == XorWord(a[i], b[i])
  {
    if a == [] then []
    else
      var k := |a| - 1;
      XorByte(a[k], b[k]);
      XorBytes(a[..k], b[..k]) + [XorWord(a[k], b[k])]
  }

  lemma {:induction false} MessageBitsXor(a: seq<uint8>, b: seq<uint8>)
    requires |a| == |b|
    ensures MessageBits(XorBytes(a, b)) == Xor(MessageBits(a), MessageBits(b))
  {
    if a != [] {
      var k := |a| - 1;
      MessageBitsXor(a[..k], b[..k]);
      BitsOfXor(a[k], b[k], 8);
      XorByte(a[k], b[k]);
      assert XorBytes(a, b)[..k] == XorBytes(a[..k], b[..k]);
    }
  }
}
