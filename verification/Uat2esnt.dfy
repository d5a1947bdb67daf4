// dump978/uat2esnt.c: the Mode S parity of the frames it sends (section 3.1.2.3.3 of ICAO Annex 10
// Volume IV).
module Uat2esnt {
  import opened Gf2
  import opened Integers
  import opened Words

  // ---- Parity ----

  // x^24 + x^23 + ... + x^12 + x^10 + x^3 + 1, without its leading term.
  function Generator(): (g: Bits)
    ensures |g| == 24
  {
    Ones(12) + [false, true] + Zeros(6) + [true, false, false, true]
  }

  // MODES_GENERATOR_POLY
  function Poly(): uint24 {
    Powers();
    Value(Generator())
  }

  // The constant in the source.
  lemma PolyConstant()
    ensures Poly() == 0xFFF409
  {
    var a := [] + [true, true, true, true];
    var b := a + [true, true, true, true];
    var c := b + [true, true, true, true];
    var d := c + [false, true, false, false];
    var e := d + [false, false, false, false];
    ValueNibble([], true, true, true, true);
    ValueNibble(a, true, true, true, true);
    ValueNibble(b, true, true, true, true);
    ValueNibble(c, false, true, false, false);
    ValueNibble(d, false, false, false, false);
    ValueNibble(e, true, false, false, true);
    assert Generator() == e + [true, false, false, true];
  }

  // What the parity field of a frame must hold: the remainder of the message times x^24.
  function Parity(message: seq<uint8>): uint24 {
    Powers();
    Value(Rem(Generator(), MessageBits(message) + Zeros(24)))
  }

  lemma ParityBits(message: seq<uint8>)
    ensures LowBits(Parity(message), 24) == Rem(Generator(), MessageBits(message) + Zeros(24))
  {
    BitsOfValue(Rem(Generator(), MessageBits(message) + Zeros(24)));
  }

  function Entry(top: uint8): Bits {
    TableEntry(Generator(), LowBits(top, 8))
  }

  function EntryWord(i: uint8): uint24 {
    Powers();
    Value(Entry(i))
  }

  // One round of the inner loop of initCrcTables. Only bit 23 of c is looked at, and the bits
  // shifted above it are dropped at the end.
  function InnerRound(c: uint32): uint32 {
    Powers();
    var shifted := (2 * c) % 0x1_0000_0000;
    XorBounded(shifted, Poly(), 32);
    if c / 0x80_0000 % 2 == 1 then XorWord(shifted, Poly()) else shifted
  }

  lemma InnerRoundSteps(c: uint32)
    ensures LowBits(InnerRound(c), 24) == Step(Generator(), LowBits(c, 24), false)
  {
    var shifted := (2 * c) % 0x1_0000_0000;
    TestedBit(c);
    ShiftedBits(c);
    if c / 0x80_0000 % 2 == 1 {
      BitsOfValue(Generator());
      BitsOfXor(shifted, Poly(), 24);
    }
  }

  lemma TestedBit(c: uint32)
    ensures LowBits(c, 24)[0] == (c / 0x80_0000 % 2 == 1)
  {
    hide LowBits;
    Powers();
    assert Pow2(23) == 0x80_0000;
    LowWord(c, c / 0x80_0000);
    TopBit(c % 0x100_0000, 24);
    BitsOfMod(c, 24);
  }

  lemma ShiftedBits(c: uint32)
    ensures LowBits((2 * c) % 0x1_0000_0000, 24) == LowBits(c, 24)[1..] + [false]
  {
    hide LowBits;
    Powers();
    LowDoubled(c);
    BitsOfMod((2 * c) % 0x1_0000_0000, 24);
    DoubledBits(c, 24);
  }

  lemma LowWord(c: uint32, q: nat)
    requires q == c / 0x80_0000
    ensures c % 0x100_0000 >= 0x80_0000 <==> q % 2 == 1
  {
    var r := c % 0x80_0000;
    assert c == 0x100_0000 * (q / 2) + 0x80_0000 * (q % 2) + r;
  }

  lemma LowDoubled(c: uint32)
    ensures ((2 * c) % 0x1_0000_0000) % 0x100_0000 == (2 * c) % 0x100_0000
  {
    var q := 2 * c / 0x1_0000_0000;
    assert 2 * c == 0x100_0000 * (0x100 * q) + (2 * c) % 0x1_0000_0000;
  }

  class CrcTables {
    const crcTable: array<uint24>

    ghost predicate Valid()
      reads this, crcTable
    {
      crcTable.Length == 256 && forall i: uint8 :: crcTable[i] == EntryWord(i)
    }

    // initCrcTables
    constructor ()
      ensures Valid() && fresh(crcTable)
    {
      crcTable := new uint24[256];
      new;
      hide EntryWord, Entry;
      var i: int := 0;
      while i < 256
        invariant 0 <= i <= 256
        invariant forall j: uint8 :: j < i ==> crcTable[j] == EntryWord(j)
      {
        var c := TableByte(i);
        crcTable[i] := c;
        i := i + 1;
      }
    }

    // The inner loop of initCrcTables.
    static method TableByte(i: uint8) returns (c: uint24)
      ensures c == EntryWord(i)
    {
      var w: uint32 := i * 0x1_0000;
      ghost var start := LowBits(w, 24);
      assert start == LowBits(i, 8) + Zeros(16) by {
        Powers();
        BitsOfShift(i, 8, 16);
      }
      var j := 0;
      while j < 8
        invariant 0 <= j <= 8
        invariant LowBits(w, 24) == Feed(Generator(), start, Zeros(j))
      {
        assert Zeros(j + 1)[..j] == Zeros(j);
        InnerRoundSteps(w);
        w := InnerRound(w);
        j := j + 1;
      }
      Powers();
      BitsOfMod(w, 24);
      c := w % 0x100_0000;
      ValueOfBits(c, 24);
    }

    // checksum
    method Checksum(message: seq<uint8>, n: nat) returns (rem: uint24)
      requires Valid() && n <= |message|
      ensures rem == Parity(message[..n])
    {
      hide LowBits, MessageBits, Rem, XorWord, EntryWord, Parity;
      rem := 0;
      var i := 0;
      NothingChecked();
      assert message[..0] == [];
      while i < n
        invariant 0 <= i <= n
        invariant LowBits(rem, 24) == Rem(Generator(), MessageBits(message[..i]) + Zeros(24))
      {
        XorByte(message[i], rem / 0x1_0000);
        var index: uint8 := XorWord(message[i], rem / 0x1_0000);
        var entry := crcTable[index];
        ChecksumRound(message[..i], message[i], rem, entry);
        assert message[..i + 1] == message[..i] + [message[i]];
        Powers();
        XorBounded(rem * 0x100, entry, 32);
        rem := XorWord(rem * 0x100, entry) % 0x100_0000;
        i := i + 1;
      }
      ParityBits(message[..n]);
      Powers();
      SameBitsSameWord(rem, Parity(message[..n]), 24);
    }

    // checksum_and_send, up to the point where the frame is printed
    method CompleteFrame(frame: array<uint8>, len: nat, parity: uint32)
      requires Valid() && 3 <= len <= frame.Length && frame != crcTable as object
      modifies frame
      ensures frame[..len] == Completed(old(frame[..len - 3]), parity) && frame[len..] == old(frame[len..])
    {
      var rem := Checksum(frame[..], len - 3);
      assert frame[..][..len - 3] == frame[..len - 3];
      var word := XorWord(rem, parity);
      frame[len - 3] := word / 0x1_0000 % 256;
      frame[len - 2] := word / 0x100 % 256;
      frame[len - 1] := word % 256;
    }
  }

  // A frame with its parity field: the three low bytes of the checksum combined with parity.
  function Completed(message: seq<uint8>, parity: uint32): (f: seq<uint8>)
    ensures |f| == |message| + 3
  {
    var word := XorWord(Parity(message), parity);
    message + [word / 0x1_0000 % 256, word / 0x100 % 256, word % 256]
  }

  lemma NothingChecked()
    ensures LowBits(0, 24) == Rem(Generator(), MessageBits([]) + Zeros(24))
  {
    hide LowBits;
    BitsOfZero(24);
    FeedZeroRegister(Generator(), 24);
    assert MessageBits([]) + Zeros(24) == Zeros(24);
  }

  lemma ChecksumRound(message: seq<uint8>, b: uint8, rem: uint24, entry: uint24)
    requires LowBits(rem, 24) == Rem(Generator(), MessageBits(message) + Zeros(24))
    requires XorWord(b, rem / 0x1_0000) < 256 && entry == EntryWord(XorWord(b, rem / 0x1_0000))
    ensures LowBits(XorWord(rem * 0x100, entry) % 0x100_0000, 24)
         == Rem(Generator(), MessageBits(message + [b]) + Zeros(24))
  {
    hide LowBits, MessageBits, Rem, XorWord, EntryWord;
    var g, r, m := Generator(), LowBits(rem, 24), LowBits(b, 8);
    var top := Xor(r[..8], m);
    assert LowBits(entry, 24) == TableEntry(g, top) by {
      IndexBits(b, rem, entry);
    }
    assert Rem(g, MessageBits(message + [b]) + Zeros(24)) == Feed(g, top + r[8..], Zeros(8)) by {
      NextByte(message, b, r);
    }
    assert Feed(g, top + r[8..], Zeros(8)) == Xor(TableEntry(g, top), r[8..] + Zeros(8)) by {
      TableStep(top, r[8..]);
    }
    assert LowBits(XorWord(rem * 0x100, entry) % 0x100_0000, 24) == Xor(r[8..] + Zeros(8), LowBits(entry, 24)) by {
      ShiftedEntry(rem, entry);
    }
    XorCommutes(r[8..] + Zeros(8), TableEntry(g, top));
  }

  lemma IndexBits(b: uint8, rem: uint24, entry: uint24)
    requires XorWord(b, rem / 0x1_0000) < 256 && entry == EntryWord(XorWord(b, rem / 0x1_0000))
    ensures LowBits(entry, 24) == TableEntry(Generator(), Xor(LowBits(rem, 24)[..8], LowBits(b, 8)))
  {
    hide LowBits, XorWord, Value;
    RegisterParts(rem);
    var top := Xor(LowBits(rem, 24)[..8], LowBits(b, 8));
    BitsOfXor(b, rem / 0x1_0000, 8);
    XorCommutes(LowBits(rem / 0x1_0000, 8), LowBits(b, 8));
    BitsOfValue(TableEntry(Generator(), top));
  }

  lemma XorCommutes(a: Bits, b: Bits)
    requires |a| == |b|
    ensures Xor(a, b) == Xor(b, a)
  {
  }

  lemma NextByte(message: seq<uint8>, b: uint8, r: Bits)
    requires r == Rem(Generator(), MessageBits(message) + Zeros(24))
    ensures Rem(Generator(), MessageBits(message + [b]) + Zeros(24))
            == Feed(Generator(), Xor(r[..8], LowBits(b, 8)) + r[8..], Zeros(8))
  {
    hide LowBits, Rem;
    var m := LowBits(b, 8);
    AugmentedStep(Generator(), MessageBits(message), m, 16);
    assert (message + [b])[..|message|] == message;
    assert MessageBits(message + [b]) + Zeros(24) == MessageBits(message) + (m + Zeros(24));
    assert Xor(r, m + Zeros(16)) == Xor(r[..8], m) + r[8..];
  }

  lemma TableStep(top: Bits, rest: Bits)
    requires |top| == 8 && |rest| == 16
    ensures Feed(Generator(), top + rest, Zeros(8)) == Xor(TableEntry(Generator(), top), rest + Zeros(8))
  {
    FeedByTable(Generator(), top + rest, Zeros(8));
    assert (top + rest)[..8] == top && (top + rest)[8..] == rest;
  }

  lemma ShiftedEntry(rem: uint24, entry: uint24)
    ensures LowBits(XorWord(rem * 0x100, entry) % 0x100_0000, 24)
            == Xor(LowBits(rem, 24)[8..] + Zeros(8), LowBits(entry, 24))
  {
    hide LowBits, XorWord;
    RegisterParts(rem);
    Powers();
    BitsOfMod(XorWord(rem * 0x100, entry), 24);
    BitsOfXor(rem * 0x100, entry, 24);
  }

  lemma RegisterParts(rem: uint24)
    ensures LowBits(rem, 24)[..8] == LowBits(rem / 0x1_0000, 8)
    ensures LowBits(rem * 0x100, 24) == LowBits(rem, 24)[8..] + Zeros(8)
  {
    Powers();
    BitsOfShift(rem, 16, 8);
    BitsSplit(rem, 8, 16);
    ShiftRightTwoBytes(rem);
  }

  lemma ShiftRightTwoBytes(v: nat)
    ensures ShiftRight(v, 16) == v / 0x1_0000
  {
    ShiftTwice(v, 8, 8);
    ShiftRightByte(v);
    ShiftRightByte(v / 256);
  }

  lemma {:induction false} ShiftTwice(v: nat, m: nat, n: nat)
    ensures ShiftRight(ShiftRight(v, m), n) == ShiftRight(v, m + n)
  {
    if m > 0 {
      ShiftTwice(v / 2, m - 1, n);
    }
  }

  // The parity a receiver of Mode S finds: dividing the whole completed frame by the generator
  // leaves exactly the value that was combined with the checksum.
  lemma CompletedRemainder(message: seq<uint8>, parity: uint32)
    ensures Rem(Generator(), MessageBits(Completed(message, parity))) == LowBits(parity, 24)
  {
    var word := XorWord(Parity(message), parity);
    var field := [word / 0x1_0000 % 256, word / 0x100 % 256, word % 256];
    var c, p := LowBits(Parity(message), 24), LowBits(parity, 24);
    assert MessageBits(Completed(message, parity)) == MessageBits(message) + Xor(c, p) by {
      MessageBitsConcat(message, field);
      ThreeBytes(word);
      BitsOfXor(Parity(message), parity, 24);
    }
    RemAppend(Generator(), MessageBits(message), Xor(c, p));
    ParityBits(message);
    XorSelfCancels(c, p);
  }

  lemma ThreeBytes(word: nat)
    ensures MessageBits([word / 0x1_0000 % 256, word / 0x100 % 256, word % 256]) == LowBits(word, 24)
  {
    var h: uint8, m: uint8, l: uint8 := word / 0x1_0000 % 256, word / 0x100 % 256, word % 256;
    assert word / 256 / 256 == word / 0x1_0000;
    BitsByByte(word, 16);
    BitsByByte(word / 256, 8);
    LowByteBits(word / 0x1_0000);
    OneByte(h);
    OneByte(m);
    OneByte(l);
    MessageBitsConcat([h], [m]);
    MessageBitsConcat([h] + [m], [l]);
    assert [h, m, l] == [h] + [m] + [l];
  }

  lemma OneByte(b: uint8)
    ensures MessageBits([b]) == LowBits(b, 8)
  {
    assert [b][..0] == [];
  }
}
