// dump978/uat2esnt.c: setbits, which writes a bit field that may straddle several bytes of a frame.
module SetBits {
  import opened Gf2
  import opened Integers
  import opened Words

  // Bits firstbit..lastbit, counted from 1 as in the Mode S and UAT message tables.
  datatype Field = Field(firstbit: nat, lastbit: nat, value: uint32) {
    function Width(): nat
      requires firstbit <= lastbit
    {
      lastbit - firstbit + 1
    }

    // The field lies in a frame of n bits, and value << offset still fits the 32-bit registers.
    predicate Fits(n: nat) {
      && 1 <= firstbit <= lastbit <= n
      && Width() <= 30
      && Width() + (7 - (lastbit - 1) % 8) <= 32
    }
  }

  // The bits of a frame after one write: the field replaced by the low bits of its value.
  function Written(bits: Bits, f: Field): (r: Bits)
    requires f.Fits(|bits|)
    ensures |r| == |bits|
  {
    bits[..f.firstbit - 1] + LowBits(f.value, f.Width()) + bits[f.lastbit..]
  }

  function ShiftLeft(v: uint32, n: nat): uint32 {
    (v * Pow2(n)) % 0x1_0000_0000
  }

  function Not(v: uint32): uint32 {
    0xFFFF_FFFF - v
  }

  // (b & imask >> 8j) | (aligned >> 8j), stored back into a byte
  function Merged(b: uint8, imask: uint32, aligned: uint32, j: nat): uint8 {
    OrWord(AndWord(b, ShiftRight(imask, 8 * j)), ShiftRight(aligned, 8 * j)) % 256
  }

  method Write(frame: array<uint8>, firstbit: nat, lastbit: nat, value: uint32)
    requires Field(firstbit, lastbit, value).Fits(8 * frame.Length)
    modifies frame
    ensures MessageBits(frame[..]) == Written(old(MessageBits(frame[..])), Field(firstbit, lastbit, value))
  {
    hide Prepared, Merged, Written, MessageBits, Stored, BytesMerged;
    ghost var f, was := Field(firstbit, lastbit, value), frame[..];
    var lb := lastbit - 1;
    var offset := 7 - lb % 8;
    var width := lastbit - firstbit + 1;
    var imask, aligned := Prepare(firstbit, lastbit, value, width, offset);
    Store(frame, lb / 8, width + offset, imask, aligned);
    StoredBytes(was, f, imask, aligned);
    AllMerged(was, frame[..], f, imask, aligned);
  }

  method Prepare(ghost firstbit: nat, ghost lastbit: nat, value: uint32, width: nat, offset: nat)
    returns (imask: uint32, aligned: uint32)
    requires Field(firstbit, lastbit, value).Fits(lastbit)
             && width == lastbit - firstbit + 1 && offset == 7 - (lastbit - 1) % 8
    ensures Prepared(Field(firstbit, lastbit, value), imask, aligned)
  {
    hide ShiftLeft, AndWord, Pow2;
    PowBelow(width, 32);
    var mask: uint32 := Pow2(width) - 1;
    imask := Not(ShiftLeft(mask, offset));
    AndBelow(value, mask);
    aligned := ShiftLeft(AndWord(value, mask), offset);
  }

  method Store(frame: array<uint8>, last: nat, nb: nat, imask: uint32, aligned: uint32)
    requires last < frame.Length && nb <= 8 * (last + 1) && nb <= 32
    modifies frame
    ensures frame[..] == Stored(old(frame[..]), last, nb, imask, aligned)
  {
    hide Merged;
    frame[last] := Merged(frame[last], imask, aligned, 0);
    if nb > 8 {
      frame[last - 1] := Merged(frame[last - 1], imask, aligned, 1);
    }
    if nb > 16 {
      frame[last - 2] := Merged(frame[last - 2], imask, aligned, 2);
    }
    if nb > 24 {
      frame[last - 3] := Merged(frame[last - 3], imask, aligned, 3);
    }
  }

  // The frame with the bytes of a field stored
  function Stored(was: seq<uint8>, last: nat, nb: nat, imask: uint32, aligned: uint32): (now: seq<uint8>)
    requires last < |was| && nb <= 8 * (last + 1) && nb <= 32
    ensures |now| == |was|
  {
    var s0 := was[last := Merged(was[last], imask, aligned, 0)];
    var s1 := if nb > 8 then s0[last - 1 := Merged(was[last - 1], imask, aligned, 1)] else s0;
    var s2 := if nb > 16 then s1[last - 2 := Merged(was[last - 2], imask, aligned, 2)] else s1;
    if nb > 24 then s2[last - 3 := Merged(was[last - 3], imask, aligned, 3)] else s2
  }

  lemma StoredBytes(was: seq<uint8>, f: Field, imask: uint32, aligned: uint32)
    requires f.Fits(8 * |was|)
    ensures var now := Stored(was, (f.lastbit - 1) / 8, f.Width() + (7 - (f.lastbit - 1) % 8), imask, aligned);
            BytesMerged(was, now, f, imask, aligned)
  {
    hide Merged;
    forall b: nat | b < |was| ensures ReachedBytesAre(f, b) {
      ReachedBytes(f, b);
    }
  }

  ghost predicate ReachedBytesAre(f: Field, b: nat)
    requires f.Fits(f.lastbit)
  {
    var last, nb := (f.lastbit - 1) / 8, f.Width() + (7 - (f.lastbit - 1) % 8);
    Reached(f, b) <==>
      b == last || (b == last - 1 && nb > 8) || (b == last - 2 && nb > 16) || (b == last - 3 && nb > 24)
  }

  lemma PowBelow(m: nat, n: nat)
    requires m <= n == 32
    ensures Pow2(m) <= 0x1_0000_0000
  {
    PowSum(m, n - m);
    Powers();
    assert Pow2(m) * Pow2(n - m) >= Pow2(m);
  }

  lemma {:induction false} AndBelow(a: nat, b: nat)
    ensures AndWord(a, b) <= a && AndWord(a, b) <= b
  {
    if a != 0 && b != 0 {
      AndBelow(a / 2, b / 2);
    }
  }

  lemma {:induction false} MaskBits(w: nat)
    ensures LowBits(Pow2(w) - 1, w) == Ones(w) && ShiftRight(Pow2(w) - 1, w) == 0
  {
    if w > 0 {
      MaskBits(w - 1);
      assert (Pow2(w) - 1) / 2 == Pow2(w - 1) - 1;
    }
  }

  lemma MaskWord(w: nat)
    requires w <= 32
    ensures LowBits(Pow2(w) - 1, 32) == Zeros(32 - w) + Ones(w)
  {
    MaskBits(w);
    BitsSplit(Pow2(w) - 1, 32 - w, w);
    BitsOfZero(32 - w);
  }

  lemma ShiftLeftBits(v: uint32, n: nat)
    requires n <= 32
    ensures LowBits(ShiftLeft(v, n), 32) == LowBits(v, 32)[n..] + Zeros(n)
  {
    hide LowBits;
    assert LowBits(ShiftLeft(v, n), 32) == LowBits(v * Pow2(n), 32 - n + n) by {
      Powers();
      BitsOfMod(v * Pow2(n), 32);
    }
    BitsOfShift(v, 32 - n, n);
    assert LowBits(v, 32)[n..] == LowBits(v, 32 - n) by {
      BitsSplit(v, n, 32 - n);
    }
  }

  lemma {:induction false} NotBits(v: nat, n: nat, i: nat)
    requires v < Pow2(n) && i < n
    ensures LowBits(Pow2(n) - 1 - v, n)[i] == !LowBits(v, n)[i]
  {
    var c := Pow2(n) - 1 - v;
    assert c / 2 == Pow2(n - 1) - 1 - v / 2 && c % 2 == 1 - v % 2;
    if i < n - 1 {
      NotBits(v / 2, n - 1, i);
    }
  }

  // imask and aligned as setbits computes them.
  predicate Prepared(f: Field, imask: uint32, aligned: uint32)
    requires f.firstbit <= f.lastbit
  {
    var w, offset := f.Width(), 7 - (f.lastbit - 1) % 8;
    && Pow2(w) <= 0x1_0000_0000
    && AndWord(f.value, Pow2(w) - 1) < 0x1_0000_0000
    && imask == Not(ShiftLeft(Pow2(w) - 1, offset))
    && aligned == ShiftLeft(AndWord(f.value, Pow2(w) - 1), offset)
  }

  // The registers of one write: which of the 32 bits the field occupies, and what is in them.
  lemma Registers(f: Field, imask: uint32, aligned: uint32, p: nat)
    requires f.Fits(f.lastbit) && p < 32 && Prepared(f, imask, aligned)
    ensures var w, end := f.Width(), 32 - (7 - (f.lastbit - 1) % 8);
            if end - w <= p < end
            then !LowBits(imask, 32)[p] && LowBits(aligned, 32)[p] == LowBits(f.value, w)[p - (end - w)]
            else LowBits(imask, 32)[p] && !LowBits(aligned, 32)[p]
  {
    hide LowBits, AndWord, Pow2, ShiftLeft, Not, Prepared;
    var w, offset := f.Width(), 7 - (f.lastbit - 1) % 8;
    MaskRegister(f, imask, aligned, p);
    AlignedRegister(f, imask, aligned, p);
    if p < 32 - offset {
      MaskedBit(f.value, w, p + offset);
    }
  }

  lemma MaskRegister(f: Field, imask: uint32, aligned: uint32, p: nat)
    requires f.Fits(f.lastbit) && p < 32 && Prepared(f, imask, aligned)
    ensures var w, offset := f.Width(), 7 - (f.lastbit - 1) % 8;
            LowBits(imask, 32)[p] == (p >= 32 - offset || !LowBits(Pow2(w) - 1, 32)[p + offset])
  {
    hide LowBits, AndWord, Pow2, ShiftLeft;
    var w, offset := f.Width(), 7 - (f.lastbit - 1) % 8;
    ShiftLeftBits(Pow2(w) - 1, offset);
    Powers();
    NotBits(ShiftLeft(Pow2(w) - 1, offset), 32, p);
  }

  lemma AlignedRegister(f: Field, imask: uint32, aligned: uint32, p: nat)
    requires f.Fits(f.lastbit) && p < 32 && Prepared(f, imask, aligned)
    ensures var w, offset := f.Width(), 7 - (f.lastbit - 1) % 8;
            LowBits(aligned, 32)[p] == (p < 32 - offset && LowBits(AndWord(f.value, Pow2(w) - 1), 32)[p + offset])
  {
    hide LowBits, AndWord, Pow2, ShiftLeft;
    var w, offset := f.Width(), 7 - (f.lastbit - 1) % 8;
    ShiftLeftBits(AndWord(f.value, Pow2(w) - 1), offset);
  }

  lemma MaskedBit(value: uint32, w: nat, q: nat)
    requires w <= 32 && q < 32
    ensures LowBits(Pow2(w) - 1, 32)[q] == (32 - w <= q)
    ensures LowBits(AndWord(value, Pow2(w) - 1), 32)[q] == (32 - w <= q && LowBits(value, w)[q - (32 - w)])
  {
    hide LowBits, AndWord, Pow2;
    MaskWord(w);
    BitsOfAnd(value, Pow2(w) - 1, 32, q);
    BitsSplit(value, 32 - w, w);
  }

  lemma ShiftedByteBit(v: uint32, j: nat, i: nat)
    requires j < 4 && i < 8
    ensures LowBits(ShiftRight(v, 8 * j), 8)[i] == LowBits(v, 32)[24 - 8 * j + i]
  {
    BitsSplit(v, 8, 8 * j);
    BitsSplit(v, 24 - 8 * j, 8 + 8 * j);
  }

  lemma MergedBit(b: uint8, imask: uint32, aligned: uint32, j: nat, i: nat)
    requires j < 4 && i < 8
    ensures LowBits(Merged(b, imask, aligned, j), 8)[i]
         == ((LowBits(b, 8)[i] && LowBits(imask, 32)[24 - 8 * j + i]) || LowBits(aligned, 32)[24 - 8 * j + i])
  {
    var m, a := ShiftRight(imask, 8 * j), ShiftRight(aligned, 8 * j);
    LowByteBits(OrWord(AndWord(b, m), a));
    BitsOfOr(AndWord(b, m), a, 8, i);
    BitsOfAnd(b, m, 8, i);
    ShiftedByteBit(imask, j, i);
    ShiftedByteBit(aligned, j, i);
  }

  lemma {:induction false} MessageBit(data: seq<uint8>, k: nat)
    requires k < 8 * |data|
    ensures MessageBits(data)[k] == LowBits(data[k / 8], 8)[k % 8]
  {
    var n := |data| - 1;
    if k < 8 * n {
      MessageBit(data[..n], k);
    }
  }

  // How many bytes before the last byte of the field byte b lies, if a part of the field falls
  // into it.
  predicate Reached(f: Field, b: nat)
    requires 1 <= f.firstbit <= f.lastbit
  {
    var last := (f.lastbit - 1) / 8;
    b <= last && f.Width() + (7 - (f.lastbit - 1) % 8) > 8 * (last - b)
  }

  lemma ReachedBytes(f: Field, b: nat)
    requires f.Fits(f.lastbit)
    ensures ReachedBytesAre(f, b)
  {
  }

  ghost predicate BytesMerged(was: seq<uint8>, now: seq<uint8>, f: Field, imask: uint32, aligned: uint32)
    requires |was| == |now| && 1 <= f.firstbit <= f.lastbit
  {
    forall b: nat :: b < |was| ==>
      now[b] == if Reached(f, b) then Merged(was[b], imask, aligned, (f.lastbit - 1) / 8 - b) else was[b]
  }

  // Bytes that received the part of the field that falls into them hold the written frame.
  lemma AllMerged(was: seq<uint8>, now: seq<uint8>, f: Field, imask: uint32, aligned: uint32)
    requires |was| == |now| && f.Fits(8 * |was|)
    requires Prepared(f, imask, aligned) && BytesMerged(was, now, f, imask, aligned)
    ensures MessageBits(now) == Written(MessageBits(was), f)
  {
    var have, bits := MessageBits(now), MessageBits(was);
    forall k | 0 <= k < |bits| ensures have[k] == Written(bits, f)[k] {
      var b := k / 8;
      MessageBit(was, k);
      MessageBit(now, k);
      OneBit(bits, was[b], now[b], f, imask, aligned, k);
    }
  }

  lemma OneBit(bits: Bits, was: uint8, now: uint8, f: Field, imask: uint32, aligned: uint32, k: nat)
    requires f.Fits(|bits|) && k < |bits| && bits[k] == LowBits(was, 8)[k % 8] && Prepared(f, imask, aligned)
    requires now == if Reached(f, k / 8) then Merged(was, imask, aligned, (f.lastbit - 1) / 8 - k / 8) else was
    ensures LowBits(now, 8)[k % 8] == Written(bits, f)[k]
  {
    hide LowBits, Merged, Prepared, Written, Reached;
    var b, i := k / 8, k % 8;
    WrittenBit(bits, f, k);
    if Reached(f, b) {
      ReachedBit(was, f, imask, aligned, b, i);
    } else {
      NotReached(f, b, i);
    }
  }

  lemma WrittenBit(bits: Bits, f: Field, k: nat)
    requires f.Fits(|bits|) && k < |bits|
    ensures Written(bits, f)[k]
            == if f.firstbit - 1 <= k < f.lastbit then LowBits(f.value, f.Width())[k - (f.firstbit - 1)] else bits[k]
  {
  }

  lemma NotReached(f: Field, b: nat, i: nat)
    requires 1 <= f.firstbit <= f.lastbit && i < 8 && !Reached(f, b)
    ensures 8 * b + i < f.firstbit - 1 || f.lastbit <= 8 * b + i
  {
  }

  lemma ReachedBit(was: uint8, f: Field, imask: uint32, aligned: uint32, b: nat, i: nat)
    requires f.Fits(f.lastbit) && i < 8 && Prepared(f, imask, aligned) && Reached(f, b)
    ensures var k, now := 8 * b + i, Merged(was, imask, aligned, (f.lastbit - 1) / 8 - b);
            LowBits(now, 8)[i]
            == if f.firstbit - 1 <= k < f.lastbit then LowBits(f.value, f.Width())[k - (f.firstbit - 1)]
            else LowBits(was, 8)[i]
  {
    hide LowBits, Merged, Prepared;
    var j := (f.lastbit - 1) / 8 - b;
    MergedBit(was, imask, aligned, j, i);
    Registers(f, imask, aligned, 24 - 8 * j + i);
  }

  // ---- Several fields ----

  predicate Disjoint(f: Field, g: Field) {
    f.lastbit < g.firstbit || g.lastbit < f.firstbit
  }

  ghost predicate Layout(n: nat, fs: seq<Field>) {
    && (forall i :: 0 <= i < |fs| ==> fs[i].Fits(n))
    && (forall i, j :: 0 <= i < j < |fs| ==> Disjoint(fs[i], fs[j]))
  }

  function WriteAll(bits: Bits, fs: seq<Field>): (r: Bits)
    requires forall i :: 0 <= i < |fs| ==> fs[i].Fits(|bits|)
    ensures |r| == |bits|
  {
    if fs == [] then bits else Written(WriteAll(bits, fs[..|fs| - 1]), fs[|fs| - 1])
  }

  function ReadField(bits: Bits, f: Field): Bits
    requires f.Fits(|bits|)
  {
    bits[f.firstbit - 1..f.lastbit]
  }

  lemma LayoutPrefix(n: nat, fs: seq<Field>)
    requires Layout(n, fs) && fs != []
    ensures Layout(n, fs[..|fs| - 1])
  {
  }

  lemma ReadWritten(bits: Bits, f: Field, g: Field)
    requires f.Fits(|bits|) && g.Fits(|bits|)
    ensures ReadField(Written(bits, f), f) == LowBits(f.value, f.Width())
    ensures Disjoint(f, g) ==> ReadField(Written(bits, g), f) == ReadField(bits, f)
  {
  }

  // Whatever is written afterwards into other bits, a field reads back the low bits of its value.
  lemma {:induction false} ReadsBack(bits: Bits, fs: seq<Field>, i: nat)
    requires Layout(|bits|, fs) && i < |fs|
    ensures ReadField(WriteAll(bits, fs), fs[i]) == LowBits(fs[i].value, fs[i].Width())
  {
    var front, last := fs[..|fs| - 1], fs[|fs| - 1];
    LayoutPrefix(|bits|, fs);
    var before := WriteAll(bits, front);
    ReadWritten(before, fs[i], last);
    if i < |front| {
      ReadsBack(bits, front, i);
      assert front[i] == fs[i] && Disjoint(fs[i], last);
    }
  }

  predicate Covers(f: Field, k: nat) {
    f.firstbit <= k + 1 <= f.lastbit
  }

  lemma {:induction false} Untouched(bits: Bits, fs: seq<Field>, k: nat)
    requires Layout(|bits|, fs) && k < |bits|
    requires forall f :: f in fs ==> !Covers(f, k)
    ensures WriteAll(bits, fs)[k] == bits[k]
  {
    if fs != [] {
      var front, last := fs[..|fs| - 1], fs[|fs| - 1];
      LayoutPrefix(|bits|, fs);
      Untouched(bits, front, k);
      assert !Covers(last, k);
      assert Written(WriteAll(bits, front), last)[k] == WriteAll(bits, front)[k];
    }
  }

  lemma FieldBit(bits: Bits, fs: seq<Field>, f: Field, k: nat)
    requires Layout(|bits|, fs) && f in fs && k < |bits| && Covers(f, k) && f.Fits(|bits|)
    ensures WriteAll(bits, fs)[k] == LowBits(f.value, f.Width())[k + 1 - f.firstbit]
  {
    hide WriteAll, LowBits;
    var i: nat :| i < |fs| && fs[i] == f;
    ReadsBack(bits, fs, i);
    ReadAt(WriteAll(bits, fs), f, k);
  }

  lemma ReadAt(r: Bits, f: Field, k: nat)
    requires f.Fits(|r|) && k < |r| && Covers(f, k)
    ensures ReadField(r, f)[k + 1 - f.firstbit] == r[k]
  {
  }

  // The order of the writes does not matter.
  lemma WriteOrder(bits: Bits, fs: seq<Field>, gs: seq<Field>)
    requires Layout(|bits|, fs) && Layout(|bits|, gs) && multiset(fs) == multiset(gs)
    ensures WriteAll(bits, fs) == WriteAll(bits, gs)
  {
    var a, b := WriteAll(bits, fs), WriteAll(bits, gs);
    forall k: nat | k < |bits| ensures a[k] == b[k] {
      if f :| f in fs && Covers(f, k) {
        assert f in multiset(fs) && f in multiset(gs);
        FieldBit(bits, fs, f, k);
        FieldBit(bits, gs, f, k);
      } else {
        forall g | g in gs ensures !Covers(g, k) {
          assert g in multiset(fs);
        }
        Untouched(bits, fs, k);
        Untouched(bits, gs, k);
      }
    }
  }
}
