// main/gen_gdl90.go: the CRC of the GDL 90 Data Interface Specification (560-1058-00 Rev A,
// section 2.2) and the byte-stuffed frames built around it.
module Gdl90 {
  import opened Gf2
  import opened Integers
  import opened Words

  const FLAG: uint8 := 0x7E
  const ESCAPE: uint8 := 0x7D

  // x^16 + x^12 + x^5 + 1, without its leading term.
  function Generator(): (g: Bits)
    ensures |g| == 16
  {
    Zeros(3) + [true] + Zeros(6) + [true] + Zeros(4) + [true]
  }

  function Poly(): uint16 {
    Powers();
    Value(Generator())
  }

  // The constant in the source.
  lemma PolyConstant()
    ensures Poly() == 0x1021
  {
    var a := [] + [false, false, false, true];
    var b := a + [false, false, false, false];
    var c := b + [false, false, true, false];
    ValueNibble([], false, false, false, true);
    ValueNibble(a, false, false, false, false);
    ValueNibble(b, false, false, true, false);
    ValueNibble(c, false, false, false, true);
    assert Generator() == c + [false, false, false, true];
  }

  // The checksum as the specification defines it: the remainder of the message polynomial.
  function Crc(data: seq<uint8>): uint16 {
    Powers();
    Value(Rem(Generator(), MessageBits(data)))
  }

  lemma CrcBits(data: seq<uint8>)
    ensures LowBits(Crc(data), 16) == Rem(Generator(), MessageBits(data))
  {
    BitsOfValue(Rem(Generator(), MessageBits(data)));
  }

  // The remainder of one byte value shifted through the empty register.
  function Entry(top: uint8): Bits {
    TableEntry(Generator(), LowBits(top, 8))
  }

  function EntryWord(i: uint8): uint16 {
    Powers();
    Value(Entry(i))
  }

  // crc << 1 in a uint16
  function Shift1(crc: uint16): uint16 {
    (2 * crc) % 0x1_0000
  }

  // One round of the inner loop of crcInit is one clock of the division register.
  lemma InnerRound(crc: uint16)
    ensures LowBits(XorWord(Shift1(crc), if crc >= 0x8000 then Poly() else 0), 16)
            == Step(Generator(), LowBits(crc, 16), false)
  {
    ShiftedBits(crc);
    if crc >= 0x8000 {
      BitsOfValue(Generator());
      BitsOfXor(Shift1(crc), Poly(), 16);
    } else {
      XorZero(Shift1(crc));
    }
  }

  lemma ShiftedBits(crc: uint16)
    ensures LowBits(crc, 16)[0] == (crc >= 0x8000)
    ensures LowBits(Shift1(crc), 16) == LowBits(crc, 16)[1..] + [false]
  {
    Powers();
    assert Pow2(15) == 0x8000;
    TopBit(crc, 16);
    DoubledBits(crc, 16);
  }

  // What one byte does to the register of crcCompute, whatever table holds the right entry.
  lemma ByteRound(entry: uint16, ret: uint16, b: uint8)
    requires entry == EntryWord(ret / 256)
    ensures LowBits(XorWord(XorWord(entry, (ret * 256) % 0x1_0000), b), 16)
            == Feed(Generator(), LowBits(ret, 16), LowBits(b, 8))
  {
    var shifted := (ret * 256) % 0x1_0000;
    var r, t, m := LowBits(ret, 16), Entry(ret / 256), LowBits(b, 8);
    assert LowBits(XorWord(entry, shifted), 16) == Xor(t, r[8..] + Zeros(8)) by {
      BitsOfXor(entry, shifted, 16);
      BitsOfValue(t);
      RegisterParts(ret);
    }
    assert LowBits(XorWord(XorWord(entry, shifted), b), 16) == Xor(t, r[8..] + m) by {
      BitsOfXor(XorWord(entry, shifted), b, 16);
      ByteAsWord(b);
      XorTail(t, r[8..], m);
    }
    assert Feed(Generator(), r, m) == Xor(t, r[8..] + m) by {
      RegisterParts(ret);
      FeedByTable(Generator(), r, m);
    }
  }

  lemma RegisterParts(ret: uint16)
    ensures LowBits(ret, 16)[..8] == LowBits(ret / 256, 8)
    ensures LowBits((ret * 256) % 0x1_0000, 16) == LowBits(ret, 16)[8..] + Zeros(8)
  {
    Powers();
    BitsOfMod(ret * 256, 16);
    BitsOfShift(ret, 8, 8);
    BitsByByte(ret, 8);
    BitsOfMod(ret, 8);
  }

  class CrcTable {
    const crc16Table: array<uint16>

    ghost predicate Valid()
      reads this, crc16Table
    {
      crc16Table.Length == 256 && forall i: uint8 :: crc16Table[i] == EntryWord(i)
    }

    // crcInit
    constructor ()
      ensures Valid() && fresh(crc16Table)
    {
      crc16Table := new uint16[256];
      new;
      hide EntryWord;
      var i: int := 0;
      while i < 256
        invariant 0 <= i <= 256
        invariant forall j: uint8 :: j < i ==> crc16Table[j] == EntryWord(j)
      {
        var crc := TableByte(i);
        crc16Table[i] := crc;
        i := i + 1;
      }
    }

    // The inner loop of crcInit.
    static method TableByte(i: uint8) returns (crc: uint16)
      ensures crc == EntryWord(i)
    {
      crc := i * 256;
      ghost var start := LowBits(crc, 16);
      assert start == LowBits(i, 8) + Zeros(8) by {
        Powers();
        BitsOfShift(i, 8, 8);
      }
      var bitctr := 0;
      while bitctr < 8
        invariant 0 <= bitctr <= 8
        invariant LowBits(crc, 16) == Feed(Generator(), start, Zeros(bitctr))
      {
        assert Zeros(bitctr + 1)[..bitctr] == Zeros(bitctr);
        InnerRound(crc);
        var z: uint16 := 0;
        if crc >= 0x8000 {
          z := Poly();
        }
        Powers();
        XorBounded(Shift1(crc), z, 16);
        crc := XorWord(Shift1(crc), z);
        bitctr := bitctr + 1;
      }
      Powers();
      ValueOfBits(crc, 16);
    }

    // crcCompute
    method CrcCompute(data: seq<uint8>) returns (ret: uint16)
      requires Valid()
      ensures ret == Crc(data)
    {
      hide LowBits, XorWord, EntryWord, Crc, Rem, MessageBits;
      ret := 0;
      var i := 0;
      NothingRead();
      assert data[..0] == [];
      Powers();
      while i < |data|
        invariant 0 <= i <= |data|
        invariant LowBits(ret, 16) == Rem(Generator(), MessageBits(data[..i]))
      {
        var entry, shifted := crc16Table[ret / 256], (ret * 256) % 0x1_0000;
        OneMoreByte(data, i, ret, entry);
        XorBounded(entry, shifted, 16);
        XorBounded(XorWord(entry, shifted), data[i], 16);
        ret := XorWord(XorWord(entry, shifted), data[i]);
        i := i + 1;
      }
      assert data[..i] == data;
      CrcBits(data);
      SameBitsSameWord(ret, Crc(data), 16);
    }

    method PrepareMessage(message: seq<uint8>) returns (tmp: seq<uint8>)
      requires Valid()
      ensures tmp == Frame(message)
    {
      var data: seq<uint8> := message;
      var crc := CrcCompute(data);
      var low: uint8, high: uint8 := crc % 256, crc / 256;
      data := data + [low];
      data := data + [high];
      assert data == Payload(message);
      tmp := CopyEscaped(data);
    }

    // The copying loop of prepareMessage, between the two flags.
    static method CopyEscaped(data: seq<uint8>) returns (tmp: seq<uint8>)
      ensures tmp == [FLAG] + Stuffed(data) + [FLAG]
    {
      hide XorWord;
      tmp := [0x7E];
      var i := 0;
      while i < |data|
        invariant 0 <= i <= |data|
        invariant tmp == [FLAG] + Stuffed(data[..i])
      {
        StuffNext(data, i);
        ghost var before := Stuffed(data[..i]);
        var mv: uint8 := data[i];
        if mv == 0x7E || mv == 0x7D {
          mv := Escape(mv);
          tmp := tmp + [0x7D];
        }
        tmp := tmp + [mv];
        assert tmp == [FLAG] + (before + StuffedByte(data[i]));
        i := i + 1;
      }
      assert data[..i] == data;
      tmp := tmp + [0x7E];
    }
  }

  lemma NothingRead()
    ensures LowBits(0, 16) == Rem(Generator(), MessageBits([]))
  {
    BitsOfZero(16);
  }

  lemma OneMoreByte(data: seq<uint8>, i: nat, ret: uint16, entry: uint16)
    requires i < |data| && LowBits(ret, 16) == Rem(Generator(), MessageBits(data[..i])) && entry == EntryWord(ret / 256)
    ensures LowBits(XorWord(XorWord(entry, (ret * 256) % 0x1_0000), data[i]), 16)
            == Rem(Generator(), MessageBits(data[..i + 1]))
  {
    hide LowBits, XorWord, EntryWord;
    ByteRound(entry, ret, data[i]);
    assert data[..i + 1][..i] == data[..i];
    FeedConcat(Generator(), Zeros(16), MessageBits(data[..i]), LowBits(data[i], 8));
  }

  // mv ^ 0x20, for the two byte values that are escaped
  function Escape(mv: uint8): (e: uint8)
    requires mv == FLAG || mv == ESCAPE
    ensures e == if mv == FLAG then 0x5E else 0x5D
  {
    XorSpaceBit();
    XorWord(mv, 0x20)
  }

  // What a frame carries: the message and its checksum, low byte first.
  function Payload(message: seq<uint8>): (p: seq<uint8>)
    ensures |p| == |message| + 2
  {
    message + [Crc(message) % 256, Crc(message) / 256]
  }

  function StuffedByte(b: uint8): seq<uint8> {
    if b == FLAG || b == ESCAPE then [ESCAPE, Escape(b)] else [b]
  }

  function Stuffed(data: seq<uint8>): seq<uint8> {
    if data == [] then [] else Stuffed(data[..|data| - 1]) + StuffedByte(data[|data| - 1])
  }

  function Frame(message: seq<uint8>): seq<uint8> {
    [FLAG] + Stuffed(Payload(message)) + [FLAG]
  }

  lemma StuffNext(data: seq<uint8>, i: nat)
    requires i < |data|
    ensures Stuffed(data[..i + 1]) == Stuffed(data[..i]) + StuffedByte(data[i])
  {
    assert data[..i + 1][..i] == data[..i];
  }

  // ---- The receiving side, from section 2.2 of the same specification ----

  // Hunting for a flag, or inside a frame with the bytes received so far.
  datatype Deframer = Hunting | Receiving(body: seq<uint8>, escaped: bool)

  // A deframer and the payloads it has delivered.
  datatype Receiver = Receiver(state: Deframer, delivered: seq<seq<uint8>>)

  function Unescape(b: uint8): uint8 {
    XorByte(b, 0x20);
    XorWord(b, 0x20)
  }

  // Between flags, an escape changes the byte after it.
  function Inside(d: Deframer, b: uint8): Deframer {
    match d
    case Hunting => Hunting
    case Receiving(body, escaped) =>
      if escaped then Receiving(body + [Unescape(b)], false)
      else if b == ESCAPE then Receiving(body, true)
      else Receiving(body + [b], false)
  }

  // A flag ends the frame before it, when that has any bytes, and starts the next.
  function ReceiveByte(r: Receiver, b: uint8): Receiver {
    if b != FLAG then r.(state := Inside(r.state, b))
    else if r.state.Receiving? && !r.state.escaped && r.state.body != [] then
      Receiver(Receiving([], false), r.delivered + [r.state.body])
    else r.(state := Receiving([], false))
  }

  function Receive(r: Receiver, stream: seq<uint8>): Receiver {
    if stream == [] then r else ReceiveByte(Receive(r, stream[..|stream| - 1]), stream[|stream| - 1])
  }

  lemma {:induction false} ReceiveConcat(r: Receiver, a: seq<uint8>, b: seq<uint8>)
    ensures Receive(r, a + b) == Receive(Receive(r, a), b)
  {
    if b == [] {
      assert a + b == a;
    } else {
      var k, ab := |b| - 1, a + b;
      assert ab[..|ab| - 1] == a + b[..k] && ab[|ab| - 1] == b[k];
      ReceiveConcat(r, a, b[..k]);
    }
  }

  lemma ReceiveOne(r: Receiver, b: uint8)
    ensures Receive(r, [b]) == ReceiveByte(r, b)
  {
    assert [b][..0] == [];
  }

  lemma EscapeInverse(b: uint8)
    requires b == FLAG || b == ESCAPE
    ensures Unescape(Escape(b)) == b
  {
    XorTwice(b, 0x20);
  }

  lemma ReceiveStuffedByte(r: Receiver, b: uint8)
    requires r.state.Receiving? && !r.state.escaped
    ensures Receive(r, StuffedByte(b)) == r.(state := Receiving(r.state.body + [b], false))
  {
    if b == FLAG || b == ESCAPE {
      assert StuffedByte(b) == [ESCAPE] + [Escape(b)];
      ReceiveConcat(r, [ESCAPE], [Escape(b)]);
      ReceiveOne(r, ESCAPE);
      ReceiveOne(r.(state := Receiving(r.state.body, true)), Escape(b));
      EscapeInverse(b);
    } else {
      ReceiveOne(r, b);
    }
  }

  lemma {:induction false} ReceiveStuffed(data: seq<uint8>, delivered: seq<seq<uint8>>)
    ensures Receive(Receiver(Receiving([], false), delivered), Stuffed(data))
            == Receiver(Receiving(data, false), delivered)
  {
    if data != [] {
      var r, front, b := Receiver(Receiving([], false), delivered), data[..|data| - 1], data[|data| - 1];
      var line, last := Stuffed(front), StuffedByte(b);
      assert Receive(r, line + last) == Receiver(Receiving(front + [b], false), delivered) by {
        ReceiveStuffed(front, delivered);
        ReceiveConcat(r, line, last);
        ReceiveStuffedByte(Receiver(Receiving(front, false), delivered), b);
      }
      assert front + [b] == data;
    }
  }

  // Between its two flags a frame holds no flag byte.
  lemma {:induction false} StuffedHasNoFlag(data: seq<uint8>)
    ensures 0x7E !in Stuffed(data)
  {
    if data != [] {
      StuffedHasNoFlag(data[..|data| - 1]);
    }
  }

  // At a point where no frame is half received.
  predicate BetweenFrames(d: Deframer) {
    d == Hunting || d == Receiving([], false)
  }

  lemma ReceiveFrame(r: Receiver, message: seq<uint8>)
    requires BetweenFrames(r.state)
    ensures Receive(r, Frame(message)) == Receiver(Receiving([], false), r.delivered + [Payload(message)])
  {
    var body, start := Stuffed(Payload(message)), Receiver(Receiving([], false), r.delivered);
    ReceiveConcat(r, [FLAG] + body, [FLAG]);
    ReceiveConcat(r, [FLAG], body);
    ReceiveOne(r, FLAG);
    ReceiveStuffed(Payload(message), r.delivered);
    ReceiveOne(Receiver(Receiving(Payload(message), false), r.delivered), FLAG);
  }

  function Frames(messages: seq<seq<uint8>>): seq<uint8> {
    if messages == [] then [] else Frames(messages[..|messages| - 1]) + Frame(messages[|messages| - 1])
  }

  function Payloads(messages: seq<seq<uint8>>): seq<seq<uint8>> {
    if messages == [] then [] else Payloads(messages[..|messages| - 1]) + [Payload(messages[|messages| - 1])]
  }

  // A receiver that is not in the middle of a frame reads back exactly the messages put on the
  // line, in order, and is then ready for the next.
  lemma {:induction false} ReceiveFrames(r: Receiver, messages: seq<seq<uint8>>)
    requires BetweenFrames(r.state)
    ensures var after := Receive(r, Frames(messages));
            BetweenFrames(after.state) && after.delivered == r.delivered + Payloads(messages)
  {
    if messages != [] {
      var k := |messages| - 1;
      ReceiveFrames(r, messages[..k]);
      ReceiveConcat(r, Frames(messages[..k]), Frame(messages[k]));
      ReceiveFrame(Receive(r, Frames(messages[..k])), messages[k]);
    }
  }

  // ---- What the checksum detects ----

  // Division of the message polynomial by the generator leaves the checksum, and no other
  // sixteen coefficients.
  lemma CrcIsTheRemainder(data: seq<uint8>, r: Bits)
    ensures (exists q :: Divides(Generator(), MessageBits(data), q, r)) <==> r == LowBits(Crc(data), 16)
  {
    var g, m := Generator(), MessageBits(data);
    CrcBits(data);
    RemIsRemainder(g, m);
    if q :| Divides(g, m, q, r) {
      RemainderUnique(g, m, q, r);
    }
  }

  lemma CrcLinear(a: seq<uint8>, b: seq<uint8>)
    requires |a| == |b|
    ensures Crc(XorBytes(a, b)) == XorWord(Crc(a), Crc(b))
  {
    MessageBitsXor(a, b);
    RemLinear(Generator(), MessageBits(a), MessageBits(b));
    CrcBits(a);
    CrcBits(b);
    CrcBits(XorBytes(a, b));
    BitsOfXor(Crc(a), Crc(b), 16);
    Powers();
    XorBounded(Crc(a), Crc(b), 16);
    SameBitsSameWord(Crc(XorBytes(a, b)), XorWord(Crc(a), Crc(b)), 16);
  }

  // Any corruption confined to two adjacent bytes changes the checksum.
  lemma CrcDetectsTwoBytes(a: seq<uint8>, b: seq<uint8>, i: nat, j: nat)
    requires |a| == |b| && i <= j <= |a| && j - i <= 2
    requires a[..i] == b[..i] && a[j..] == b[j..]
    ensures Crc(a) == Crc(b) <==> a == b
  {
    if Crc(a) == Crc(b) {
      CrcBits(a);
      CrcBits(b);
      var x, y := MessageBits(a), MessageBits(b);
      MessageCut(a, i);
      MessageCut(b, i);
      MessageCut(a, j);
      MessageCut(b, j);
      GeneratorOdd();
      BurstDetected(Generator(), x, y, 8 * i, 8 * j);
      MessageBitsInjective(a, b);
    }
  }

  lemma GeneratorOdd()
    ensures Generator()[15]
  {
  }

  // The checksum test of a receiver, on the bytes of one deframed payload.
  predicate Accepts(p: seq<uint8>) {
    |p| >= 2 && HasCrc(p[..|p| - 2], p[|p| - 2], p[|p| - 1])
  }

  predicate HasCrc(message: seq<uint8>, low: uint8, high: uint8) {
    low == Crc(message) % 256 && high == Crc(message) / 256
  }

  // The last byte enters the checksum unprocessed.
  lemma CrcLastByte(front: seq<uint8>, x: uint8)
    ensures Crc(front + [x]) == XorWord(Crc(front + [0]), x)
  {
    var c, r := Crc(front + [0]), LowBits(Crc(front), 16);
    LastByteBits(front, x);
    LastByteBits(front, 0);
    BitsOfZero(8);
    var t := TableEntry(Generator(), r[..8]);
    FeedByTable(Generator(), r, LowBits(x, 8));
    FeedByTable(Generator(), r, LowBits(0, 8));
    XorTail(t, r[8..], LowBits(x, 8));
    BitsOfXor(c, x, 16);
    ByteAsWord(x);
    Powers();
    XorBounded(c, x, 16);
    SameBitsSameWord(Crc(front + [x]), XorWord(c, x), 16);
  }

  lemma ByteAsWord(x: uint8)
    ensures LowBits(x, 16) == Zeros(8) + LowBits(x, 8)
  {
    BitsByByte(x, 8);
    BitsOfZero(8);
  }

  lemma LastByteBits(front: seq<uint8>, x: uint8)
    ensures LowBits(Crc(front + [x]), 16) == Feed(Generator(), LowBits(Crc(front), 16), LowBits(x, 8))
  {
    CrcBits(front);
    CrcBits(front + [x]);
    assert (front + [x])[..|front|] == front;
    FeedConcat(Generator(), Zeros(16), MessageBits(front), LowBits(x, 8));
  }

  lemma LastByteMissed(front: seq<uint8>, x: uint8, x': uint8, y': uint8)
    ensures HasCrc(front + [x'], y', Crc(front + [x]) / 256)
            <==> XorWord(x, x') == XorWord(Crc(front + [x]) % 256, y')
  {
    var c := Crc(front + [0]);
    CrcLastByte(front, x);
    CrcLastByte(front, x');
    XorLowByte(c, x);
    XorLowByte(c, x');
    XorDifference(c % 256, x, x', y');
  }

  // Two payloads that differ only inside the message.
  lemma AcceptsMessage(message: seq<uint8>, p: seq<uint8>, i: nat)
    requires |p| == |message| + 2 && i + 2 <= |message|
    requires p[..i] == Payload(message)[..i] && p[i + 2..] == Payload(message)[i + 2..]
    ensures Accepts(p) <==> p == Payload(message)
  {
    var n, sent := |message|, Payload(message);
    var m := p[..n];
    assert m[..i] == p[..i] && message[..i] == sent[..i];
    assert m[i + 2..] == p[i + 2..][..n - i - 2] && message[i + 2..] == sent[i + 2..][..n - i - 2];
    CrcDetectsTwoBytes(m, message, i, i + 2);
    assert p[n..] == p[i + 2..][n - i - 2..] && sent[n..] == sent[i + 2..][n - i - 2..];
    assert p == m + p[n..] && sent == message + sent[n..];
    assert p[n] == p[n..][0] && p[n + 1] == p[n..][1];
    assert sent[n] == sent[n..][0] && sent[n + 1] == sent[n..][1];
  }

  // Two payloads that differ only in the last message byte and the first checksum byte.
  lemma AcceptsBoundary(front: seq<uint8>, x: uint8, x': uint8, y': uint8)
    ensures Accepts(front + [x', y', Crc(front + [x]) / 256])
            <==> XorWord(x, x') == XorWord(Crc(front + [x]) % 256, y')
  {
    var p := front + [x', y', Crc(front + [x]) / 256];
    assert p[..|p| - 2] == front + [x'];
    LastByteMissed(front, x, x', y');
  }

  // Which corruptions of two adjacent bytes a receiver misses: exactly those that flip the same
  // bits of the last message byte and of the first checksum byte, which follows it on the line.
  lemma AcceptsExactly(message: seq<uint8>, p: seq<uint8>, i: nat)
    requires |p| == |message| + 2 && i <= |message|
    requires p[..i] == Payload(message)[..i] && p[i + 2..] == Payload(message)[i + 2..]
    ensures Accepts(p) <==>
            p == Payload(message)
            || (i == |message| - 1 && XorWord(Payload(message)[i], p[i]) == XorWord(Payload(message)[i + 1], p[i + 1]))
  {
    var n := |message|;
    if i + 2 <= n {
      AcceptsMessage(message, p, i);
    } else if i == n - 1 {
      var front, x := message[..i], message[i];
      assert message == front + [x];
      assert p[..i] == front;
      assert p[i + 2] == p[i + 2..][0];
      assert p == front + [p[i], p[i + 1], p[i + 2]];
      AcceptsBoundary(front, x, p[i], p[i + 1]);
      XorSelf(x);
      XorSelf(p[i + 1]);
    } else {
      AcceptsChecksum(message, p);
    }
  }

  lemma AcceptsChecksum(message: seq<uint8>, p: seq<uint8>)
    requires |p| == |message| + 2 && p[..|message|] == message
    ensures Accepts(p) <==> p == Payload(message)
  {
    var n, sent := |message|, Payload(message);
    if p[n] == sent[n] && p[n + 1] == sent[n + 1] {
      assert p == message + [p[n], p[n + 1]] == sent;
    }
  }

  // The payload of the message 00 is 00 00 00; received as 01 01 00 it is taken for the message 01.
  lemma AcceptsAnother()
    ensures Payload([0]) == [0, 0, 0] && Accepts([1, 1, 0])
  {
    hide MessageBits, Rem, LowBits, Crc;
    CrcOfZero();
    assert Payload([0]) == [0, 0, 0];
    assert [1, 1, 0][..0] == Payload([0])[..0] && [1, 1, 0][2..] == Payload([0])[2..];
    AcceptsExactly([0], [1, 1, 0], 0);
  }

  lemma CrcOfZero()
    ensures Crc([0]) == 0
  {
    hide LowBits, Rem, Crc, Value, Feed;
    var front: seq<uint8> := [];
    LastByteBits(front, 0);
    CrcBits(front);
    NoMessage();
    BitsOfZero(8);
    BitsOfZero(16);
    FeedZeroRegister(Generator(), 8);
    assert front + [0] == [0];
    Powers();
    SameBitsSameWord(Crc([0]), 0, 16);
  }

  lemma NoMessage()
    ensures Rem(Generator(), MessageBits([])) == Zeros(16)
  {
  }
}
