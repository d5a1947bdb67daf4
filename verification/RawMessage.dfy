// dump978/dump978.c, dump_raw_message: the text form of a demodulated frame, and how it reads back.
module RawMessages {
  import opened Integers
  import opened Options
  import opened Reader

  // The frame as it was demodulated, its corrected errors and its signal strength
  datatype Message = Message(updown: char, data: seq<uint8>, rsErrors: int32, signalStrength: int32)

  // ---- The text ----

  function DigitOf(v: nat): char
    requires v < 16
  {
    if v < 10 then ('0' as int + v) as char else ('a' as int + v - 10) as char
  }

  // %02x
  function Hex(b: uint8): string {
    [DigitOf(b / 16), DigitOf(b % 16)]
  }

  function HexText(data: seq<uint8>): string {
    if data == [] then "" else HexText(data[..|data| - 1]) + Hex(data[|data| - 1])
  }

  function Digits(n: nat): string {
    if n < 10 then [DigitOf(n)] else Digits(n / 10) + [DigitOf(n % 10)]
  }

  // %d
  function Decimal(n: int): string {
    if n < 0 then "-" + Digits(-n) else Digits(n)
  }

  // The line without its newline
  function RawLine(m: Message): string {
    [m.updown] + HexText(m.data) + Trailer(m.rsErrors, m.signalStrength)
  }

  function Trailer(rsErrors: int32, signalStrength: int32): string {
    (if rsErrors != 0 then ";rs=" + Decimal(rsErrors) else "") + (";ss=" + Decimal(signalStrength) + ";")
  }

  function RawText(m: Message): string {
    RawLine(m) + ['\n']
  }

  method DumpRawMessage(m: Message) returns (out: string)
    ensures out == RawText(m)
  {
    hide Hex, Decimal;
    out := [m.updown];
    for i := 0 to |m.data|
      invariant out == [m.updown] + HexText(m.data[..i])
    {
      assert m.data[..i + 1][..i] == m.data[..i];
      out := out + Hex(m.data[i]);
    }
    assert m.data[..|m.data|] == m.data;
    if m.rsErrors != 0 {
      out := out + (";rs=" + Decimal(m.rsErrors));
    }
    out := out + (";ss=" + Decimal(m.signalStrength));
    out := out + ";" + ['\n'];
  }

  // ---- What the reader makes of it ----

  lemma HexReadsBack(b: uint8)
    ensures HexByte(DigitOf(b / 16), DigitOf(b % 16)) == b
    ensures DigitOf(b / 16) != ';' && DigitOf(b / 16) != '\n' && DigitOf(b % 16) != '\n'
  {
  }

  lemma {:induction false} HexTextFirst(data: seq<uint8>)
    requires data != []
    ensures HexText(data) == Hex(data[0]) + HexText(data[1..])
  {
    if |data| > 1 {
      var front := data[..|data| - 1];
      HexTextFirst(front);
      assert front[1..] == data[1..][..|data| - 2];
    }
  }

  lemma HexTextStarts(data: seq<uint8>, rest: string)
    requires data != []
    ensures var s := HexText(data) + rest;
            && |s| > 1 && s[0] == DigitOf(data[0] / 16) && s[1] == DigitOf(data[0] % 16)
            && s[2..] == HexText(data[1..]) + rest
  {
    hide HexText, DigitOf;
    HexTextFirst(data);
  }

  lemma {:induction false} ParseHexText(done: seq<uint8>, data: seq<uint8>, rest: string)
    requires |done| + |data| <= UPLINK_FRAME_DATA_BYTES && rest != "" && rest[0] == ';'
    ensures ParseHex(HexText(data) + rest, done) == Some(done + data)
    decreases |data|
  {
    hide HexByte, DigitOf;
    if data == [] {
      assert HexText(data) + rest == rest && done + data == done;
    } else {
      HexReadsBack(data[0]);
      HexTextStarts(data, rest);
      ParseHexText(done + [data[0]], data[1..], rest);
      assert done + [data[0]] + data[1..] == done + data;
    }
  }

  lemma {:induction false} HexTextShape(data: seq<uint8>)
    ensures |HexText(data)| == 2 * |data| && '\n' !in HexText(data)
  {
    if data != [] {
      HexTextShape(data[..|data| - 1]);
      HexReadsBack(data[|data| - 1]);
    }
  }

  function PowerOfTen(k: nat): nat {
    if k == 0 then 1 else 10 * PowerOfTen(k - 1)
  }

  lemma {:induction false} DigitsShape(n: nat, k: nat)
    requires k > 0 && n < PowerOfTen(k)
    ensures 0 < |Digits(n)| <= k && '\n' !in Digits(n)
    decreases k
  {
    if n >= 10 {
      assert k > 1;
      DigitsShape(n / 10, k - 1);
    }
  }

  lemma DecimalShape(n: int32)
    ensures |Decimal(n)| <= 11 && '\n' !in Decimal(n)
  {
    assert PowerOfTen(10) == 10000000000;
    var v: int := n;
    DigitsShape(if v < 0 then -v else v, 10);
  }

  lemma TrailerShape(rs: int32, ss: int32)
    ensures var t := Trailer(rs, ss); 0 < |t| <= 31 && t[0] == ';' && '\n' !in t
  {
    DecimalShape(rs);
    DecimalShape(ss);
  }

  // The number a text of decimal digits stands for
  function NumberOf(s: string): nat
    requires forall i :: 0 <= i < |s| ==> '0' <= s[i] <= '9'
  {
    if s == "" then 0 else 10 * NumberOf(s[..|s| - 1]) + (s[|s| - 1] as int - '0' as int)
  }

  lemma {:induction false} DigitsReadBack(n: nat)
    ensures forall i :: 0 <= i < |Digits(n)| ==> '0' <= Digits(n)[i] <= '9'
    ensures NumberOf(Digits(n)) == n && Digits(n) != "" && (n > 0 ==> Digits(n)[0] != '0')
  {
    if n < 10 {
      assert NumberOf(Digits(n)[..0]) == 0;
    } else {
      DigitsReadBack(n / 10);
      assert Digits(n)[..|Digits(n)| - 1] == Digits(n / 10);
    }
  }

  // The text is a number of decimal digits without leading zeros, behind a sign when it is negative.
  ghost predicate Denotes(s: string, v: int) {
    var digits := if v < 0 && s != "" then s[1..] else s;
    && (v < 0 ==> s != "" && s[0] == '-')
    && digits != "" && (forall i :: 0 <= i < |digits| ==> '0' <= digits[i] <= '9')
    && NumberOf(digits) == (if v < 0 then -v else v) && (v != 0 ==> digits[0] != '0')
  }

  // Behind the bytes of a frame come its corrected errors, unless there are none, and its strength.
  lemma TrailerReadsBack(rs: int32, ss: int32) returns (errors: string, strength: string)
    ensures Denotes(errors, rs) && Denotes(strength, ss)
    ensures Trailer(rs, ss) == (if rs == 0 then "" else ";rs=" + errors) + (";ss=" + strength + ";")
  {
    errors, strength := Decimal(rs), Decimal(ss);
    DenotesDecimal(rs);
    DenotesDecimal(ss);
  }

  lemma DenotesDecimal(v: int32)
    ensures Denotes(Decimal(v), v)
  {
    var n: int := v;
    DigitsReadBack(if n < 0 then -n else n);
    if n < 0 {
      assert Decimal(v)[1..] == Digits(-n);
    }
  }

  lemma {:induction false} HexTextAt(data: seq<uint8>, i: nat)
    requires i < |data|
    ensures |HexText(data)| == 2 * |data|
    ensures HexText(data)[2 * i] == "0123456789abcdef"[data[i] / 16]
    ensures HexText(data)[2 * i + 1] == "0123456789abcdef"[data[i] % 16]
  {
    HexTextShape(data);
    HexTextShape(data[..|data| - 1]);
    LowerDigit(data[i] / 16);
    LowerDigit(data[i] % 16);
    if i < |data| - 1 {
      HexTextAt(data[..|data| - 1], i);
    }
  }

  lemma LowerDigit(v: nat)
    requires v < 16
    ensures DigitOf(v) == "0123456789abcdef"[v]
  {
  }

  // The whole line: two lower-case hexadecimal digits for every byte, the errors if there are any, and
  // the signal strength.
  lemma RawTextWrittenOut(m: Message) returns (hex: string, errors: string, strength: string)
    ensures |hex| == 2 * |m.data|
    ensures forall i :: 0 <= i < |m.data| ==>
              && hex[2 * i] == "0123456789abcdef"[m.data[i] / 16]
              && hex[2 * i + 1] == "0123456789abcdef"[m.data[i] % 16]
    ensures Denotes(errors, m.rsErrors) && Denotes(strength, m.signalStrength)
    ensures RawText(m)
         == [m.updown] + hex + ((if m.rsErrors == 0 then "" else ";rs=" + errors) + (";ss=" + strength + ";")) + ['\n']
  {
    hide Denotes;
    hex := HexText(m.data);
    HexTextShape(m.data);
    forall i | 0 <= i < |m.data|
      ensures hex[2 * i] == "0123456789abcdef"[m.data[i] / 16]
      ensures hex[2 * i + 1] == "0123456789abcdef"[m.data[i] % 16]
    {
      HexTextAt(m.data, i);
    }
    errors, strength := TrailerReadsBack(m.rsErrors, m.signalStrength);
    hide HexText, Trailer;
  }

  ghost predicate Readable(m: Message) {
    (m.updown == '-' || m.updown == '+') && |m.data| <= UPLINK_FRAME_DATA_BYTES
  }

  function FrameOf(m: Message): Frame {
    Frame(if m.updown == '-' then UatDownlink else UatUplink, m.data)
  }

  lemma RawLineReadsBack(m: Message)
    requires Readable(m)
    ensures Emit(RawLine(m)) == [FrameOf(m)]
    ensures '\n' !in RawLine(m) && |RawLine(m)| < BUFFER_BYTES
  {
    hide Trailer, HexText;
    var t := Trailer(m.rsErrors, m.signalStrength);
    TrailerShape(m.rsErrors, m.signalStrength);
    HexTextShape(m.data);
    ParseHexText([], m.data, t);
    assert RawLine(m)[1..] == HexText(m.data) + t;
    var none: seq<uint8> := [];
    assert none + m.data == m.data;
  }

  function RawStream(ms: seq<Message>): string {
    if ms == [] then "" else RawText(ms[0]) + RawStream(ms[1..])
  }

  function FramesOf(ms: seq<Message>): seq<Frame> {
    if ms == [] then [] else [FrameOf(ms[0])] + FramesOf(ms[1..])
  }

  // Any list of printed frames of at most 432 bytes is read back in order, with types and bytes.
  lemma {:induction false} StreamReadsBack(ms: seq<Message>)
    requires forall i :: 0 <= i < |ms| ==> Readable(ms[i])
    ensures Frames("", RawStream(ms)) == FramesOf(ms) && Left("", RawStream(ms)) == ""
  {
    hide RawLine, Emit, FrameOf;
    if ms != [] {
      var line, rest := RawLine(ms[0]), RawStream(ms[1..]);
      StreamReadsBack(ms[1..]);
      RawLineReadsBack(ms[0]);
      FeedLine(line, rest);
      assert RawStream(ms) == line + (['\n'] + rest);
    }
  }

  // However the reads split the printed text.
  method ReadBack(ms: seq<Message>, sizes: seq<nat>) returns (frames: seq<Frame>)
    requires forall i :: 0 <= i < |ms| ==> Readable(ms[i])
    ensures frames == FramesOf(ms)
  {
    hide RawText, RawLine, FramesOf;
    var text := "";
    for i := 0 to |ms|
      invariant text + RawStream(ms[i..]) == RawStream(ms)
    {
      var line := DumpRawMessage(ms[i]);
      assert ms[i..][1..] == ms[i + 1..];
      text := text + line;
    }
    StreamReadsBack(ms);
    assert text == RawStream(ms);
    var reader := new FrameReader();
    var count: int;
    frames, count := reader.ReadFrames(text, sizes, Eof);
  }
}
