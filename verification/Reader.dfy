// dump978/reader.c: the reader of the text form of UAT frames.
module Reader {
  import opened Integers
  import opened Options

  const BUFFER_BYTES := 4096
  const UPLINK_FRAME_DATA_BYTES := 432

  datatype FrameType = UatUplink | UatDownlink

  datatype Frame = Frame(kind: FrameType, data: seq<uint8>)

  // ---- One line ----

  // -1 for a character that is no hexadecimal digit
  function HexDigit(c: char): (v: int)
    ensures -1 <= v < 16
  {
    if '0' <= c <= '9' then c as int - '0' as int
    else if 'a' <= c <= 'f' then c as int - 'a' as int + 10
    else if 'A' <= c <= 'F' then c as int - 'A' as int + 10
    else -1
  }

  function HexByte(c: char, d: char): (v: int)
    ensures -1 <= v < 256
  {
    if HexDigit(c) < 0 || HexDigit(d) < 0 then -1 else 16 * HexDigit(c) + HexDigit(d)
  }

  predicate IsDigit(c: char, v: nat)
    requires v < 16
  {
    c == "0123456789abcdef"[v] || c == "0123456789ABCDEF"[v]
  }

  lemma HexDigitIs(c: char, v: nat)
    requires v < 16
    ensures HexDigit(c) == v <==> IsDigit(c, v)
  {
  }

  lemma NoHexDigit(c: char)
    ensures HexDigit(c) < 0 <==> c !in "0123456789abcdefABCDEF"
  {
    if HexDigit(c) >= 0 {
      HexDigitIs(c, HexDigit(c));
    }
  }

  // Two characters are a byte exactly when they are its hexadecimal digits, in either case, high one
  // first; any other character in either place makes them none.
  lemma HexByteExactly(c: char, d: char, v: uint8)
    ensures HexByte(c, d) == v <==> IsDigit(c, v / 16) && IsDigit(d, v % 16)
    ensures HexByte(c, d) < 0 <==> c !in "0123456789abcdefABCDEF" || d !in "0123456789abcdefABCDEF"
  {
    hide HexDigit, IsDigit;
    HexDigitIs(c, v / 16);
    HexDigitIs(d, v % 16);
    NoHexDigit(c);
    NoHexDigit(d);
  }

  // The bytes of the rest of a line, up to its first semicolon. The newline ends the line, so a
  // lone last character is followed by it.
  function ParseHex(s: string, data: seq<uint8>): Option<seq<uint8>> {
    if s == "" then None
    else if s[0] == ';' then Some(data)
    else if |data| >= UPLINK_FRAME_DATA_BYTES then None
    else
      var b := HexByte(s[0], if |s| > 1 then s[1] else '\n');
      if b < 0 || |s| == 1 then None else ParseHex(s[2..], data + [b])
  }

  // The text is the two hexadecimal digits of every byte, a semicolon, and anything behind it.
  ghost predicate Spells(s: string, bytes: seq<uint8>) {
    && |s| > 2 * |bytes| && s[2 * |bytes|] == ';'
    && forall i :: 0 <= i < |bytes| ==> IsDigit(s[2 * i], bytes[i] / 16) && IsDigit(s[2 * i + 1], bytes[i] % 16)
  }

  // A text is taken exactly when it spells at most 432 bytes, and for those.
  lemma {:induction false} ParseExactly(s: string, data: seq<uint8>, bytes: seq<uint8>)
    requires |data| <= 432
    ensures ParseHex(s, data) == Some(data + bytes) <==> |data| + |bytes| <= 432 && Spells(s, bytes)
    decreases |s|
  {
    hide HexByte, IsDigit;
    SpellsFirst(s, bytes);
    if s != "" && s[0] == ';' {
      assert data + bytes == data <==> bytes == [];
    } else if |s| > 1 && |data| < 432 {
      var b := HexByte(s[0], s[1]);
      if b >= 0 {
        var more := data + [b];
        HexByteExactly(s[0], s[1], b);
        if bytes != [] {
          HexByteExactly(s[0], s[1], bytes[0]);
        }
        if bytes != [] && bytes[0] == b {
          ParseExactly(s[2..], more, bytes[1..]);
          assert more + bytes[1..] == data + bytes;
        } else {
          ParsedOtherwise(s[2..], data, b, bytes);
        }
      } else if bytes != [] {
        HexByteExactly(s[0], s[1], bytes[0]);
      }
    }
  }

  lemma ParsedOtherwise(s: string, data: seq<uint8>, b: uint8, bytes: seq<uint8>)
    requires bytes == [] || bytes[0] != b
    ensures ParseHex(s, data + [b]) != Some(data + bytes)
  {
    ParseExtends(s, data + [b]);
    hide ParseHex;
    assert (data + [b])[|data|] == b;
    if bytes != [] {
      assert (data + bytes)[|data|] == bytes[0];
    }
  }

  lemma SpellsFirst(s: string, bytes: seq<uint8>)
    ensures Spells(s, bytes) <==>
            if bytes == [] then s != "" && s[0] == ';'
            else
              && |s| > 1 && IsDigit(s[0], bytes[0] / 16) && IsDigit(s[1], bytes[0] % 16)
              && Spells(s[2..], bytes[1..])
    ensures Spells(s, bytes) && bytes != [] ==> s[0] != ';'
  {
    if bytes != [] && |s| > 1 {
      if Spells(s, bytes) {
        assert IsDigit(s[2 * 0], bytes[0] / 16);
        SpellsRest(s, bytes);
      }
      if Spells(s[2..], bytes[1..]) && IsDigit(s[0], bytes[0] / 16) && IsDigit(s[1], bytes[0] % 16) {
        SpellsMore(s, bytes);
      }
    }
  }

  lemma SpellsRest(s: string, bytes: seq<uint8>)
    requires bytes != [] && Spells(s, bytes)
    ensures |s| > 2 && Spells(s[2..], bytes[1..])
  {
    hide IsDigit;
    var t, rest := s[2..], bytes[1..];
    forall i | 0 <= i < |rest| ensures IsDigit(t[2 * i], rest[i] / 16) && IsDigit(t[2 * i + 1], rest[i] % 16) {
      assert rest[i] == bytes[i + 1] && t[2 * i] == s[2 * (i + 1)] && t[2 * i + 1] == s[2 * (i + 1) + 1];
    }
  }

  lemma SpellsMore(s: string, bytes: seq<uint8>)
    requires bytes != [] && |s| > 1 && Spells(s[2..], bytes[1..])
    requires IsDigit(s[0], bytes[0] / 16) && IsDigit(s[1], bytes[0] % 16)
    ensures Spells(s, bytes)
  {
    hide IsDigit;
    var t, rest := s[2..], bytes[1..];
    forall i | 0 <= i < |bytes| ensures IsDigit(s[2 * i], bytes[i] / 16) && IsDigit(s[2 * i + 1], bytes[i] % 16) {
      if i > 0 {
        var k := i - 1;
        assert rest[k] == bytes[i] && t[2 * k] == s[2 * i] && t[2 * k + 1] == s[2 * i + 1];
        assert IsDigit(t[2 * k], rest[k] / 16) && IsDigit(t[2 * k + 1], rest[k] % 16);
      }
    }
  }

  // What is read stays in front of what comes.
  lemma {:induction false} ParseExtends(s: string, data: seq<uint8>)
    ensures ParseHex(s, data).Some? ==> data <= ParseHex(s, data).value
    decreases |s|
  {
    if |s| > 1 && HexByte(s[0], s[1]) >= 0 && s[0] != ';' {
      ParseExtends(s[2..], data + [HexByte(s[0], s[1])]);
    }
  }

  // The frame of a line without its newline.
  function LineFrame(line: string): Option<Frame> {
    if line == "" || (line[0] != '-' && line[0] != '+') then None
    else
      match ParseHex(line[1..], [])
      case None => None
      case Some(data) => Some(Frame(if line[0] == '-' then UatDownlink else UatUplink, data))
  }

  // A line is a frame exactly when it begins with '-' (downlink) or '+' (uplink) and goes on with the
  // digits of its bytes, at most 432 of them, and a semicolon; every other line is none.
  lemma LineExactly(line: string, f: Frame)
    ensures LineFrame(line) == Some(f) <==>
            && line != "" && line[0] == (if f.kind == UatDownlink then '-' else '+')
            && |f.data| <= 432 && Spells(line[1..], f.data)
  {
    hide ParseHex, Spells;
    if line != "" {
      var none: seq<uint8> := [];
      ParseExactly(line[1..], none, f.data);
      assert none + f.data == f.data;
    }
  }

  function Emit(line: string): seq<Frame> {
    match LineFrame(line)
    case None => []
    case Some(f) => [f]
  }

  // ---- The reference: one character at a time ----

  // The frames of a stream after the characters pending; a line that fills the buffer is dropped,
  // and what follows it is read as a new line.
  function Frames(pending: string, s: string): seq<Frame>
    decreases |s|
  {
    if s == "" then []
    else if s[0] == '\n' then Emit(pending) + Frames("", s[1..])
    else if |pending| + 1 == BUFFER_BYTES then Frames("", s[1..])
    else Frames(pending + [s[0]], s[1..])
  }

  // The characters then pending
  function Left(pending: string, s: string): string
    decreases |s|
  {
    if s == "" then pending
    else if s[0] == '\n' || |pending| + 1 == BUFFER_BYTES then Left("", s[1..])
    else Left(pending + [s[0]], s[1..])
  }

  // Reading a stream in two parts is reading it whole.
  lemma {:induction false} FeedSplits(pending: string, s: string, t: string)
    ensures Frames(pending, s + t) == Frames(pending, s) + Frames(Left(pending, s), t)
    ensures Left(pending, s + t) == Left(Left(pending, s), t)
    decreases |s|
  {
    hide Emit;
    if s == "" {
      assert s + t == t;
    } else {
      assert (s + t)[0] == s[0] && (s + t)[1..] == s[1..] + t;
      if s[0] == '\n' {
        FeedSplits("", s[1..], t);
      } else if |pending| + 1 == BUFFER_BYTES {
        FeedSplits("", s[1..], t);
      } else {
        FeedSplits(pending + [s[0]], s[1..], t);
      }
    }
  }

  lemma {:induction false} FeedWithoutNewline(pending: string, s: string)
    requires '\n' !in s && |pending| + |s| <= BUFFER_BYTES && |pending| < BUFFER_BYTES
    ensures Frames(pending, s) == []
    ensures Left(pending, s) == if |pending| + |s| == BUFFER_BYTES then "" else pending + s
    decreases |s|
  {
    if s == "" {
      assert pending + s == pending;
    } else if |pending| + 1 == BUFFER_BYTES {
      assert s[1..] == "";
    } else {
      FeedWithoutNewline(pending + [s[0]], s[1..]);
      assert pending + [s[0]] + s[1..] == pending + s;
    }
  }

  lemma FeedNewline(pending: string, rest: string)
    ensures Frames(pending, ['\n'] + rest) == Emit(pending) + Frames("", rest)
    ensures Left(pending, ['\n'] + rest) == Left("", rest)
  {
    assert (['\n'] + rest)[1..] == rest;
  }

  lemma FeedLine(line: string, rest: string)
    requires '\n' !in line && |line| < 4096
    ensures Frames("", line + (['\n'] + rest)) == Emit(line) + Frames("", rest)
    ensures Left("", line + (['\n'] + rest)) == Left("", rest)
  {
    hide Emit, Frames, Left;
    FeedWithoutNewline("", line);
    assert "" + line == line;
    FeedSplits("", line, ['\n'] + rest);
    FeedNewline(line, rest);
  }

  // A line of any length gives the frame of what is left of it once every 4096 characters are thrown away.
  lemma {:induction false} FeedAnyLine(line: string, rest: string)
    requires '\n' !in line
    ensures var left := line[|line| - |line| % 4096..];
            && Frames("", line + (['\n'] + rest)) == Emit(left) + Frames("", rest)
            && Left("", line + (['\n'] + rest)) == Left("", rest)
    decreases |line|
  {
    if |line| < 4096 {
      FeedLine(line, rest);
    } else {
      var front, back := line[..4096], line[4096..];
      FeedWithoutNewline("", front);
      FeedSplits("", front, back + (['\n'] + rest));
      assert line + (['\n'] + rest) == front + (back + (['\n'] + rest));
      FeedAnyLine(back, rest);
      assert |line| % 4096 == |back| % 4096;
      assert back[|back| - |back| % 4096..] == line[|line| - |line| % 4096..];
    }
  }

  // A stream whose pending characters hold no newline can be read from its line's start.
  lemma FeedFromStart(pending: string, s: string)
    requires '\n' !in pending && |pending| < BUFFER_BYTES
    ensures Frames("", pending + s) == Frames(pending, s) && Left("", pending + s) == Left(pending, s)
  {
    hide Frames, Left;
    FeedWithoutNewline("", pending);
    assert "" + pending == pending;
    FeedSplits("", pending, s);
  }

  // ---- The reader ----

  datatype Ending = Eof | WouldBlock | Failure

  class FrameReader {
    const buf: array<char>
    const frame: array<uint8>
    var used: nat

    ghost predicate Valid()
      reads this, buf
    {
      && buf.Length == BUFFER_BYTES && frame.Length == UPLINK_FRAME_DATA_BYTES
      && used <= BUFFER_BYTES
      && '\n' !in buf[..used]
    }

    // The line being read; a full buffer is dropped before the next read.
    ghost function Pending(): string
      reads this, buf
      requires Valid()
    {
      if used == BUFFER_BYTES then "" else buf[..used]
    }

    constructor ()
      ensures Valid() && Pending() == ""
      ensures fresh(buf) && fresh(frame)
    {
      buf := new char[BUFFER_BYTES](_ => '\0');
      frame := new uint8[UPLINK_FRAME_DATA_BYTES](_ => 0);
      used := 0;
    }

    // memchr: the first newline from p on
    method FindNewline(p: nat) returns (newline: nat)
      requires p <= used <= buf.Length
      ensures p <= newline <= used && '\n' !in buf[p..newline]
      ensures newline < used ==> buf[newline] == '\n'
    {
      newline := p;
      while newline < used && buf[newline] != '\n'
        invariant p <= newline <= used && '\n' !in buf[p..newline]
      {
        newline := newline + 1;
      }
    }

    // The line from start to the newline at end
    method ProcessLine(start: nat, end: nat) returns (r: Option<Frame>)
      requires start <= end < buf.Length && buf[end] == '\n' && frame.Length == UPLINK_FRAME_DATA_BYTES
      modifies frame
      ensures r == LineFrame(buf[start..end])
    {
      if start == end || (buf[start] != '-' && buf[start] != '+') {
        return None;
      }
      var kind := if buf[start] == '-' then UatDownlink else UatUplink;
      ghost var line := buf[start..end];
      var p, len := start + 1, 0;
      assert line[1..] == buf[p..end];
      while p < end
        invariant start < p <= end && len <= frame.Length
        invariant ParseHex(buf[p..end], frame[..len]) == ParseHex(line[1..], [])
        decreases end - p
      {
        ghost var s := buf[p..end];
        assert s != "" && s[0] == buf[p];
        if buf[p] == ';' {
          return Some(Frame(kind, frame[..len]));
        }
        if len >= frame.Length {
          return None;
        }
        var b := HexByte(buf[p], buf[p + 1]);
        if b < 0 {
          return None;
        }
        assert p + 1 < end;
        ghost var data := frame[..len];
        frame[len] := b;
        len := len + 1;
        p := p + 2;
        assert frame[..len] == data + [b];
        assert s[2..] == buf[p..end];
      }
      return None;
    }

    // memmove: what is left from p on goes to the front.
    method Compact(p: nat)
      requires p <= used <= buf.Length
      modifies this`used, buf
      ensures used == old(used) - p && buf[..used] == old(buf[p..used])
    {
      ghost var rest := buf[p..used];
      for i := 0 to used - p
        invariant used == old(used)
        invariant forall k :: 0 <= k < i ==> buf[k] == rest[k]
        invariant forall k :: i <= k < |rest| ==> buf[p + k] == rest[k]
      {
        buf[i] := buf[p + i];
      }
      used := used - p;
    }

    // The frames of the whole lines from p on; end is behind the last newline.
    method ProcessLines() returns (frames: seq<Frame>, p: nat)
      requires buf.Length == BUFFER_BYTES && frame.Length == UPLINK_FRAME_DATA_BYTES && used <= BUFFER_BYTES
      modifies frame
      ensures p <= used && '\n' !in buf[p..used]
      ensures Frames("", buf[..used]) == frames + Frames("", buf[p..used])
      ensures Left("", buf[..used]) == Left("", buf[p..used])
    {
      hide Frames, Left, LineFrame;
      frames, p := [], 0;
      ghost var all := buf[..used];
      ghost var none: seq<Frame> := [];
      assert none + Frames("", all) == Frames("", all) && all[0..] == all;
      while p < used
        invariant p <= used && buf[..used] == all
        invariant Frames("", all) == frames + Frames("", all[p..]) && Left("", all) == Left("", all[p..])
        decreases used - p
      {
        var newline := FindNewline(p);
        if newline == used {
          return;
        }
        assert buf[p..newline] == buf[..used][p..newline];
        var r := ProcessLine(p, newline);
        StepLine(all, p, newline);
        var found := if r.Some? then [r.value] else [];
        assert frames + (found + Frames("", all[newline + 1..])) == (frames + found) + Frames("", all[newline + 1..]);
        frames, p := frames + found, newline + 1;
      }
    }

    method ProcessInput() returns (frames: seq<Frame>)
      requires buf.Length == BUFFER_BYTES && frame.Length == UPLINK_FRAME_DATA_BYTES && used <= BUFFER_BYTES
      modifies this`used, buf, frame
      ensures Valid()
      ensures frames == Frames("", old(buf[..used])) && Pending() == Left("", old(buf[..used]))
    {
      hide Frames, Left;
      var p: nat;
      frames, p := ProcessLines();
      FeedWithoutNewline("", buf[p..used]);
      ghost var none: seq<Frame> := [];
      assert "" + buf[p..used] == buf[p..used] && frames + none == frames;
      Compact(p);
    }

    // The input arrives in reads of any sizes: the k-th read takes sizes[k] bytes, as far as there
    // are as many and they fit, and at least one. It stops at the end of the input, where the
    // descriptor reports what ending says.
    method ReadFrames(input: string, sizes: seq<nat>, ending: Ending) returns (frames: seq<Frame>, count: int)
      requires Valid()
      modifies this`used, buf, frame
      ensures Valid()
      ensures frames == Frames(old(Pending()), input) && Pending() == Left(old(Pending()), input)
      ensures count == if ending == Eof || (ending == WouldBlock && frames != []) then |frames| else -1
    {
      hide Frames, Left, ParseHex, LineFrame;
      frames := [];
      ghost var first := Pending();
      var at, k := 0, 0;
      NothingRead(first, input);
      while true
        invariant Valid() && at <= |input|
        invariant frames == Frames(first, input[..at]) && Pending() == Left(first, input[..at])
        decreases |input| - at
      {
        if used == buf.Length {
          used := 0;
        }
        if at == |input| {
          break;
        }
        var n := ReadSize(if k < |sizes| then sizes[k] else buf.Length, |input| - at, buf.Length - used);
        ghost var pending := Pending();
        Receive(input[at..at + n]);
        var more := ProcessInput();
        FeedFromStart(pending, input[at..at + n]);
        FeedSplits(first, input[..at], input[at..at + n]);
        assert input[..at] + input[at..at + n] == input[..at + n];
        frames := frames + more;
        at, k := at + n, k + 1;
      }
      assert input[..|input|] == input;
      count := if ending == Eof || (ending == WouldBlock && |frames| > 0) then |frames| else -1;
    }

    // read: the bytes go behind those in the buffer.
    method Receive(bytes: string)
      requires used + |bytes| <= buf.Length
      modifies this`used, buf
      ensures used == old(used) + |bytes| && buf[..used] == old(buf[..used]) + bytes
    {
      ghost var before := buf[..used];
      for i := 0 to |bytes|
        invariant used == old(used)
        invariant buf[..used] == before
        invariant forall k :: 0 <= k < i ==> buf[used + k] == bytes[k]
      {
        buf[used + i] := bytes[i];
      }
      used := used + |bytes|;
    }
  }

  // A read returns at least one byte while there is input and room.
  function ReadSize(wanted: nat, available: nat, room: nat): (n: nat)
    requires available > 0 && room > 0
    ensures 1 <= n <= available && n <= room
  {
    var most := if available <= room then available else room;
    if wanted == 0 then 1 else if wanted <= most then wanted else most
  }

  lemma NothingRead(pending: string, input: string)
    ensures Frames(pending, input[..0]) == [] && Left(pending, input[..0]) == pending
  {
  }

  lemma StepLine(all: string, p: nat, newline: nat)
    requires p <= newline < |all| <= BUFFER_BYTES && all[newline] == '\n' && '\n' !in all[p..newline]
    ensures Frames("", all[p..]) == Emit(all[p..newline]) + Frames("", all[newline + 1..])
    ensures Left("", all[p..]) == Left("", all[newline + 1..])
  {
    hide Emit, Frames, Left;
    assert all[p..] == all[p..newline] + (['\n'] + all[newline + 1..]);
    FeedLine(all[p..newline], all[newline + 1..]);
  }
}