// dump978/dump978.c, process_buffer: the search for frames in the phases of buffered samples.
module Dump978 {
  import opened Gf2
  import opened Integers
  import opened Options
  import opened SyncWord
  import opened Words

  const UPLINK_FRAME_BITS := 4416
  const LONG_FRAME_BITS := 384
  const SHORT_FRAME_BITS := 240
  const UPLINK_DATA_BYTES := 432
  const LONG_FRAME_BYTES := 48
  const LONG_DATA_BYTES := 34
  const SHORT_DATA_BYTES := 18
  const FAILED := 9999
  const ADSB_SYNC_WORD := 0xE_ACDD_A4E2
  const UPLINK_SYNC_WORD := 0x1_5322_5B1D
  // Samples a demodulator reads, two for each bit of the sync word and the frame
  const ADSB_WINDOW := 2 * (SYNC_BITS + LONG_FRAME_BITS)
  const UPLINK_WINDOW := 2 * (SYNC_BITS + UPLINK_FRAME_BITS)
  // With fewer samples a pass has no room for one frame of the largest kind behind a sync word.
  const FEWEST_SAMPLES := 2 * (UPLINK_FRAME_BITS + 2 * SYNC_BITS)

  // ---- Phase differences ----

  function PhiDifference(from: uint16, to: uint16): (d: int16)
  {
    var difference := to - from;
    if difference >= 32768 then difference - 65536
    else if difference < -32768 then difference + 65536
    else difference
  }

  // The only signed turn of less than half a circle from one phase to the other
  lemma PhiDifferenceTurns(from: uint16, to: uint16, d: int16)
    ensures (from + d) % 65536 == to <==> d == PhiDifference(from, to)
  {
  }

  // ---- What surrounds the search ----

  // What a demodulator answers: the bits consumed or 0, the corrected errors, and the frame
  datatype Demod = Demod(skip: nat, rsErrors: int, frame: seq<uint8>)

  // The lookup tables and the demodulators, which see the samples of one frame
  datatype Receiver = Receiver(
    phase: (uint8, uint8) -> uint16, amplitude: (uint8, uint8) -> uint16,
    adsb: seq<uint16> -> Demod, uplink: seq<uint16> -> Demod)

  predicate DownlinkDecoded(r: Demod) {
    if r.skip == 0 then r.rsErrors == FAILED
    else
      && r.skip in {SYNC_BITS + SHORT_FRAME_BITS, SYNC_BITS + LONG_FRAME_BITS}
      && 0 <= r.rsErrors <= 7 && |r.frame| == LONG_FRAME_BYTES
      && (r.frame[0] / 8 == 0 <==> r.skip == SYNC_BITS + SHORT_FRAME_BITS)
  }

  predicate UplinkDecoded(r: Demod) {
    if r.skip == 0 then r.rsErrors == FAILED
    else r.skip == SYNC_BITS + UPLINK_FRAME_BITS && 0 <= r.rsErrors <= 60 && |r.frame| == UPLINK_DATA_BYTES
  }

  // The demodulators answer as the error correction in dump978/fec.c lets them.
  ghost predicate Decodes(d: Receiver) {
    && (forall w: seq<uint16> :: DownlinkDecoded(d.adsb(w)))
    && (forall w: seq<uint16> :: UplinkDecoded(d.uplink(w)))
  }

  // What process_buffer sees: the phases, the raw samples and the samples consumed before
  datatype View = View(phi: seq<uint16>, raw: seq<uint8>, offset: nat, receiver: Receiver)

  ghost predicate Ready(v: View) {
    Decodes(v.receiver) && 2 * |v.phi| <= |v.raw|
  }

  datatype Report = Report(timestamp: nat, uplink: bool, rsErrors: int, data: seq<uint8>, strength: nat)

  function Window(uplink: bool): nat {
    if uplink then UPLINK_WINDOW else ADSB_WINDOW
  }

  function DemodAt(v: View, index: nat, uplink: bool): (r: Demod)
    requires index + Window(uplink) <= |v.phi|
    ensures Decodes(v.receiver) ==> if uplink then UplinkDecoded(r) else DownlinkDecoded(r)
  {
    var w := v.phi[index..index + Window(uplink)];
    if uplink then v.receiver.uplink(w) else v.receiver.adsb(w)
  }

  // The bytes of a frame that are reported
  function DataOf(uplink: bool, frame: seq<uint8>): seq<uint8>
    requires if uplink then |frame| == UPLINK_DATA_BYTES else |frame| == LONG_FRAME_BYTES
  {
    if uplink then frame
    else if frame[0] / 8 == 0 then frame[..SHORT_DATA_BYTES]
    else frame[..LONG_DATA_BYTES]
  }

  // ---- Signal strength ----

  // The sum of the amplitudes of n samples
  function PowerSum(raw: seq<uint8>, from: nat, n: nat, amplitude: (uint8, uint8) -> uint16): nat
    requires 2 * (from + n) <= |raw|
  {
    if n == 0 then 0
    else PowerSum(raw, from, n - 1, amplitude) + amplitude(raw[2 * (from + n - 1)], raw[2 * (from + n - 1) + 1])
  }

  function Strength(raw: seq<uint8>, from: nat, n: nat, amplitude: (uint8, uint8) -> uint16): nat
    requires 2 * (from + n) <= |raw| && n > 0
  {
    PowerSum(raw, from, n, amplitude) / n
  }

  lemma {:induction false} PowerConcat(raw: seq<uint8>, from: nat, m: nat, n: nat, amplitude: (uint8, uint8) -> uint16)
    requires 2 * (from + m + n) <= |raw|
    ensures PowerSum(raw, from, m + n, amplitude)
         == PowerSum(raw, from, m, amplitude) + PowerSum(raw, from + m, n, amplitude)
  {
    if n > 0 {
      PowerConcat(raw, from, m, n - 1, amplitude);
      assert from + (m + n) - 1 == from + m + n - 1;
    }
  }

  lemma PowerOne(raw: seq<uint8>, from: nat, amplitude: (uint8, uint8) -> uint16)
    requires 2 * (from + 1) <= |raw|
    ensures PowerSum(raw, from, 1, amplitude) == amplitude(raw[2 * from], raw[2 * from + 1])
    ensures PowerSum(raw, from, 0, amplitude) == 0
  {
  }

  lemma {:induction false} PowerBetween(
    raw: seq<uint8>, from: nat, n: nat, amplitude: (uint8, uint8) -> uint16, lo: nat, hi: nat)
    requires 2 * (from + n) <= |raw|
    requires forall k :: from <= k < from + n ==> lo <= amplitude(raw[2 * k], raw[2 * k + 1]) <= hi
    ensures n * lo <= PowerSum(raw, from, n, amplitude) <= n * hi
  {
    if n > 0 {
      PowerBetween(raw, from, n - 1, amplitude, lo, hi);
      assert n * lo == (n - 1) * lo + lo && n * hi == (n - 1) * hi + hi;
    }
  }

  // The strength lies between the least and the largest amplitude of the samples.
  lemma StrengthBetween(raw: seq<uint8>, from: nat, n: nat, amplitude: (uint8, uint8) -> uint16, lo: nat, hi: nat)
    requires 2 * (from + n) <= |raw| && n > 0
    requires forall k :: from <= k < from + n ==> lo <= amplitude(raw[2 * k], raw[2 * k + 1]) <= hi
    ensures lo <= Strength(raw, from, n, amplitude) <= hi
  {
    PowerBetween(raw, from, n, amplitude, lo, hi);
    QuotientBetween(PowerSum(raw, from, n, amplitude), n, lo, hi);
  }

  lemma QuotientBetween(sum: nat, n: nat, lo: nat, hi: nat)
    requires n > 0 && n * lo <= sum <= n * hi
    ensures lo <= sum / n <= hi
  {
    var q := sum / n;
    assert sum == n * q + sum % n;
    assert n * (q + 1) == n * q + n && n * (hi + 1) == n * hi + n;
    LessFactor(n, lo, q + 1);
    LessFactor(n, q, hi + 1);
  }

  lemma LessFactor(n: nat, a: int, b: int)
    requires n * a < n * b
    ensures a < b
  {
    assert n * (b - a) > 0;
  }

  method CalcPower(raw: seq<uint8>, from: nat, n: nat, amplitude: (uint8, uint8) -> uint16) returns (strength: nat)
    requires 2 * (from + n) <= |raw| && n > 0
    ensures strength == Strength(raw, from, n, amplitude)
  {
    var sum := 0;
    for k := 0 to n
      invariant sum == PowerSum(raw, from, k, amplitude)
    {
      sum := sum + amplitude(raw[2 * (from + k)], raw[2 * (from + k) + 1]);
    }
    strength := sum / n;
  }

  // ---- Two adjacent samples ----

  // A successful demodulation: the bits consumed and what is reported
  datatype Hit = Hit(skip: nat, report: Report)

  // The report of the demodulation at one sample, its strength measured from another
  function HitOf(v: View, at: nat, measured: nat, uplink: bool): Hit
    requires Ready(v) && at + Window(uplink) <= |v.phi| && measured <= at && DemodAt(v, at, uplink).skip > 0
  {
    var r := DemodAt(v, at, uplink);
    Hit(r.skip, Report(v.offset + at, uplink, r.rsErrors, DataOf(uplink, r.frame),
                       Strength(v.raw, measured, 2 * r.skip, v.receiver.amplitude)))
  }

  // The report comes from a demodulator that succeeded on the samples from its timestamp on. For the
  // second of two adjacent samples of an uplink frame the strength is measured from the first.
  ghost predicate Genuine(r: Report, v: View) {
    && Ready(v) && v.offset <= r.timestamp && r.timestamp - v.offset + Window(r.uplink) <= |v.phi|
    && var i := r.timestamp - v.offset;
       && DemodAt(v, i, r.uplink).skip > 0
       && (r == HitOf(v, i, i, r.uplink).report || (r.uplink && i > 0 && r == HitOf(v, i, i - 1, true).report))
  }

  function Best(v: View, index: nat, uplink: bool): (h: Option<Hit>)
    requires Ready(v) && index + 1 + Window(uplink) <= |v.phi|
    ensures h.Some? ==> h.value.skip in {276, 420, 4452} && (h.value.skip == 4452 <==> uplink)
    ensures h.Some? ==> Genuine(h.value.report, v) && h.value.report.uplink == uplink
    ensures h.Some? ==> v.offset + index <= h.value.report.timestamp <= v.offset + index + 1
  {
    var a, b := DemodAt(v, index, uplink), DemodAt(v, index + 1, uplink);
    if a.skip > 0 && a.rsErrors <= b.rsErrors then Some(HitOf(v, index, index, uplink))
    else if b.skip > 0 && b.rsErrors <= a.rsErrors then
      Some(HitOf(v, index + 1, if uplink then index else index + 1, uplink))
    else None
  }

  // A frame is found exactly when one of the two demodulations succeeds: the one with fewer corrected
  // errors, on a tie the earlier one. The length of its data goes with the bits consumed.
  method TryFrame(v: View, index: nat, uplink: bool) returns (skip: nat, report: Report)
    requires Ready(v) && index + 1 + Window(uplink) <= |v.phi|
    ensures Best(v, index, uplink) == if skip > 0 then Some(Hit(skip, report)) else None
    ensures skip > 0 <==> DemodAt(v, index, uplink).skip > 0 || DemodAt(v, index + 1, uplink).skip > 0
    ensures skip > 0 ==> Winner(v, index, uplink, skip, report)
  {
    var a, b := DemodAt(v, index, uplink), DemodAt(v, index + 1, uplink);
    BestWins(v, index, uplink);
    hide DemodAt, DataOf, Winner, Decodes;
    if a.skip > 0 && a.rsErrors <= b.rsErrors {
      var strength := CalcPower(v.raw, index, 2 * a.skip, v.receiver.amplitude);
      return a.skip, Report(v.offset + index, uplink, a.rsErrors, DataOf(uplink, a.frame), strength);
    } else if b.skip > 0 && b.rsErrors <= a.rsErrors {
      var strength := CalcPower(v.raw, if uplink then index else index + 1, 2 * b.skip, v.receiver.amplitude);
      return b.skip, Report(v.offset + index + 1, uplink, b.rsErrors, DataOf(uplink, b.frame), strength);
    }
    return 0, Report(v.offset + index, uplink, 0, [], 0);
  }

  lemma BestWins(v: View, index: nat, uplink: bool)
    requires Ready(v) && index + 1 + Window(uplink) <= |v.phi|
    ensures var h := Best(v, index, uplink);
            && (h.Some? <==> DemodAt(v, index, uplink).skip > 0 || DemodAt(v, index + 1, uplink).skip > 0)
            && (h.Some? ==> Winner(v, index, uplink, h.value.skip, h.value.report))
  {
    BestChosen(v, index, uplink);
    DemodReads(v, index, uplink);
    DemodReads(v, index + 1, uplink);
    hide Best, DemodAt, Chosen, Decodes, Genuine;
  }

  lemma BestChosen(v: View, index: nat, uplink: bool)
    requires Ready(v) && index + 1 + Window(uplink) <= |v.phi|
    ensures var h, a, b := Best(v, index, uplink), DemodAt(v, index, uplink), DemodAt(v, index + 1, uplink);
            && (h.Some? <==> a.skip > 0 || b.skip > 0)
            && (h.Some? ==> Chosen(v, index, uplink, a, b, h.value.skip, h.value.report))
  {
    hide DemodAt, Decodes, Strength, Genuine;
    var h := Best(v, index, uplink);
    if h.Some? {
      var at := h.value.report.timestamp - v.offset;
      StrengthIsMean(v.raw, if uplink then index else at, 2 * h.value.skip, v.receiver.amplitude);
    }
  }

  lemma StrengthIsMean(raw: seq<uint8>, from: nat, n: nat, amplitude: (uint8, uint8) -> uint16)
    requires 2 * (from + n) <= |raw| && n > 0
    ensures var s := Strength(raw, from, n, amplitude);
            n * s <= PowerSum(raw, from, n, amplitude) < n * s + n
  {
    var sum := PowerSum(raw, from, n, amplitude);
    hide PowerSum;
    assert sum == n * (sum / n) + sum % n;
  }

  // A downlink demodulator gets the 840 samples of a long frame, an uplink one 8904.
  lemma DemodReads(v: View, index: nat, uplink: bool)
    requires Ready(v) && index + Window(uplink) <= |v.phi|
    ensures Window(uplink) == if uplink then 8904 else 840
    ensures DemodAt(v, index, uplink)
            == if uplink then v.receiver.uplink(v.phi[index..index + 8904])
               else v.receiver.adsb(v.phi[index..index + 840])
  {
  }

  // What is reported of the two demodulations, a from one sample on and b from the next: that of the one
  // that succeeded, of two the one with fewer corrected errors, on a tie the earlier one. The strength
  // is the mean amplitude of the samples of the frame, rounded down; for an uplink frame it is taken
  // from the first of the two samples on.
  ghost predicate Chosen(v: View, index: nat, uplink: bool, a: Demod, b: Demod, skip: nat, r: Report) {
    && v.offset + index <= r.timestamp <= v.offset + index + 1
    && var second := r.timestamp - v.offset - index;
       var chosen, other := if second == 0 then a else b, if second == 0 then b else a;
       && 0 < chosen.skip == skip && r.uplink == uplink && r.rsErrors == chosen.rsErrors
       && (other.skip > 0 ==>
             if second == 0 then chosen.rsErrors <= other.rsErrors else chosen.rsErrors < other.rsErrors)
       && |chosen.frame| >= (if skip == 276 then 18 else if skip == 420 then 34 else 432)
       && r.data == chosen.frame[..if skip == 276 then 18 else if skip == 420 then 34 else 432]
       && var from := if uplink then index else index + second;
          && 2 * (from + 2 * skip) <= |v.raw|
          && var sum := PowerSum(v.raw, from, 2 * skip, v.receiver.amplitude);
             2 * skip * r.strength <= sum < 2 * skip * r.strength + 2 * skip
  }

  ghost predicate Winner(v: View, index: nat, uplink: bool, skip: nat, r: Report)
    requires index + 1 + Window(uplink) <= |v.phi|
  {
    if uplink then
      Chosen(v, index, true, v.receiver.uplink(v.phi[index..index + 8904]),
             v.receiver.uplink(v.phi[index + 1..index + 8905]), skip, r)
    else
      Chosen(v, index, false, v.receiver.adsb(v.phi[index..index + 840]),
             v.receiver.adsb(v.phi[index + 1..index + 841]), skip, r)
  }

  lemma WinnerOnce(v: View, index: nat, uplink: bool, h: Hit, g: Hit)
    requires index + 1 + Window(uplink) <= |v.phi|
    requires Winner(v, index, uplink, h.skip, h.report) && Winner(v, index, uplink, g.skip, g.report)
    ensures h == g
  {
    var a := if uplink then v.receiver.uplink(v.phi[index..index + 8904])
             else v.receiver.adsb(v.phi[index..index + 840]);
    var b := if uplink then v.receiver.uplink(v.phi[index + 1..index + 8905])
             else v.receiver.adsb(v.phi[index + 1..index + 841]);
    hide Chosen;
    ChosenOnce(v, index, uplink, a, b, h, g);
  }

  lemma ChosenOnce(v: View, index: nat, uplink: bool, a: Demod, b: Demod, h: Hit, g: Hit)
    requires Chosen(v, index, uplink, a, b, h.skip, h.report) && Chosen(v, index, uplink, a, b, g.skip, g.report)
    ensures h == g
  {
    hide PowerSum;
    MeanOnce(2 * h.skip, h.report.strength, g.report.strength);
  }

  lemma MeanOnce(n: nat, a: nat, b: nat)
    ensures a < b ==> n * a + n <= n * b
    ensures b < a ==> n * b + n <= n * a
  {
    if a < b {
      NextMultiple(n, a, b);
    } else if b < a {
      NextMultiple(n, b, a);
    }
  }

  lemma NextMultiple(n: nat, a: nat, b: nat)
    requires a < b
    ensures n * a + n <= n * b
  {
    var c := b - a - 1;
    assert b == a + 1 + c;
    assert n * b == n * a + n + n * c;
  }

  lemma BestExactly(v: View, index: nat, uplink: bool, h: Hit)
    requires Ready(v) && index + 1 + Window(uplink) <= |v.phi|
    ensures Best(v, index, uplink) == Some(h) <==> Winner(v, index, uplink, h.skip, h.report)
  {
    BestWins(v, index, uplink);
    DemodReads(v, index, uplink);
    DemodReads(v, index + 1, uplink);
    hide Best, DemodAt, Decodes, PowerSum, Genuine;
    var best := Best(v, index, uplink);
    if Winner(v, index, uplink, h.skip, h.report) {
      assert best.Some?;
      WinnerOnce(v, index, uplink, h, best.value);
    }
  }

  // ---- One position ----

  // ((sync << 1) | bit) & SYNC_MASK
  function PushBit(sync: nat, bit: bool): (r: nat)
    ensures r < Pow2(SYNC_BITS)
  {
    (2 * sync + if bit then 1 else 0) % Pow2(SYNC_BITS)
  }

  lemma SyncWordsFit()
    ensures ADSB_SYNC_WORD < Pow2(SYNC_BITS) && UPLINK_SYNC_WORD < Pow2(SYNC_BITS)
  {
    Powers();
    PowSum(32, 4);
    assert Pow2(4) == 16;
  }

  // The register holds the last 36 bits pushed.
  function Shifted(s: Bits, bit: bool): (t: Bits)
    requires |s| == SYNC_BITS
    ensures |t| == SYNC_BITS
  {
    s[1..] + [bit]
  }

  lemma PushShifts(sync: nat, bit: bool)
    ensures LowBits(PushBit(sync, bit), SYNC_BITS) == Shifted(LowBits(sync, SYNC_BITS), bit)
  {
    hide Pow2;
    var v := 2 * sync + if bit then 1 else 0;
    BitsOfMod(v, SYNC_BITS);
    DropTop(sync, SYNC_BITS);
    assert v / 2 == sync && (v % 2 == 1) == bit;
    LastBit(v, SYNC_BITS);
  }

  lemma LastBit(v: nat, n: nat)
    requires n > 0
    ensures LowBits(v, n) == LowBits(v / 2, n - 1) + [v % 2 == 1]
  {
  }

  predicate Matches(s: Bits, word: nat)
    requires |s| == SYNC_BITS
  {
    Distance(s, LowBits(word, SYNC_BITS)) <= MAX_SYNC_ERRORS
  }

  predicate InSearch(len: nat, bit: nat) {
    bit < len / 2 - (SYNC_BITS + UPLINK_FRAME_BITS)
  }

  predicate Searched(len: nat, bit: nat) {
    SYNC_BITS <= bit && InSearch(len, bit)
  }

  // The frame found at a position whose last 36 bits are s0, and s1 one sample later.
  function HitAt(v: View, bit: nat, s0: Bits, s1: Bits): (h: Option<Hit>)
    requires Ready(v) && Searched(|v.phi|, bit) && |s0| == |s1| == SYNC_BITS
    ensures h.Some? ==> h.value.skip in {276, 420, 4452} && (h.value.skip == 4452 <==> h.value.report.uplink)
    ensures h.Some? ==> Genuine(h.value.report, v)
    ensures h.Some? ==>
              var at := v.offset + 2 * (bit - SYNC_BITS + 1);
              at <= h.value.report.timestamp <= at + 2
  {
    var start := 2 * (bit - SYNC_BITS + 1);
    if Matches(s0, ADSB_SYNC_WORD) then Best(v, start, false)
    else if Matches(s1, ADSB_SYNC_WORD) then Best(v, start + 1, false)
    else if Matches(s0, UPLINK_SYNC_WORD) then Best(v, start, true)
    else if Matches(s1, UPLINK_SYNC_WORD) then Best(v, start + 1, true)
    else None
  }

  // The downlink word in the even register and in the odd one, then the uplink word: the first of the
  // four within four bits decides which samples are demodulated and how.
  ghost predicate FrameFor(v: View, bit: nat, s0: Bits, s1: Bits, h: Hit)
    requires Ready(v) && 36 <= bit < |v.phi| / 2 - 4452 && |s0| == |s1| == 36
  {
    exists r: nat ::
      && r < 4 && Near(s0, s1, r) && (forall q: nat :: q < r ==> !Near(s0, s1, q))
      && Winner(v, 2 * (bit - 35) + r % 2, r >= 2, h.skip, h.report)
  }

  ghost predicate Near(s0: Bits, s1: Bits, r: nat)
    requires |s0| == |s1| == 36
  {
    |Differing(if r % 2 == 0 then s0 else s1, LowBits(if r < 2 then 0xE_ACDD_A4E2 else 0x1_5322_5B1D, 36))| <= 4
  }

  lemma HitIsFrame(v: View, bit: nat, s0: Bits, s1: Bits, h: Hit)
    requires Ready(v) && Searched(|v.phi|, bit) && |s0| == |s1| == SYNC_BITS
    ensures HitAt(v, bit, s0, s1) == Some(h) <==> FrameFor(v, bit, s0, s1, h)
  {
    hide Winner, Best, Decodes, Genuine, Distance, Differing, LowBits;
    var start := 2 * (bit - SYNC_BITS + 1);
    var adsb, uplink := LowBits(ADSB_SYNC_WORD, SYNC_BITS), LowBits(UPLINK_SYNC_WORD, SYNC_BITS);
    DistanceCounts(s0, adsb);
    DistanceCounts(s1, adsb);
    DistanceCounts(s0, uplink);
    DistanceCounts(s1, uplink);
    BestExactly(v, start, false, h);
    BestExactly(v, start + 1, false, h);
    BestExactly(v, start, true, h);
    BestExactly(v, start + 1, true, h);
    assert Near(s0, s1, 0) <==> Matches(s0, ADSB_SYNC_WORD);
    assert Near(s0, s1, 1) <==> Matches(s1, ADSB_SYNC_WORD);
    assert Near(s0, s1, 2) <==> Matches(s0, UPLINK_SYNC_WORD);
    assert Near(s0, s1, 3) <==> Matches(s1, UPLINK_SYNC_WORD);
    hide Matches, Near;
  }

  // The search at the position bit, its sync registers filled.
  method Examine(v: View, bit: nat, sync0: nat, sync1: nat) returns (skip: nat, report: Report)
    requires Ready(v) && Searched(|v.phi|, bit)
    requires sync0 < Pow2(SYNC_BITS) && sync1 < Pow2(SYNC_BITS)
    ensures HitAt(v, bit, LowBits(sync0, SYNC_BITS), LowBits(sync1, SYNC_BITS))
         == if skip > 0 then Some(Hit(skip, report)) else None
  {
    hide Ready, Genuine, Winner, Pow2, Distance, Best, LowBits, DemodAt, FrameFor;
    SyncWordsFit();
    var startbit := bit - SYNC_BITS + 1;
    var adsb0 := FuzzyCompare(sync0, ADSB_SYNC_WORD);
    var adsb1 := FuzzyCompare(sync1, ADSB_SYNC_WORD);
    if adsb0 || adsb1 {
      skip, report := TryFrame(v, startbit * 2 + if adsb0 then 0 else 1, false);
      return;
    }
    var uplink0 := FuzzyCompare(sync0, UPLINK_SYNC_WORD);
    var uplink1 := FuzzyCompare(sync1, UPLINK_SYNC_WORD);
    if uplink0 || uplink1 {
      skip, report := TryFrame(v, startbit * 2 + if uplink0 then 0 else 1, true);
      return;
    }
    return 0, Report(v.offset, false, 0, [], 0);
  }

  // ---- One pass over the buffer ----

  predicate Sign(phi: seq<uint16>, i: nat)
    requires i + 1 < |phi|
  {
    PhiDifference(phi[i], phi[i + 1]) > 0
  }

  // A frame and the position it was found at
  datatype Find = Find(bit: nat, hit: Hit)

  // Where the search goes on behind a frame
  function Resume(f: Find): int {
    f.bit - SYNC_BITS + 1 + f.hit.skip + 1
  }

  // The position where the search from bit on ends, and what it finds; s0 and s1 are the last
  // bits before. The bits of a frame are skipped, but the registers keep theirs.
  function Scan(v: View, bit: nat, s0: Bits, s1: Bits): (nat, seq<Find>)
    requires Ready(v) && |s0| == |s1| == SYNC_BITS
    decreases |v.phi| - bit
  {
    if !InSearch(|v.phi|, bit) then (bit, [])
    else
      var t0, t1 := Shifted(s0, Sign(v.phi, 2 * bit)), Shifted(s1, Sign(v.phi, 2 * bit + 1));
      match if bit >= SYNC_BITS then HitAt(v, bit, t0, t1) else None
      case None => Scan(v, bit + 1, t0, t1)
      case Some(h) =>
        var (end, finds) := Scan(v, Resume(Find(bit, h)), t0, t1);
        (end, [Find(bit, h)] + finds)
  }

  function WholeScan(v: View): (nat, seq<Find>)
    requires Ready(v)
  {
    Scan(v, 0, Zeros(SYNC_BITS), Zeros(SYNC_BITS))
  }

  function ReportsOf(finds: seq<Find>): seq<Report> {
    seq(|finds|, i requires 0 <= i < |finds| => finds[i].hit.report)
  }

  // The samples consumed by a pass, and its reports
  function PassOver(v: View): (int, seq<Report>)
    requires Ready(v)
  {
    var (end, finds) := WholeScan(v);
    ((end - SYNC_BITS) * 2, ReportsOf(finds))
  }

  method ProcessBuffer(v: View) returns (processed: int, reports: seq<Report>)
    requires Ready(v)
    ensures (processed, reports) == PassOver(v)
    ensures PassInBounds(v, processed, reports)
    ensures forall i :: 0 <= i < |reports| ==> Genuine(reports[i], v)
    ensures InOrder(reports)
  {
    hide Genuine, Ready, Pow2, PushBit, HitAt, LowBits, Shifted, Continues, Scan, Decodes;
    reports := [];
    ghost var finds := [];
    var sync0, sync1 := 0, 0;
    var lenbits := |v.phi| / 2 - (SYNC_BITS + UPLINK_FRAME_BITS);
    var bit := 0;
    ScanStarts(v);
    while bit < lenbits
      invariant Continues(v, finds, bit, sync0, sync1)
      invariant reports == ReportsOf(finds)
      decreases lenbits - bit
    {
      ScanGoesOn(v, finds, bit, sync0, sync1);
      var dphi0 := PhiDifference(v.phi[bit * 2], v.phi[bit * 2 + 1]);
      var dphi1 := PhiDifference(v.phi[bit * 2 + 1], v.phi[bit * 2 + 2]);
      sync0, sync1 := PushBit(sync0, dphi0 > 0), PushBit(sync1, dphi1 > 0);
      if bit >= SYNC_BITS {
        var startbit := bit - SYNC_BITS + 1;
        var skip, report := Examine(v, bit, sync0, sync1);
        if skip > 0 {
          OneMore(finds, Find(bit, Hit(skip, report)));
          finds := finds + [Find(bit, Hit(skip, report))];
          reports := reports + [report];
          bit := startbit + skip;
        }
      }
      bit := bit + 1;
    }
    ScanEnds(v, finds, bit, sync0, sync1);
    processed := (bit - SYNC_BITS) * 2;
    PassFacts(v);
  }

  lemma OneMore(finds: seq<Find>, f: Find)
    ensures ReportsOf(finds + [f]) == ReportsOf(finds) + [f.hit.report]
  {
  }

  // The rest of the search adds its frames to those before.
  ghost predicate Continues(v: View, finds: seq<Find>, bit: nat, sync0: nat, sync1: nat)
    requires Ready(v)
  {
    var rest := Scan(v, bit, LowBits(sync0, SYNC_BITS), LowBits(sync1, SYNC_BITS));
    WholeScan(v) == (rest.0, finds + rest.1)
  }

  lemma ScanStarts(v: View)
    requires Ready(v)
    ensures Continues(v, [], 0, 0, 0)
  {
    hide Scan;
    BitsOfZero(SYNC_BITS);
    var none: seq<Find> := [];
    assert none + WholeScan(v).1 == WholeScan(v).1;
  }

  lemma ScanGoesOn(v: View, finds: seq<Find>, bit: nat, sync0: nat, sync1: nat)
    requires Ready(v) && InSearch(|v.phi|, bit) && Continues(v, finds, bit, sync0, sync1)
    ensures var t0, t1 := PushBit(sync0, Sign(v.phi, 2 * bit)), PushBit(sync1, Sign(v.phi, 2 * bit + 1));
            match if bit >= SYNC_BITS then HitAt(v, bit, LowBits(t0, SYNC_BITS), LowBits(t1, SYNC_BITS)) else None
            case None => Continues(v, finds, bit + 1, t0, t1)
            case Some(h) => Continues(v, finds + [Find(bit, h)], Resume(Find(bit, h)), t0, t1)
  {
    hide HitAt, PushBit, LowBits, Shifted, Sign, Ready;
    PushShifts(sync0, Sign(v.phi, 2 * bit));
    PushShifts(sync1, Sign(v.phi, 2 * bit + 1));
    var t0, t1 := PushBit(sync0, Sign(v.phi, 2 * bit)), PushBit(sync1, Sign(v.phi, 2 * bit + 1));
    if bit >= SYNC_BITS {
      var h := HitAt(v, bit, LowBits(t0, SYNC_BITS), LowBits(t1, SYNC_BITS));
      if h.Some? {
        var f := Find(bit, h.value);
        var rest := Scan(v, Resume(f), LowBits(t0, SYNC_BITS), LowBits(t1, SYNC_BITS)).1;
        assert finds + ([f] + rest) == (finds + [f]) + rest;
      }
    }
  }

  lemma ScanEnds(v: View, finds: seq<Find>, bit: nat, sync0: nat, sync1: nat)
    requires Ready(v) && !InSearch(|v.phi|, bit) && Continues(v, finds, bit, sync0, sync1)
    ensures WholeScan(v) == (bit, finds)
  {
    var none: seq<Find> := [];
    assert finds + none == finds;
  }

  // ---- Bounds and order ----

  // The samples a pass consumes without a frame; negative exactly when there are too few.
  function Unframed(len: nat): int {
    var lenbits := len / 2 - (SYNC_BITS + UPLINK_FRAME_BITS);
    ((if lenbits > 0 then lenbits else 0) - SYNC_BITS) * 2
  }

  lemma EnoughSamples(len: nat)
    ensures Unframed(len) >= 0 <==> len >= FEWEST_SAMPLES
  {
  }

  // A pass consumes no more than it has, and a report starts where it consumed.
  ghost predicate PassInBounds(v: View, processed: int, reports: seq<Report>) {
    && (processed >= 0 <==> |v.phi| >= FEWEST_SAMPLES)
    && (processed >= 0 ==> Unframed(|v.phi|) <= processed <= |v.phi|)
    && processed % 2 == 0
    && (reports == [] ==> processed == Unframed(|v.phi|))
    && forall i :: 0 <= i < |reports| ==> v.offset + 2 <= reports[i].timestamp <= v.offset + processed + 2
  }

  // The next report starts at the earliest 35 bits before the end of the frame of a report.
  ghost predicate Before(a: Report, start: int) {
    a.timestamp + 2 * ((if a.uplink then SYNC_BITS + UPLINK_FRAME_BITS else SYNC_BITS + SHORT_FRAME_BITS) - 35) <= start
  }

  ghost predicate InOrder(reports: seq<Report>) {
    forall i :: 0 < i < |reports| ==> Before(reports[i - 1], reports[i].timestamp)
  }

  ghost predicate Credible(v: View, f: Find) {
    && Searched(|v.phi|, f.bit)
    && f.hit.skip in {276, 420, 4452} && (f.hit.skip == 4452 <==> f.hit.report.uplink)
    && Genuine(f.hit.report, v)
    && var start := v.offset + 2 * (f.bit - SYNC_BITS + 1);
       start <= f.hit.report.timestamp <= start + 2
  }

  // Each frame is found behind the one before, and the search ends behind the last.
  ghost predicate Chained(finds: seq<Find>, bit: int, end: int) {
    if finds == [] then bit <= end else bit <= finds[0].bit && Chained(finds[1..], Resume(finds[0]), end)
  }

  predicate Reached(v: View, bit: nat) {
    bit == 0 || InSearch(|v.phi|, bit - 1)
  }

  lemma {:induction false} ScanFacts(v: View, bit: nat, s0: Bits, s1: Bits)
    requires Ready(v) && |s0| == |s1| == SYNC_BITS
    ensures var (end, finds) := Scan(v, bit, s0, s1);
            && Chained(finds, bit, end) && (forall f :: f in finds ==> Credible(v, f)) && !InSearch(|v.phi|, end)
            && (InSearch(|v.phi|, bit) ==> end <= |v.phi| / 2 - 35)
            && (finds == [] && Reached(v, bit) ==> Reached(v, end))
    decreases |v.phi| - bit
  {
    hide HitAt, Genuine, Ready, Sign, Shifted;
    if InSearch(|v.phi|, bit) {
      var t0, t1 := Shifted(s0, Sign(v.phi, 2 * bit)), Shifted(s1, Sign(v.phi, 2 * bit + 1));
      var h := if bit >= SYNC_BITS then HitAt(v, bit, t0, t1) else None;
      if h.Some? {
        var f := Find(bit, h.value);
        var (end, finds) := Scan(v, Resume(f), t0, t1);
        ScanFacts(v, Resume(f), t0, t1);
        assert ([f] + finds)[1..] == finds;
      } else {
        ScanFacts(v, bit + 1, t0, t1);
      }
    }
  }

  function StartOf(finds: seq<Find>, j: nat, end: int): int
    requires j <= |finds|
  {
    if j < |finds| then finds[j].bit else end
  }

  lemma {:induction false} ChainedFrom(v: View, finds: seq<Find>, bit: int, end: int, j: nat)
    requires Chained(finds, bit, end) && j <= |finds| && forall f :: f in finds ==> Credible(v, f)
    ensures bit <= StartOf(finds, j, end)
  {
    hide Genuine;
    if j > 0 {
      assert Credible(v, finds[0]);
      ChainedFrom(v, finds[1..], Resume(finds[0]), end, j - 1);
    }
  }

  lemma {:induction false} ChainedOrder(v: View, finds: seq<Find>, bit: int, end: int, i: nat, j: nat)
    requires Chained(finds, bit, end) && i < j <= |finds| && forall f :: f in finds ==> Credible(v, f)
    ensures Resume(finds[i]) <= StartOf(finds, j, end)
  {
    hide Credible;
    if i == 0 {
      ChainedFrom(v, finds[1..], Resume(finds[0]), end, j - 1);
    } else {
      ChainedOrder(v, finds[1..], Resume(finds[0]), end, i - 1, j - 1);
    }
  }

  lemma NextBehind(v: View, f: Find, g: Find)
    requires Credible(v, f) && Credible(v, g) && Resume(f) <= g.bit
    ensures Before(f.hit.report, g.hit.report.timestamp)
  {
    hide Genuine;
  }

  lemma FindInPass(v: View, f: Find, end: int)
    requires Credible(v, f) && Resume(f) <= end
    ensures v.offset + 2 <= f.hit.report.timestamp <= v.offset + (end - SYNC_BITS) * 2 + 2
  {
    hide Genuine;
  }

  lemma PassFacts(v: View)
    requires Ready(v)
    ensures var (processed, reports) := PassOver(v);
            && PassInBounds(v, processed, reports) && InOrder(reports)
            && forall i :: 0 <= i < |reports| ==> Genuine(reports[i], v)
  {
    hide Scan, Genuine, Ready, Before, Chained, Credible;
    var (end, finds) := WholeScan(v);
    ScanFacts(v, 0, Zeros(SYNC_BITS), Zeros(SYNC_BITS));
    forall i | 0 <= i < |finds|
      ensures Genuine(finds[i].hit.report, v) && Searched(|v.phi|, finds[i].bit)
      ensures v.offset + 2 <= finds[i].hit.report.timestamp <= v.offset + (end - SYNC_BITS) * 2 + 2
    {
      ChainedOrder(v, finds, 0, end, i, |finds|);
      FindInPass(v, finds[i], end);
      CredibleFind(v, finds[i]);
    }
    forall i | 0 < i < |finds| ensures Before(finds[i - 1].hit.report, finds[i].hit.report.timestamp) {
      ChainedOrder(v, finds, 0, end, i - 1, i);
      NextBehind(v, finds[i - 1], finds[i]);
    }
    if finds != [] {
      assert Searched(|v.phi|, finds[0].bit);
    }
  }

  lemma CredibleFind(v: View, f: Find)
    requires Credible(v, f)
    ensures Genuine(f.hit.report, v) && Searched(|v.phi|, f.bit)
  {
  }

  // ---- Nothing is missed ----

  // The n phase difference signs from position from on, of the pairs starting at even (0) or odd (1) samples
  function Signs(phi: seq<uint16>, shift: nat, from: nat, n: nat): (s: Bits)
    requires shift <= 1 && 2 * (from + n) + shift < |phi|
    ensures |s| == n
  {
    seq(n, i requires 0 <= i < n => Sign(phi, 2 * (from + i) + shift))
  }

  // The frame at a position, the registers holding exactly the 36 signs up to it
  function CleanHit(v: View, bit: nat): Option<Hit>
    requires Ready(v) && Searched(|v.phi|, bit)
  {
    HitAt(v, bit, Signs(v.phi, 0, bit + 1 - SYNC_BITS, SYNC_BITS), Signs(v.phi, 1, bit + 1 - SYNC_BITS, SYNC_BITS))
  }

  // The register holds the signs since start, or the last 36 of them, behind what it held before.
  ghost predicate Holds(s: Bits, phi: seq<uint16>, shift: nat, start: nat, bit: nat) {
    && |s| == SYNC_BITS && shift <= 1 && start <= bit && 2 * bit + shift < |phi|
    && var n := if bit - start <= SYNC_BITS then bit - start else SYNC_BITS;
       s[SYNC_BITS - n..] == Signs(phi, shift, bit - n, n)
  }

  lemma HoldsNext(s: Bits, phi: seq<uint16>, shift: nat, start: nat, bit: nat)
    requires Holds(s, phi, shift, start, bit) && 2 * (bit + 1) + shift < |phi|
    ensures Holds(Shifted(s, Sign(phi, 2 * bit + shift)), phi, shift, start, bit + 1)
  {
    hide Sign;
    var n := if bit - start <= SYNC_BITS then bit - start else SYNC_BITS;
    var m := if bit + 1 - start <= SYNC_BITS then bit + 1 - start else SYNC_BITS;
    var t := Shifted(s, Sign(phi, 2 * bit + shift));
    var tail, signs := t[SYNC_BITS - m..], Signs(phi, shift, bit + 1 - m, m);
    forall i | 0 <= i < m ensures tail[i] == signs[i] {
      if i < m - 1 {
        assert t[SYNC_BITS - m + i] == s[SYNC_BITS - n..][n - m + 1 + i];
      }
    }
  }

  lemma HoldsNothing(s: Bits, phi: seq<uint16>, shift: nat, bit: nat)
    requires |s| == SYNC_BITS && shift <= 1 && 2 * bit + shift < |phi|
    ensures Holds(s, phi, shift, bit, bit)
  {
  }

  lemma HoldsAll(s: Bits, phi: seq<uint16>, shift: nat, start: nat, bit: nat)
    requires Holds(s, phi, shift, start, bit) && bit - start >= SYNC_BITS
    ensures s == Signs(phi, shift, bit - SYNC_BITS, SYNC_BITS)
  {
    assert s[0..] == s;
  }

  // No frame before the position reaches into the 36 signs up to it.
  ghost predicate Clear(finds: seq<Find>, bit: nat) {
    forall f :: f in finds && f.bit < bit ==> f.bit + f.hit.skip < bit
  }

  lemma {:induction false} ScanMissesNothing(v: View, start: nat, bit: nat, s0: Bits, s1: Bits, b: nat, h: Hit)
    requires Ready(v) && Searched(|v.phi|, b) && bit <= b && start + SYNC_BITS - 1 <= b && |s0| == |s1| == SYNC_BITS
    requires Holds(s0, v.phi, 0, start, bit) && Holds(s1, v.phi, 1, start, bit)
    requires Clear(Scan(v, bit, s0, s1).1, b)
    ensures Find(b, h) in Scan(v, bit, s0, s1).1 <==> CleanHit(v, b) == Some(h)
    decreases b - bit
  {
    hide HitAt, Ready, Sign, Shifted, Holds, Signs, CleanHit, Clear;
    var t0, t1 := Shifted(s0, Sign(v.phi, 2 * bit)), Shifted(s1, Sign(v.phi, 2 * bit + 1));
    HoldsNext(s0, v.phi, 0, start, bit);
    HoldsNext(s1, v.phi, 1, start, bit);
    var found := if bit >= SYNC_BITS then HitAt(v, bit, t0, t1) else None;
    if bit == b {
      CleanAt(v, start, b, t0, t1);
      LaterFinds(v, if found.Some? then Resume(Find(b, found.value)) else b + 1, t0, t1, Find(b, h));
    } else if found.Some? {
      var f := Find(bit, found.value);
      ClearRest(f, Scan(v, Resume(f), t0, t1).1, b);
      HoldsNothing(t0, v.phi, 0, Resume(f));
      HoldsNothing(t1, v.phi, 1, Resume(f));
      ScanMissesNothing(v, Resume(f), Resume(f), t0, t1, b, h);
    } else {
      ScanMissesNothing(v, start, bit + 1, t0, t1, b, h);
    }
  }

  lemma CleanAt(v: View, start: nat, b: nat, t0: Bits, t1: Bits)
    requires Ready(v) && Searched(|v.phi|, b) && start + SYNC_BITS - 1 <= b
    requires Holds(t0, v.phi, 0, start, b + 1) && Holds(t1, v.phi, 1, start, b + 1)
    ensures |t0| == |t1| == SYNC_BITS && HitAt(v, b, t0, t1) == CleanHit(v, b)
  {
    hide HitAt, Ready, Sign;
    HoldsAll(t0, v.phi, 0, start, b + 1);
    HoldsAll(t1, v.phi, 1, start, b + 1);
  }

  lemma ClearRest(f: Find, rest: seq<Find>, bit: nat)
    requires Clear([f] + rest, bit)
    ensures Clear(rest, bit) && (f.bit < bit ==> Resume(f) + SYNC_BITS - 1 <= bit)
  {
    assert f in [f] + rest;
    forall g | g in rest && g.bit < bit ensures g.bit + g.hit.skip < bit {
      assert g in [f] + rest;
    }
  }

  lemma LaterFinds(v: View, bit: nat, s0: Bits, s1: Bits, f: Find)
    requires Ready(v) && |s0| == |s1| == SYNC_BITS && f.bit < bit
    ensures f !in Scan(v, bit, s0, s1).1
  {
    hide Scan, Credible;
    var (end, finds) := Scan(v, bit, s0, s1);
    ScanFacts(v, bit, s0, s1);
    if f in finds {
      var i :| 0 <= i < |finds| && finds[i] == f;
      ChainedFrom(v, finds, bit, end, i);
    }
  }

  // ---- The frame at a position, written out ----

  // The phase turns forward by less than half a circle.
  predicate Rises(a: uint16, b: uint16) {
    0 < (b - a) % 65536 < 32768
  }

  // Of the 36 bits up to the position, taken from the pairs of samples that start at even (0) or odd (1)
  // ones, all but at most four are those of the word.
  ghost predicate Shows(v: View, bit: nat, shift: nat, word: nat)
    requires shift <= 1 && 36 <= bit < |v.phi| / 2 - 4452
  {
    var from := 2 * (bit - 35) + shift;
    var bits := seq(36, i requires 0 <= i < 36 => Rises(v.phi[from + 2 * i], v.phi[from + 2 * i + 1]));
    |Differing(bits, LowBits(word, 36))| <= 4
  }

  // The downlink word in the even pairs and in the odd ones, then the uplink word
  ghost predicate ShowsOf(v: View, bit: nat, r: nat)
    requires 36 <= bit < |v.phi| / 2 - 4452
  {
    Shows(v, bit, r % 2, if r < 2 then 0xE_ACDD_A4E2 else 0x1_5322_5B1D)
  }

  // The first of the four that shows decides which samples are demodulated and how.
  ghost predicate FrameAt(v: View, bit: nat, h: Hit)
    requires Ready(v) && 36 <= bit < |v.phi| / 2 - 4452
  {
    exists r: nat ::
      && r < 4 && ShowsOf(v, bit, r) && (forall q: nat :: q < r ==> !ShowsOf(v, bit, q))
      && Winner(v, 2 * (bit - 35) + r % 2, r >= 2, h.skip, h.report)
  }

  lemma SignIsRise(a: uint16, b: uint16)
    ensures PhiDifference(a, b) > 0 <==> Rises(a, b)
  {
  }

  lemma ShowsNear(v: View, bit: nat, shift: nat, word: nat)
    requires shift <= 1 && Searched(|v.phi|, bit)
    ensures var signs := Signs(v.phi, shift, bit + 1 - SYNC_BITS, SYNC_BITS);
            Shows(v, bit, shift, word) <==> |Differing(signs, LowBits(word, 36))| <= 4
  {
    hide LowBits, Differing;
    var from, signs := 2 * (bit - 35) + shift, Signs(v.phi, shift, bit + 1 - SYNC_BITS, SYNC_BITS);
    var bits := seq(36, i requires 0 <= i < 36 => Rises(v.phi[from + 2 * i], v.phi[from + 2 * i + 1]));
    forall i | 0 <= i < 36 ensures bits[i] == signs[i] {
      assert signs[i] == Sign(v.phi, 2 * (bit + 1 - SYNC_BITS + i) + shift);
      assert 2 * (bit + 1 - SYNC_BITS + i) + shift == from + 2 * i;
      SignIsRise(v.phi[from + 2 * i], v.phi[from + 2 * i + 1]);
    }
    assert bits == signs;
  }

  lemma CleanHitIsFrame(v: View, bit: nat, h: Hit)
    requires Ready(v) && Searched(|v.phi|, bit)
    ensures CleanHit(v, bit) == Some(h) <==> FrameAt(v, bit, h)
  {
    hide Shows, Winner, Signs, Decodes, HitAt, Differing, LowBits;
    var s0, s1 := Signs(v.phi, 0, bit + 1 - SYNC_BITS, SYNC_BITS), Signs(v.phi, 1, bit + 1 - SYNC_BITS, SYNC_BITS);
    HitIsFrame(v, bit, s0, s1, h);
    forall r: nat | r < 4 ensures ShowsOf(v, bit, r) <==> Near(s0, s1, r) {
      ShowsNear(v, bit, r % 2, if r < 2 then 0xE_ACDD_A4E2 else 0x1_5322_5B1D);
    }
    hide ShowsOf, Near;
  }

  lemma FrameOnce(v: View, bit: nat, h: Hit, g: Hit)
    requires Ready(v) && 36 <= bit < |v.phi| / 2 - 4452 && FrameAt(v, bit, h) && FrameAt(v, bit, g)
    ensures h == g
  {
    hide *;
    InRange(|v.phi|, bit);
    CleanHitIsFrame(v, bit, h);
    CleanHitIsFrame(v, bit, g);
  }

  // One of the two demodulations succeeds.
  ghost predicate Demodulates(v: View, bit: nat, r: nat)
    requires 36 <= bit < |v.phi| / 2 - 4452
  {
    var at := 2 * (bit - 35) + r % 2;
    if r < 2 then v.receiver.adsb(v.phi[at..at + 840]).skip > 0 || v.receiver.adsb(v.phi[at + 1..at + 841]).skip > 0
    else v.receiver.uplink(v.phi[at..at + 8904]).skip > 0 || v.receiver.uplink(v.phi[at + 1..at + 8905]).skip > 0
  }

  lemma DemodulatesIs(v: View, bit: nat, r: nat)
    requires Ready(v) && 36 <= bit < |v.phi| / 2 - 4452
    ensures Demodulates(v, bit, r) <==> exists h: Hit :: Winner(v, 2 * (bit - 35) + r % 2, r >= 2, h.skip, h.report)
  {
    hide Winner, Best, Decodes, Genuine, Demodulates;
    DemodulatesBest(v, bit, r);
    WinnerExists(v, 2 * (bit - 35) + r % 2, r >= 2);
  }

  lemma WinnerExists(v: View, at: nat, uplink: bool)
    requires Ready(v) && at + 1 + Window(uplink) <= |v.phi|
    ensures (exists h: Hit :: Winner(v, at, uplink, h.skip, h.report)) <==> Best(v, at, uplink).Some?
  {
    hide *;
    BestWins(v, at, uplink);
    if h: Hit :| Winner(v, at, uplink, h.skip, h.report) {
      BestExactly(v, at, uplink, h);
    }
  }

  lemma DemodulatesBest(v: View, bit: nat, r: nat)
    requires Ready(v) && 36 <= bit < |v.phi| / 2 - 4452
    ensures Demodulates(v, bit, r) <==> Best(v, 2 * (bit - 35) + r % 2, r >= 2).Some?
  {
    var at := 2 * (bit - 35) + r % 2;
    DemodReads(v, at, r >= 2);
    DemodReads(v, at + 1, r >= 2);
    BestWins(v, at, r >= 2);
    hide Winner, Best, Decodes, DemodAt, Genuine, Window;
  }

  // There is one exactly when one of the four shows and the demodulation succeeds from the sample where
  // its pairs start, or from the next.
  lemma FrameExists(v: View, bit: nat)
    requires Ready(v) && 36 <= bit < |v.phi| / 2 - 4452
    ensures (exists h: Hit :: FrameAt(v, bit, h)) <==>
            exists r: nat ::
              r < 4 && ShowsOf(v, bit, r) && (forall q: nat :: q < r ==> !ShowsOf(v, bit, q)) && Demodulates(v, bit, r)
  {
    hide ShowsOf, Winner, Decodes, Demodulates;
    forall r: nat
      ensures Demodulates(v, bit, r) <==>
              exists h: Hit :: Winner(v, 2 * (bit - 35) + r % 2, r >= 2, h.skip, h.report)
    {
      DemodulatesIs(v, bit, r);
    }
    if r: nat :| r < 4 && ShowsOf(v, bit, r) && (forall q: nat :: q < r ==> !ShowsOf(v, bit, q))
                 && Demodulates(v, bit, r) {
      var h: Hit :| Winner(v, 2 * (bit - 35) + r % 2, r >= 2, h.skip, h.report);
      assert FrameAt(v, bit, h);
    }
  }

  // At a position whose 36 signs lie behind the frames before, the search finds a frame exactly when
  // the signs are within four bits of a sync word and a demodulation succeeds, and finds that one.
  lemma NothingMissed(v: View, bit: nat, h: Hit)
    requires Ready(v) && 36 <= bit < |v.phi| / 2 - 4452 && Clear(WholeScan(v).1, bit)
    ensures Find(bit, h) in WholeScan(v).1 <==> FrameAt(v, bit, h)
  {
    hide *;
    assert Searched(|v.phi|, bit) by {
      InRange(|v.phi|, bit);
    }
    CleanFinds(v, bit, h);
    CleanHitIsFrame(v, bit, h);
  }

  lemma InRange(len: nat, bit: nat)
    ensures Searched(len, bit) <==> 36 <= bit < len / 2 - 4452
  {
  }

  lemma CleanFinds(v: View, bit: nat, h: Hit)
    requires Ready(v) && Searched(|v.phi|, bit) && Clear(WholeScan(v).1, bit)
    ensures Find(bit, h) in WholeScan(v).1 <==> CleanHit(v, bit) == Some(h)
  {
    hide Scan, Ready, Clear, CleanHit;
    HoldsNothing(Zeros(SYNC_BITS), v.phi, 0, 0);
    HoldsNothing(Zeros(SYNC_BITS), v.phi, 1, 0);
    ScanMissesNothing(v, 0, 0, Zeros(SYNC_BITS), Zeros(SYNC_BITS), bit, h);
  }

  ghost predicate NoneBefore(v: View, bit: nat)
    requires Ready(v)
  {
    forall b: nat, h: Hit :: b < bit && 36 <= b < |v.phi| / 2 - 4452 ==> !FrameAt(v, b, h)
  }

  // What is found first is a frame at a clean position.
  lemma FirstIsClean(v: View)
    requires Ready(v) && WholeScan(v).1 != []
    ensures var f := WholeScan(v).1[0]; Searched(|v.phi|, f.bit) && FrameAt(v, f.bit, f.hit)
    ensures forall g :: g in WholeScan(v).1 ==> WholeScan(v).1[0].bit <= g.bit
  {
    hide Scan, Ready, FrameAt, Genuine;
    var (end, finds) := WholeScan(v);
    ScanFacts(v, 0, Zeros(SYNC_BITS), Zeros(SYNC_BITS));
    assert Credible(v, finds[0]);
    forall g | g in finds ensures finds[0].bit <= g.bit {
      var i :| 0 <= i < |finds| && finds[i] == g;
      if i > 0 {
        ChainedOrder(v, finds, 0, end, 0, i);
      }
    }
    NothingMissed(v, finds[0].bit, finds[0].hit);
  }

  // A pass reports first what is found at the first position where the 36 phase difference signs
  // are within four bits of a sync word and a demodulation succeeds.
  lemma FirstFrame(v: View, bit: nat, h: Hit)
    requires Ready(v) && 36 <= bit < |v.phi| / 2 - 4452 && NoneBefore(v, bit) && FrameAt(v, bit, h)
    ensures var reports := PassOver(v).1; reports != [] && reports[0] == h.report
  {
    hide Scan, Ready, FrameAt, WholeScan;
    var finds := WholeScan(v).1;
    if finds != [] {
      FirstIsClean(v);
    }
    forall f | f in finds ensures bit <= f.bit {
      assert f.bit >= finds[0].bit;
    }
    NothingMissed(v, bit, h);
    FrameOnce(v, bit, h, finds[0].hit);
  }

  // And nothing when there is no such position.
  lemma NoFrame(v: View)
    requires Ready(v) && NoneBefore(v, |v.phi|)
    ensures PassOver(v) == (Unframed(|v.phi|), [])
  {
    hide Scan, Ready, FrameAt, WholeScan;
    if WholeScan(v).1 != [] {
      FirstIsClean(v);
    }
    PassFacts(v);
  }

  // ---- A view of a part of the samples ----

  // v shows some of the samples of w, from the o-th one on.
  ghost predicate Inside(v: View, w: View, o: nat) {
    && v.receiver == w.receiver && v.offset == w.offset + o && Ready(v) && Ready(w)
    && o + |v.phi| <= |w.phi| && v.phi == w.phi[o..o + |v.phi|]
    && forall k :: 0 <= k < 2 * |v.phi| ==> v.raw[k] == w.raw[2 * o + k]
  }

  lemma DemodInside(v: View, w: View, o: nat, i: nat, uplink: bool)
    requires Inside(v, w, o) && i + Window(uplink) <= |v.phi|
    ensures DemodAt(w, o + i, uplink) == DemodAt(v, i, uplink)
  {
    hide Ready, Decodes, DownlinkDecoded, UplinkDecoded, Window;
    var n := i + Window(uplink);
    assert w.phi[o..o + |v.phi|][i..n] == w.phi[o + i..o + n];
  }

  lemma {:induction false} PowerInside(v: View, w: View, o: nat, from: nat, n: nat)
    requires Inside(v, w, o) && from + n <= |v.phi|
    ensures PowerSum(w.raw, o + from, n, v.receiver.amplitude) == PowerSum(v.raw, from, n, v.receiver.amplitude)
  {
    hide Decodes;
    if n > 0 {
      PowerInside(v, w, o, from, n - 1);
      var k := 2 * (from + n - 1);
      assert v.raw[k] == w.raw[2 * o + k] && v.raw[k + 1] == w.raw[2 * o + (k + 1)];
    }
  }

  lemma HitInside(v: View, w: View, o: nat, at: nat, measured: nat, uplink: bool)
    requires Inside(v, w, o) && at + Window(uplink) <= |v.phi| && measured <= at && DemodAt(v, at, uplink).skip > 0
    ensures DemodAt(w, o + at, uplink).skip > 0
            && HitOf(w, o + at, o + measured, uplink) == HitOf(v, at, measured, uplink)
  {
    hide Decodes, PowerSum, DataOf;
    DemodInside(v, w, o, at, uplink);
    PowerInside(v, w, o, measured, 2 * DemodAt(v, at, uplink).skip);
  }

  // A report from some of the samples is one from all of them.
  lemma GenuineInside(r: Report, v: View, w: View, o: nat)
    requires Inside(v, w, o) && Genuine(r, v)
    ensures Genuine(r, w)
  {
    hide DemodAt, HitOf, Ready;
    var i := r.timestamp - v.offset;
    HitInside(v, w, o, i, i, r.uplink);
    if r.uplink && i > 0 {
      HitInside(v, w, o, i, i - 1, true);
    }
  }

  lemma BestInside(v: View, w: View, o: nat, index: nat, uplink: bool)
    requires Inside(v, w, o) && index + 1 + Window(uplink) <= |v.phi|
    ensures Best(w, o + index, uplink) == Best(v, index, uplink)
  {
    hide DemodAt, HitOf, Genuine, Decodes, Window;
    DemodInside(v, w, o, index, uplink);
    DemodInside(v, w, o, index + 1, uplink);
    if DemodAt(v, index, uplink).skip > 0 {
      HitInside(v, w, o, index, index, uplink);
    }
    if DemodAt(v, index + 1, uplink).skip > 0 {
      HitInside(v, w, o, index + 1, if uplink then index else index + 1, uplink);
    }
  }

  lemma SignInside(v: View, w: View, o: nat, k: nat)
    requires Inside(v, w, 2 * o) && k + 1 < |v.phi|
    ensures Sign(w.phi, 2 * o + k) == Sign(v.phi, k)
  {
    hide Ready, PhiDifference;
    assert v.phi[k] == w.phi[2 * o + k] && v.phi[k + 1] == w.phi[2 * o + (k + 1)];
  }

  lemma SignsInside(v: View, w: View, o: nat, shift: nat, from: nat, n: nat)
    requires Inside(v, w, 2 * o) && shift <= 1 && 2 * (from + n) + shift < |v.phi|
    ensures Signs(w.phi, shift, o + from, n) == Signs(v.phi, shift, from, n)
  {
    hide Ready, Sign;
    var a, b := Signs(w.phi, shift, o + from, n), Signs(v.phi, shift, from, n);
    forall i | 0 <= i < n ensures a[i] == b[i] {
      SignInside(v, w, o, 2 * (from + i) + shift);
    }
  }

  lemma HitAtInside(v: View, w: View, o: nat, bit: nat, s0: Bits, s1: Bits)
    requires Inside(v, w, 2 * o) && Searched(|v.phi|, bit) && |s0| == |s1| == SYNC_BITS
    ensures Searched(|w.phi|, o + bit) && HitAt(w, o + bit, s0, s1) == HitAt(v, bit, s0, s1)
  {
    hide Ready, Best, Matches, Genuine;
    var start := 2 * (bit - SYNC_BITS + 1);
    BestInside(v, w, 2 * o, start, false);
    BestInside(v, w, 2 * o, start + 1, false);
    BestInside(v, w, 2 * o, start, true);
    BestInside(v, w, 2 * o, start + 1, true);
    assert 2 * (o + bit - SYNC_BITS + 1) == 2 * o + start;
  }

  // A clean position shows the same frame in both views.
  lemma CleanInside(v: View, w: View, o: nat, bit: nat)
    requires Inside(v, w, 2 * o) && Searched(|v.phi|, bit)
    ensures Searched(|w.phi|, o + bit) && CleanHit(w, o + bit) == CleanHit(v, bit)
  {
    hide Ready, Signs, HitAt, Genuine;
    var from := bit + 1 - SYNC_BITS;
    SignsInside(v, w, o, 0, from, SYNC_BITS);
    SignsInside(v, w, o, 1, from, SYNC_BITS);
    HitAtInside(v, w, o, bit, Signs(v.phi, 0, from, SYNC_BITS), Signs(v.phi, 1, from, SYNC_BITS));
    assert o + bit + 1 - SYNC_BITS == o + from;
  }
}
