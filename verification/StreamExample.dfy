// dump978/dump978.c, process_data: a stream that is searched differently when it is cut. The next pass
// begins behind a frame with empty registers, where one search still has the bits from before it.
module StreamExample {
  import opened Dump978
  import opened Gf2
  import opened Integers
  import opened Options
  import opened SampleBuffers
  import opened StreamSearch
  import opened SyncWord
  import opened Words

  // ---- The bits of the sync words ----

  function Nibble(a: bool, b: bool, c: bool, d: bool): Bits {
    [a, b, c, d]
  }

  // 0xEACDDA4E2
  function Word(): (w: Bits)
    ensures |w| == SYNC_BITS
  {
    Nibble(true, true, true, false) + Nibble(true, false, true, false) + Nibble(true, true, false, false)
    + Nibble(true, true, false, true) + Nibble(true, true, false, true) + Nibble(true, false, true, false)
    + Nibble(false, true, false, false) + Nibble(true, true, true, false) + Nibble(false, false, true, false)
  }

  lemma NibbleValue(s: Bits, a: bool, b: bool, c: bool, d: bool)
    ensures Value(s + Nibble(a, b, c, d))
         == 16 * Value(s) + (if a then 8 else 0) + (if b then 4 else 0) + (if c then 2 else 0) + (if d then 1 else 0)
  {
    ValueNibble(s, a, b, c, d);
  }

  lemma WordBits()
    ensures LowBits(ADSB_SYNC_WORD, SYNC_BITS) == Word()
  {
    hide Nibble, Value, LowBits;
    var a := [] + Nibble(true, true, true, false);
    var b := a + Nibble(true, false, true, false);
    var c := b + Nibble(true, true, false, false);
    var d := c + Nibble(true, true, false, true);
    var e := d + Nibble(true, true, false, true);
    var f := e + Nibble(true, false, true, false);
    var g := f + Nibble(false, true, false, false);
    var h := g + Nibble(true, true, true, false);
    NoValue();
    NibbleValue([], true, true, true, false);
    NibbleValue(a, true, false, true, false);
    NibbleValue(b, true, true, false, false);
    NibbleValue(c, true, true, false, true);
    NibbleValue(d, true, true, false, true);
    NibbleValue(e, true, false, true, false);
    NibbleValue(f, false, true, false, false);
    NibbleValue(g, true, true, true, false);
    NibbleValue(h, false, false, true, false);
    assert a == Nibble(true, true, true, false);
    assert Word() == h + Nibble(false, false, true, false);
    BitsOfValue(Word());
  }

  lemma NoValue()
    ensures Value([]) == 0
  {
  }

  // The sync words are each other's complement.
  lemma {:induction false} ComplementBits(v: nat, n: nat, i: nat)
    requires v < Pow2(n) && i < n
    ensures LowBits(Pow2(n) - 1 - v, n)[i] == !LowBits(v, n)[i]
  {
    var c := Pow2(n) - 1 - v;
    assert c / 2 == Pow2(n - 1) - 1 - v / 2 && c % 2 == 1 - v % 2;
    if i < n - 1 {
      ComplementBits(v / 2, n - 1, i);
    }
  }

  lemma UplinkBit(i: nat)
    requires i < SYNC_BITS
    ensures LowBits(UPLINK_SYNC_WORD, SYNC_BITS)[i] == !Word()[i]
  {
    hide LowBits, Word;
    SyncWordsFit();
    WordBits();
    ComplementBits(ADSB_SYNC_WORD, SYNC_BITS, i);
    WordsComplement();
  }

  lemma WordsComplement()
    ensures Pow2(SYNC_BITS) - 1 - ADSB_SYNC_WORD == UPLINK_SYNC_WORD
  {
    Powers();
    PowSum(32, 4);
    assert Pow2(4) == 16;
  }

  // Positions at which two bit strings differ give their distance.
  lemma {:induction false} DistanceAtLeast(s: Bits, t: Bits, at: seq<nat>)
    requires |s| == |t| && forall i :: 0 <= i < |at| ==> at[i] < |s| && s[at[i]] != t[at[i]]
    requires forall i, j :: 0 <= i < j < |at| ==> at[i] < at[j]
    ensures Distance(s, t) >= |at|
    decreases |s|
  {
    if at != [] {
      var n, k := |s| - 1, |at| - 1;
      if at[k] == n {
        DistanceAtLeast(s[..n], t[..n], at[..k]);
      } else {
        DistanceAtLeast(s[..n], t[..n], at);
      }
    }
  }

  lemma {:induction false} NoDistance(s: Bits)
    ensures Distance(s, s) == 0
  {
    if s != [] {
      NoDistance(s[..|s| - 1]);
    }
  }

  // The register one position behind the first word; it and the empty one match neither word.
  function Late(): (s: Bits)
    ensures |s| == SYNC_BITS
  {
    Shifted(Word(), Word()[SYNC_BITS - 1])
  }

  lemma LateBits(i: nat)
    requires i < SYNC_BITS - 1
    ensures Late()[i] == Word()[i + 1]
  {
    hide Word;
  }

  lemma FarFromAdsb(s: Bits, at: seq<nat>)
    requires |s| == SYNC_BITS && |at| == MAX_SYNC_ERRORS + 1
    requires forall i :: 0 <= i < |at| ==> at[i] < SYNC_BITS && s[at[i]] != Word()[at[i]]
    requires forall i, j :: 0 <= i < j < |at| ==> at[i] < at[j]
    ensures !Matches(s, ADSB_SYNC_WORD)
  {
    hide Distance, LowBits, Word;
    WordBits();
    DistanceAtLeast(s, LowBits(ADSB_SYNC_WORD, SYNC_BITS), at);
  }

  lemma FarFromUplink(s: Bits, at: seq<nat>)
    requires |s| == SYNC_BITS && |at| == MAX_SYNC_ERRORS + 1
    requires forall i :: 0 <= i < |at| ==> at[i] < SYNC_BITS && s[at[i]] == Word()[at[i]]
    requires forall i, j :: 0 <= i < j < |at| ==> at[i] < at[j]
    ensures !Matches(s, UPLINK_SYNC_WORD)
  {
    hide Distance, LowBits, Word;
    var uplink := LowBits(UPLINK_SYNC_WORD, SYNC_BITS);
    forall i: nat | i < SYNC_BITS ensures uplink[i] == !Word()[i] {
      UplinkBit(i);
    }
    DistanceAtLeast(s, uplink, at);
  }

  lemma LateMatches()
    ensures !Matches(Late(), ADSB_SYNC_WORD) && !Matches(Late(), UPLINK_SYNC_WORD)
  {
    hide Matches, Late;
    forall i: nat | i < SYNC_BITS - 1 ensures Late()[i] == Word()[i + 1] {
      LateBits(i);
    }
    FarFromAdsb(Late(), [2, 3, 4, 5, 6]);
    FarFromUplink(Late(), [0, 1, 8, 10, 12]);
  }

  lemma EmptyMatches()
    ensures !Matches(Zeros(SYNC_BITS), ADSB_SYNC_WORD) && !Matches(Zeros(SYNC_BITS), UPLINK_SYNC_WORD)
  {
    hide Matches;
    FarFromAdsb(Zeros(SYNC_BITS), [0, 1, 2, 4, 6]);
    FarFromUplink(Zeros(SYNC_BITS), [3, 5, 7, 10, 11]);
  }

  // ---- The samples ----

  const FIRST := 1
  const SECOND := 243

  // Two sync words, the first bit of the second just behind the frame that the first begins
  predicate BitAt(b: nat) {
    (FIRST <= b < FIRST + SYNC_BITS && Word()[b - FIRST]) || (SECOND <= b < SECOND + SYNC_BITS && Word()[b - SECOND])
  }

  // The phase steps up between the two samples of a bit that is set.
  function Stream(): (s: seq<uint8>)
    ensures |s| == 19956
  {
    seq(19956, k requires 0 <= k < 19956 => if k % 4 == 2 && BitAt(k / 4) then 1 else 0)
  }

  function ShortFrame(): (f: seq<uint8>)
    ensures |f| == LONG_FRAME_BYTES && f[0] == 0
  {
    seq(LONG_FRAME_BYTES, i => 0)
  }

  // The phase is the first byte, and any samples decode as a short downlink frame.
  function AnyFrame(): (d: Receiver)
    ensures Decodes(d)
  {
    Receiver((i, q) => i, (i, q) => 0, w => Demod(276, 0, ShortFrame()), w => Demod(0, FAILED, []))
  }

  function Whole(): (v: View)
    ensures Ready(v) && |v.phi| == 9978 && v.receiver == AnyFrame()
  {
    ViewOf(Stream(), 0, AnyFrame())
  }

  lemma PhasesOfBits(b: nat)
    requires b < 4989
    ensures var phi := Whole().phi; phi[2 * b] == 0 && phi[2 * b + 1] == if BitAt(b) then 1 else 0
  {
    hide BitAt, Decodes;
    var s := Stream();
    assert (4 * b) % 4 == 0 && (4 * b + 2) % 4 == 2 && (4 * b + 2) / 4 == b;
    assert s[2 * (2 * b)] == 0;
    assert s[2 * (2 * b + 1)] == if BitAt(b) then 1 else 0;
  }

  lemma SignsOfBits(b: nat)
    requires b < 4988
    ensures Sign(Whole().phi, 2 * b) == BitAt(b) && !Sign(Whole().phi, 2 * b + 1)
  {
    hide BitAt, Whole;
    PhasesOfBits(b);
    PhasesOfBits(b + 1);
    assert 2 * (b + 1) == 2 * b + 1 + 1;
  }

  lemma WordSigns(from: nat)
    requires from == FIRST || from == SECOND
    ensures Signs(Whole().phi, 0, from, SYNC_BITS) == Word()
    ensures Signs(Whole().phi, 1, from, SYNC_BITS) == Zeros(SYNC_BITS)
  {
    hide Word, Sign, Whole;
    var a, b := Signs(Whole().phi, 0, from, SYNC_BITS), Signs(Whole().phi, 1, from, SYNC_BITS);
    var word, none := Word(), Zeros(SYNC_BITS);
    forall i: nat | i < SYNC_BITS ensures a[i] == word[i] && b[i] == none[i] {
      SignsOfBits(from + i);
    }
  }

  // ---- What a search finds ----

  lemma WordIsHit(v: View, bit: nat, s1: Bits)
    requires Ready(v) && v.receiver == AnyFrame() && Searched(|v.phi|, bit) && |s1| == SYNC_BITS
    ensures HitAt(v, bit, Word(), s1).Some? && HitAt(v, bit, Word(), s1).value.skip == 276
  {
    hide Word, LowBits, Distance, Ready, Genuine, Strength;
    WordBits();
    NoDistance(Word());
  }

  lemma BothHit()
    ensures CleanHit(Whole(), 36).Some? && CleanHit(Whole(), 36).value.skip == 276
    ensures CleanHit(Whole(), 278).Some?
  {
    hide Word, HitAt, Signs, Ready, Whole;
    WordSigns(FIRST);
    WordSigns(SECOND);
    WordIsHit(Whole(), 36, Zeros(SYNC_BITS));
    WordIsHit(Whole(), 278, Zeros(SYNC_BITS));
  }

  // A search comes to its first possible frame with full registers and keeps them behind it.
  lemma {:induction false} SearchBegins(v: View, bit: nat, s0: Bits, s1: Bits, h: Hit)
    requires Ready(v) && Searched(|v.phi|, SYNC_BITS) && bit <= SYNC_BITS && CleanHit(v, SYNC_BITS) == Some(h)
    requires |s0| == |s1| == SYNC_BITS && Holds(s0, v.phi, 0, 0, bit) && Holds(s1, v.phi, 1, 0, bit)
    ensures var f := Find(SYNC_BITS, h);
            var (end, finds) := Scan(v, Resume(f), Signs(v.phi, 0, 1, SYNC_BITS), Signs(v.phi, 1, 1, SYNC_BITS));
            Scan(v, bit, s0, s1) == (end, [f] + finds)
    decreases SYNC_BITS - bit
  {
    hide HitAt, Ready, Sign, Shifted, Holds, Signs;
    var t0, t1 := Shifted(s0, Sign(v.phi, 2 * bit)), Shifted(s1, Sign(v.phi, 2 * bit + 1));
    HoldsNext(s0, v.phi, 0, 0, bit);
    HoldsNext(s1, v.phi, 1, 0, bit);
    if bit < SYNC_BITS {
      SearchBegins(v, bit + 1, t0, t1, h);
    } else {
      HoldsAll(t0, v.phi, 0, 0, bit + 1);
      HoldsAll(t1, v.phi, 1, 0, bit + 1);
    }
  }

  lemma FirstFound(v: View, h: Hit)
    requires Ready(v) && Searched(|v.phi|, SYNC_BITS) && CleanHit(v, SYNC_BITS) == Some(h)
    ensures var f := Find(SYNC_BITS, h);
            var (end, finds) := Scan(v, Resume(f), Signs(v.phi, 0, 1, SYNC_BITS), Signs(v.phi, 1, 1, SYNC_BITS));
            WholeScan(v) == (end, [f] + finds)
  {
    hide Scan, Ready, CleanHit, Signs;
    HoldsNothing(Zeros(SYNC_BITS), v.phi, 0, 0);
    HoldsNothing(Zeros(SYNC_BITS), v.phi, 1, 0);
    SearchBegins(v, 0, Zeros(SYNC_BITS), Zeros(SYNC_BITS), h);
  }

  // One search of the whole stream meets the second word with its first bit lost.
  lemma OneSearchMisses(h: Hit)
    ensures Find(278, h) !in WholeScan(Whole()).1
  {
    hide Scan, Ready, CleanHit, Signs, Whole, WholeScan;
    BothHit();
    var v := Whole();
    var first := CleanHit(v, 36).value;
    FirstFound(v, first);
    WordSigns(FIRST);
    NotBehind(h);
    assert Find(278, h) != Find(36, first);
  }

  lemma NotBehind(h: Hit)
    ensures Find(278, h) !in Scan(Whole(), 278, Word(), Zeros(SYNC_BITS)).1
  {
    hide Ready, Whole, Word, Sign, Matches, Shifted, Late;
    var v := Whole();
    SignsOfBits(278);
    LateMatches();
    EmptyMatches();
    LateShifts();
    LaterFinds(v, 279, Late(), Zeros(SYNC_BITS), Find(278, h));
  }

  lemma LateShifts()
    ensures Shifted(Word(), BitAt(278)) == Late() && Shifted(Zeros(SYNC_BITS), false) == Zeros(SYNC_BITS)
  {
    var none := Zeros(SYNC_BITS);
    forall i | 0 <= i < SYNC_BITS ensures Shifted(none, false)[i] == none[i] {
    }
  }

  // ---- The stream in two calls ----

  function First(): (s: seq<uint8>)
    ensures |s| == 17956
  {
    Stream()[..17956]
  }

  function Second(): (s: seq<uint8>)
    ensures |s| == 2000
  {
    Stream()[17956..]
  }

  lemma TwoParts()
    ensures Joined([First(), Second()]) == Stream()
  {
    hide Stream, First, Second;
    var a, b := First(), Second();
    var one, none := [a], Joined([]);
    assert [a, b][..1] == one;
    assert Joined(one) == none + a == a;
    PartsOfStream();
  }

  lemma PartsOfStream()
    ensures First() + Second() == Stream()
  {
    hide Stream;
  }

  // The first pass ends behind the first frame.
  lemma FirstPass()
    ensures PassOver(ViewOf(First(), 0, AnyFrame())).0 == 484
  {
    hide Scan, WholeScan, CleanHit, Signs, Stream, AnyFrame, ViewOf, Decodes, Inside;
    var v := FirstView();
    FirstInside();
    InsideReady(v, Whole(), 2 * 0);
    BothHit();
    CleanInside(v, Whole(), 0, 36);
    FirstFound(v, CleanHit(v, 36).value);
    EndsAt(v, 278, Signs(v.phi, 0, 1, SYNC_BITS), Signs(v.phi, 1, 1, SYNC_BITS));
  }

  lemma EndsAt(v: View, bit: nat, s0: Bits, s1: Bits)
    requires Ready(v) && |s0| == |s1| == SYNC_BITS && !InSearch(|v.phi|, bit)
    ensures Scan(v, bit, s0, s1).0 == bit
  {
    hide Ready;
  }

  function FirstView(): (v: View) {
    ViewOf(First(), 0, AnyFrame())
  }

  function SecondView(): (v: View) {
    ViewOf(Stream()[968..], 484, AnyFrame())
  }

  lemma FirstInside()
    ensures Inside(FirstView(), Whole(), 2 * 0) && |FirstView().phi| == 8978
  {
    hide Stream, AnyFrame, Inside, Decodes;
    assert Stream()[2 * 0..2 * 0 + 17956] == First();
    PartInside(Stream(), 0, 17956, AnyFrame());
  }

  lemma SecondInside()
    ensures Inside(SecondView(), Whole(), 2 * 242) && |SecondView().phi| == 9494
  {
    hide Stream, AnyFrame, Inside, Decodes;
    assert Stream()[2 * 484..2 * 484 + 18988] == Stream()[968..];
    PartInside(Stream(), 484, 18988, AnyFrame());
  }

  // The second pass begins there, with empty registers, and finds the frame of the second word.
  lemma SecondPass(h: Hit)
    requires CleanHit(Whole(), 278) == Some(h)
    ensures Ready(SecondView()) && Find(278, h) in Lifted(WholeScan(SecondView()).1, 242)
  {
    hide Scan, WholeScan, CleanHit, Whole, Stream, SecondView, Decodes, Inside, Lifted, Ready;
    var v := SecondView();
    SecondInside();
    InsideReady(v, Whole(), 2 * 242);
    BothHit();
    CleanInside(v, Whole(), 242, 36);
    FirstFound(v, h);
    LiftedIn(WholeScan(v).1, 242, 36, h);
  }

  lemma FirstCall()
    ensures Processed([], 0, First(), AnyFrame()).ok
    ensures Processed([], 0, First(), AnyFrame()).rest == First()[968..]
    ensures Processed([], 0, First(), AnyFrame()).offset == 484
  {
    hide First, Stream, AnyFrame, Decodes, ViewOf, WholeScan, PassOver, Processed, FindsOver, Lifted;
    var a, none: seq<uint8> := First(), [];
    assert none + a[..17956] == a && a[17956..] == [];
    FirstPass();
    OverStep([], 0, a, AnyFrame(), 17956, a);
    OverNothing(a[968..], 484, [], AnyFrame());
  }

  lemma SecondCall(h: Hit)
    requires CleanHit(Whole(), 278) == Some(h)
    ensures Processed(First()[968..], 484, Second(), AnyFrame()).ok
    ensures Find(278, h) in FindsOver(First()[968..], 484, Second(), AnyFrame())
  {
    hide First, Second, Stream, AnyFrame, Decodes, Whole, CleanHit,
         ViewOf, WholeScan, PassOver, Processed, FindsOver, Lifted;
    var a, b, bytes := First(), Second(), Stream()[968..];
    assert b[..2000] == b && b[2000..] == [];
    assert a[968..] + b == bytes by {
      PartsOfStream();
      assert (a + b)[968..] == a[968..] + b;
    }
    OverStep(a[968..], 484, b, AnyFrame(), 2000, bytes);
    SecondPass(h);
    var processed := PassOver(SecondView()).0;
    OverNothing(bytes[2 * processed..], 484 + processed, [], AnyFrame());
  }

  // The same stream, once in two calls and once in one search: what is found at position 278 differs.
  lemma CutDisagrees()
    ensures Calls([First(), Second()], AnyFrame()).ok && Joined([First(), Second()]) == Stream()
    ensures CleanHit(Whole(), 278).Some?
    ensures Find(278, CleanHit(Whole(), 278).value) in CallFinds([First(), Second()], AnyFrame())
    ensures Find(278, CleanHit(Whole(), 278).value) !in WholeScan(Whole()).1
  {
    hide First, Second, Stream, AnyFrame, Decodes, Whole, CleanHit, WholeScan, Processed, FindsOver;
    BothHit();
    var h := CleanHit(Whole(), 278).value;
    TwoParts();
    OneSearchMisses(h);
    FirstCall();
    SecondCall(h);
    var a, b, d := First(), Second(), AnyFrame();
    OneCall(a, d);
    assert [a, b][..1] == [a];
  }

  lemma OneCall(a: seq<uint8>, d: Receiver)
    requires Decodes(d)
    ensures Calls([a], d) == Processed([], 0, a, d)
  {
    hide Decodes, Processed;
    var one := [a];
    var none := one[..0];
    assert none == [];
    BehindNothing(Processed([], 0, a, d));
  }
}
