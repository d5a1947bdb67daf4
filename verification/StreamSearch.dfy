// dump978/dump978.c, process_data over many calls: the passes together search the whole stream.
module StreamSearch {
  import opened Dump978
  import opened Gf2
  import opened Integers
  import opened Options
  import opened SampleBuffers
  import opened SyncWord

  // ---- What a stretch of positions shows ----

  ghost predicate Exact(v: View, finds: seq<Find>, b: nat)
    requires Ready(v) && Searched(|v.phi|, b)
  {
    forall h: Hit :: Find(b, h) in finds <==> CleanHit(v, b) == Some(h)
  }

  // At every clear position of the stretch the finds are exactly the frames of the view.
  ghost predicate Covers(v: View, finds: seq<Find>, from: int, to: int)
    requires Ready(v)
  {
    && (forall f :: f in finds ==> from <= f.bit < to)
    && forall b: nat :: from <= b < to && Searched(|v.phi|, b) && Clear(finds, b) ==> Exact(v, finds, b)
  }

  lemma CoversJoin(v: View, a: seq<Find>, b: seq<Find>, from: int, mid: int, to: int)
    requires Ready(v) && Covers(v, a, from, mid) && Covers(v, b, mid, to) && from <= mid <= to
    ensures Covers(v, a + b, from, to)
  {
    hide Ready, CleanHit;
    forall p: nat | from <= p < to && Searched(|v.phi|, p) && Clear(a + b, p) ensures Exact(v, a + b, p) {
      ClearParts(a, b, p);
      if p < mid {
        assert Exact(v, a, p);
      } else {
        assert Exact(v, b, p);
      }
    }
  }

  lemma ClearParts(a: seq<Find>, b: seq<Find>, p: nat)
    requires Clear(a + b, p)
    ensures Clear(a, p) && Clear(b, p)
  {
    assert forall f :: f in a || f in b ==> f in a + b;
  }

  // ---- One pass ----

  ghost function Lifted(finds: seq<Find>, o: nat): (l: seq<Find>)
    ensures |l| == |finds|
  {
    seq(|finds|, i requires 0 <= i < |finds| => Find(o + finds[i].bit, finds[i].hit))
  }

  lemma LiftedIn(finds: seq<Find>, o: nat, b: nat, h: Hit)
    ensures Find(o + b, h) in Lifted(finds, o) <==> Find(b, h) in finds
  {
    var l := Lifted(finds, o);
    if Find(b, h) in finds {
      var i :| 0 <= i < |finds| && finds[i] == Find(b, h);
      assert l[i] == Find(o + b, h);
    }
    if Find(o + b, h) in l {
      var i :| 0 <= i < |l| && l[i] == Find(o + b, h);
      assert finds[i] == Find(b, h);
    }
  }

  lemma LiftedClear(finds: seq<Find>, o: nat, b: nat)
    requires Clear(Lifted(finds, o), o + b)
    ensures Clear(finds, b)
  {
    forall f | f in finds && f.bit < b ensures f.bit + f.hit.skip < b {
      LiftedIn(finds, o, f.bit, f.hit);
      assert Find(o + f.bit, f.hit) in Lifted(finds, o);
    }
  }

  // A search ends behind its last position or behind a frame.
  lemma {:induction false} ScanEndsAt(v: View, bit: nat, s0: Bits, s1: Bits)
    requires Ready(v) && |s0| == |s1| == SYNC_BITS
    ensures var (end, finds) := Scan(v, bit, s0, s1);
            || Reached(v, end) || (finds == [] && end == bit) || (finds != [] && Resume(finds[|finds| - 1]) == end)
    decreases |v.phi| - bit
  {
    hide HitAt, Genuine, Ready, Sign, Shifted;
    if InSearch(|v.phi|, bit) {
      var t0, t1 := Shifted(s0, Sign(v.phi, 2 * bit)), Shifted(s1, Sign(v.phi, 2 * bit + 1));
      var h := if bit >= SYNC_BITS then HitAt(v, bit, t0, t1) else None;
      if h.Some? {
        ScanEndsAt(v, Resume(Find(bit, h.value)), t0, t1);
      } else {
        ScanEndsAt(v, bit + 1, t0, t1);
      }
    }
  }

  lemma InsideReady(v: View, w: View, o: nat)
    requires Inside(v, w, o)
    ensures Ready(v) && Ready(w)
  {
  }

  lemma FindBefore(v: View, i: nat)
    requires Ready(v) && i < |WholeScan(v).1|
    ensures var (end, finds) := WholeScan(v); Searched(|v.phi|, finds[i].bit) && finds[i].bit < Resume(finds[i]) <= end
  {
    hide Scan, Ready, Genuine;
    var (end, finds) := WholeScan(v);
    ScanFacts(v, 0, Zeros(SYNC_BITS), Zeros(SYNC_BITS));
    assert Credible(v, finds[i]);
    ChainedOrder(v, finds, 0, end, i, |finds|);
  }

  // A clear position before the end of the search was searched.
  lemma ClearIsSearched(v: View, b: nat)
    requires Ready(v) && SYNC_BITS <= b < WholeScan(v).0 && Clear(WholeScan(v).1, b)
    ensures Searched(|v.phi|, b)
  {
    hide Scan, Ready;
    var (end, finds) := WholeScan(v);
    ScanEndsAt(v, 0, Zeros(SYNC_BITS), Zeros(SYNC_BITS));
    if finds != [] {
      FindBefore(v, |finds| - 1);
      assert finds[|finds| - 1] in finds;
    }
  }

  // What one pass finds, from its first full registers to its end
  lemma PassCovers(v: View, w: View, o: nat)
    requires Inside(v, w, 2 * o)
    ensures Ready(v) && Ready(w)
    ensures var (end, finds) := WholeScan(v); Covers(w, Lifted(finds, o), o + SYNC_BITS, o + end)
  {
    InsideReady(v, w, 2 * o);
    hide WholeScan, Ready, CleanHit, Clear, Inside, Lifted, Exact;
    var (end, finds) := WholeScan(v);
    forall f | f in Lifted(finds, o) ensures o + SYNC_BITS <= f.bit < o + end {
      FindInStretch(v, o, f);
    }
    forall p: nat | o + SYNC_BITS <= p < o + end && Searched(|w.phi|, p) && Clear(Lifted(finds, o), p)
      ensures Exact(w, Lifted(finds, o), p)
    {
      ExactInPass(v, w, o, p);
    }
  }

  lemma FindInStretch(v: View, o: nat, f: Find)
    requires Ready(v) && f in Lifted(WholeScan(v).1, o)
    ensures o + SYNC_BITS <= f.bit < o + WholeScan(v).0
  {
    hide WholeScan, Ready, Lifted;
    var finds := WholeScan(v).1;
    LiftedFrom(finds, o, f);
    var i :| 0 <= i < |finds| && finds[i] == Find(f.bit - o, f.hit);
    FindBefore(v, i);
  }

  lemma ExactInPass(v: View, w: View, o: nat, p: nat)
    requires Inside(v, w, 2 * o) && Ready(v) && Ready(w) && Searched(|w.phi|, p)
    requires o + SYNC_BITS <= p < o + WholeScan(v).0 && Clear(Lifted(WholeScan(v).1, o), p)
    ensures Exact(w, Lifted(WholeScan(v).1, o), p)
  {
    hide WholeScan, Ready, CleanHit, Clear, Inside, Lifted;
    var b, finds := p - o, WholeScan(v).1;
    assert p == o + b;
    LiftedClear(finds, o, b);
    ClearIsSearched(v, b);
    CleanInside(v, w, o, b);
    forall h: Hit ensures Find(p, h) in Lifted(finds, o) <==> CleanHit(w, p) == Some(h) {
      CleanFinds(v, b, h);
      LiftedIn(finds, o, b, h);
    }
  }

  lemma LiftedFrom(finds: seq<Find>, o: nat, f: Find)
    requires f in Lifted(finds, o)
    ensures f.bit >= o && Find(f.bit - o, f.hit) in finds
  {
    var i :| 0 <= i < |finds| && Lifted(finds, o)[i] == f;
    assert finds[i] == Find(f.bit - o, f.hit);
  }

  lemma LiftedReports(finds: seq<Find>, o: nat)
    ensures ReportsOf(Lifted(finds, o)) == ReportsOf(finds)
  {
  }

  // ---- One call of process_data ----

  // The frames found by the passes over the data, at their positions in the stream
  ghost function FindsOver(rest: seq<uint8>, offset: nat, data: seq<uint8>, d: Receiver): seq<Find>
    requires Decodes(d) && |rest| <= MOST_LEFT
    decreases |data|
  {
    if data == [] then []
    else
      var n := Room(rest, data);
      var bytes := rest + data[..n];
      if |bytes| / 2 < FEWEST_SAMPLES then []
      else
        FewLeft(ViewOf(bytes, offset, d), |bytes|);
        var processed := PassOver(ViewOf(bytes, offset, d)).0;
        Lifted(WholeScan(ViewOf(bytes, offset, d)).1, offset / 2)
        + FindsOver(bytes[2 * processed..], offset + processed, data[n..], d)
  }

  lemma ReportsJoin(a: seq<Find>, b: seq<Find>)
    ensures ReportsOf(a + b) == ReportsOf(a) + ReportsOf(b)
  {
  }

  // They are the frames reported.
  lemma {:induction false} ReportsOver(rest: seq<uint8>, offset: nat, data: seq<uint8>, d: Receiver)
    requires Decodes(d) && |rest| <= MOST_LEFT
    ensures ReportsOf(FindsOver(rest, offset, data, d)) == Processed(rest, offset, data, d).reports
    decreases |data|
  {
    hide Decodes, PhaseImage, WholeScan, ReportsOf, Lifted;
    if data == [] {
      NoReports();
    } else {
      var n := Room(rest, data);
      var bytes := rest + data[..n];
      if |bytes| / 2 < FEWEST_SAMPLES {
        NoReports();
      } else {
        var v := ViewOf(bytes, offset, d);
        FewLeft(v, |bytes|);
        var processed := PassOver(v).0;
        ReportsOver(bytes[2 * processed..], offset + processed, data[n..], d);
        LiftedReports(WholeScan(v).1, offset / 2);
        ReportsJoin(Lifted(WholeScan(v).1, offset / 2),
          FindsOver(bytes[2 * processed..], offset + processed, data[n..], d));
      }
    }
  }

  lemma NoReports()
    ensures ReportsOf([]) == []
  {
  }

  // The bytes left and the data are what the stream s holds from the sample offset on.
  ghost predicate Continues(s: seq<uint8>, rest: seq<uint8>, offset: nat, data: seq<uint8>) {
    && offset % 2 == 0 && 2 * offset + |rest + data| <= |s|
    && s[2 * offset..2 * offset + |rest + data|] == rest + data
  }

  lemma NextBytes(s: seq<uint8>, rest: seq<uint8>, offset: nat, data: seq<uint8>, n: nat, processed: nat)
    requires Continues(s, rest, offset, data) && n <= |data| && 2 * processed <= |rest| + n && processed % 2 == 0
    ensures var bytes := rest + data[..n];
            && 2 * offset + |bytes| <= |s| && s[2 * offset..2 * offset + |bytes|] == bytes
            && Continues(s, bytes[2 * processed..], offset + processed, data[n..])
  {
    var bytes, all := rest + data[..n], rest + data;
    assert all == bytes + data[n..];
    assert bytes == all[..|bytes|];
    assert all[2 * processed..] == bytes[2 * processed..] + data[n..];
    assert s[2 * offset..2 * offset + |all|][..|bytes|] == s[2 * offset..2 * offset + |bytes|];
    assert s[2 * offset..2 * offset + |all|][2 * processed..] == s[2 * (offset + processed)..2 * offset + |all|];
  }

  // One turn of the fold
  lemma OverStep(rest: seq<uint8>, offset: nat, data: seq<uint8>, d: Receiver, n: nat, bytes: seq<uint8>)
    requires Decodes(d) && |rest| <= MOST_LEFT && data != [] && n == Room(rest, data) && bytes == rest + data[..n]
    requires |bytes| / 2 >= FEWEST_SAMPLES
    ensures var v := ViewOf(bytes, offset, d);
            var processed := PassOver(v).0;
            && 0 <= processed && processed % 2 == 0 && 2 * processed <= |bytes| && |bytes| - 2 * processed <= MOST_LEFT
            && FindsOver(rest, offset, data, d)
               == Lifted(WholeScan(v).1, offset / 2)
               + FindsOver(bytes[2 * processed..], offset + processed, data[n..], d)
            && var o := Processed(rest, offset, data, d);
               var later := Processed(bytes[2 * processed..], offset + processed, data[n..], d);
               o.ok == later.ok && o.rest == later.rest && o.offset == later.offset
  {
    hide Decodes, PhaseImage, WholeScan, Lifted;
    FewLeft(ViewOf(bytes, offset, d), |bytes|);
  }

  lemma OverNothing(rest: seq<uint8>, offset: nat, data: seq<uint8>, d: Receiver)
    requires Decodes(d) && |rest| <= MOST_LEFT
    requires data == [] || |rest + data[..Room(rest, data)]| / 2 < FEWEST_SAMPLES
    ensures FindsOver(rest, offset, data, d) == [] && Processed(rest, offset, data, d).offset == offset
    ensures Processed(rest, offset, data, d).ok <==> data == []
    ensures data == [] ==> Processed(rest, offset, data, d).rest == rest
  {
  }

  lemma {:induction false} FindsCover(s: seq<uint8>, rest: seq<uint8>, offset: nat, data: seq<uint8>, d: Receiver)
    requires Decodes(d) && |rest| <= MOST_LEFT && Continues(s, rest, offset, data)
    ensures var o := Processed(rest, offset, data, d);
            && o.offset % 2 == 0 && offset <= o.offset
            && (o.ok ==> Continues(s, o.rest, o.offset, []) && 2 * o.offset + |o.rest| == 2 * offset + |rest| + |data|)
            && Covers(ViewOf(s, 0, d), FindsOver(rest, offset, data, d),
                      offset / 2 + SYNC_BITS, o.offset / 2 + SYNC_BITS)
    decreases |data|
  {
    hide Decodes, ViewOf, WholeScan, Lifted, Covers, Continues, FindsOver, Processed, PassOver;
    var w := ViewOf(s, 0, d);
    var n := Room(rest, data);
    var bytes := rest + data[..n];
    if data == [] || |bytes| / 2 < FEWEST_SAMPLES {
      CoversNothing(w, offset / 2 + SYNC_BITS);
      NoData(s, rest, offset, data);
      OverNothing(rest, offset, data, d);
    } else {
      var v := ViewOf(bytes, offset, d);
      OverStep(rest, offset, data, d, n, bytes);
      var processed := PassOver(v).0;
      NextBytes(s, rest, offset, data, n, processed);
      FindsCover(s, bytes[2 * processed..], offset + processed, data[n..], d);
      NoData(s, rest, offset, data);
      PartCovers(s, offset, |bytes|, d);
      CoversJoin(w, Lifted(WholeScan(v).1, offset / 2),
        FindsOver(bytes[2 * processed..], offset + processed, data[n..], d),
                 offset / 2 + SYNC_BITS, (offset + processed) / 2 + SYNC_BITS,
                 Processed(rest, offset, data, d).offset / 2 + SYNC_BITS);
    }
  }

  lemma CoversNothing(v: View, at: int)
    requires Ready(v)
    ensures Covers(v, [], at, at)
  {
  }

  lemma NoData(s: seq<uint8>, rest: seq<uint8>, offset: nat, data: seq<uint8>)
    requires Continues(s, rest, offset, data)
    ensures offset % 2 == 0 && (data == [] ==> Continues(s, rest, offset, []))
  {
  }

  lemma PartCovers(s: seq<uint8>, offset: nat, n: nat, d: Receiver)
    requires Decodes(d) && offset % 2 == 0 && 2 * offset + n <= |s| && n / 2 >= FEWEST_SAMPLES
    ensures var v := ViewOf(s[2 * offset..2 * offset + n], offset, d);
            && PassOver(v).0 % 2 == 0
            && Covers(ViewOf(s, 0, d), Lifted(WholeScan(v).1, offset / 2),
                      offset / 2 + SYNC_BITS, (offset + PassOver(v).0) / 2 + SYNC_BITS)
  {
    hide Decodes, WholeScan, Covers, Lifted, Inside, PassOver, ViewOf;
    var v := ViewOf(s[2 * offset..2 * offset + n], offset, d);
    PartInside(s, offset, n, d);
    PassCovers(v, ViewOf(s, 0, d), offset / 2);
    EndOfPass(v, offset);
  }

  lemma EndOfPass(v: View, offset: nat)
    requires Ready(v) && offset % 2 == 0
    ensures PassOver(v).0 % 2 == 0 && (offset + PassOver(v).0) / 2 + SYNC_BITS == offset / 2 + WholeScan(v).0
  {
    hide WholeScan, Ready;
  }

  // ---- Any number of calls, from the empty buffer on ----

  function Joined(datas: seq<seq<uint8>>): seq<uint8> {
    if datas == [] then [] else Joined(datas[..|datas| - 1]) + datas[|datas| - 1]
  }

  // The calls stop at the first that is not ok.
  function Calls(datas: seq<seq<uint8>>, d: Receiver): (o: Outcome)
    requires Decodes(d)
    ensures o.ok ==> |o.rest| <= MOST_LEFT
  {
    if datas == [] then Outcome(true, [], [], 0)
    else
      var before := Calls(datas[..|datas| - 1], d);
      if !before.ok then before
      else Behind(before.reports, Processed(before.rest, before.offset, datas[|datas| - 1], d))
  }

  // The frames they find, at their positions in the stream
  ghost function CallFinds(datas: seq<seq<uint8>>, d: Receiver): seq<Find>
    requires Decodes(d)
  {
    if datas == [] then []
    else
      var before, finds := Calls(datas[..|datas| - 1], d), CallFinds(datas[..|datas| - 1], d);
      if !before.ok then finds else finds + FindsOver(before.rest, before.offset, datas[|datas| - 1], d)
  }

  lemma {:induction false} CallReports(datas: seq<seq<uint8>>, d: Receiver)
    requires Decodes(d)
    ensures ReportsOf(CallFinds(datas, d)) == Calls(datas, d).reports
  {
    hide Decodes, Processed, FindsOver, ReportsOf;
    if datas == [] {
      NoReports();
    } else {
      var front, last := datas[..|datas| - 1], datas[|datas| - 1];
      CallReports(front, d);
      var before := Calls(front, d);
      if before.ok {
        ReportsOver(before.rest, before.offset, last, d);
        ReportsJoin(CallFinds(front, d), FindsOver(before.rest, before.offset, last, d));
      }
    }
  }

  // Behind the calls so far the stream goes on with the bytes left.
  ghost predicate Caught(s: seq<uint8>, o: Outcome, taken: nat) {
    o.offset % 2 == 0 && (o.ok ==> Continues(s, o.rest, o.offset, []) && 2 * o.offset + |o.rest| == taken)
  }

  lemma MoreData(s: seq<uint8>, o: Outcome, before: seq<uint8>, data: seq<uint8>)
    requires o.ok && Caught(s, o, |before|) && before + data <= s
    ensures Continues(s, o.rest, o.offset, data)
  {
    var from := 2 * o.offset;
    assert o.rest + [] == o.rest;
    assert s[from..|before|] == o.rest;
    assert s[|before|..|before| + |data|] == data by {
      assert (before + data)[|before|..] == data;
    }
    assert s[from..|before| + |data|] == s[from..|before|] + s[|before|..|before| + |data|];
  }

  lemma {:induction false} CallsCover(s: seq<uint8>, datas: seq<seq<uint8>>, d: Receiver)
    requires Decodes(d) && Joined(datas) <= s
    ensures var o := Calls(datas, d);
            && Caught(s, o, |Joined(datas)|)
            && Covers(ViewOf(s, 0, d), CallFinds(datas, d), SYNC_BITS, o.offset / 2 + SYNC_BITS)
  {
    hide Decodes, ViewOf, Covers, Processed, FindsOver, Continues;
    var w := ViewOf(s, 0, d);
    if datas == [] {
      CoversNothing(w, SYNC_BITS);
      NothingCaught(s);
    } else {
      var front, last := datas[..|datas| - 1], datas[|datas| - 1];
      CallsCover(s, front, d);
      var before := Calls(front, d);
      if before.ok {
        MoreData(s, before, Joined(front), last);
        FindsCover(s, before.rest, before.offset, last, d);
        CoversJoin(w, CallFinds(front, d), FindsOver(before.rest, before.offset, last, d),
                   SYNC_BITS, before.offset / 2 + SYNC_BITS, Calls(datas, d).offset / 2 + SYNC_BITS);
      }
    }
  }

  lemma NothingCaught(s: seq<uint8>)
    ensures Continues(s, [], 0, [])
  {
  }

  // However the stream was cut into calls and passes: at every position whose 36 signs lie behind the
  // frames found before it, a frame is found exactly when the samples of the whole stream show one,
  // and it is reported.
  lemma StreamMissesNothing(datas: seq<seq<uint8>>, d: Receiver, b: nat, h: Hit)
    requires Decodes(d) && Calls(datas, d).ok && 36 <= b < |Joined(datas)| / 2 / 2 - 4452
    requires Clear(CallFinds(datas, d), b)
    ensures Find(b, h) in CallFinds(datas, d) <==> FrameAt(ViewOf(Joined(datas), 0, d), b, h)
    ensures Find(b, h) in CallFinds(datas, d) ==> h.report in Calls(datas, d).reports
  {
    hide Decodes, CleanHit, FrameAt, Clear, CallFinds, Calls, Continues;
    var s, o := Joined(datas), Calls(datas, d);
    InRange(|s| / 2, b);
    CleanHitIsFrame(ViewOf(s, 0, d), b, h);
    CallsCover(s, datas, d);
    CallReports(datas, d);
    assert o.offset / 2 + SYNC_BITS > b by {
      hide Covers;
      LittleLeft(s, o, b);
    }
    assert Exact(ViewOf(s, 0, d), CallFinds(datas, d), b);
    if Find(b, h) in CallFinds(datas, d) {
      Reported(CallFinds(datas, d), Find(b, h));
    }
  }

  lemma LittleLeft(s: seq<uint8>, o: Outcome, b: nat)
    requires o.ok && Caught(s, o, |s|) && |o.rest| <= MOST_LEFT && Searched(|s| / 2, b)
    ensures b < o.offset / 2 + SYNC_BITS
  {
    hide Continues;
  }

  lemma Reported(finds: seq<Find>, f: Find)
    requires f in finds
    ensures f.hit.report in ReportsOf(finds)
  {
    var i :| 0 <= i < |finds| && finds[i] == f;
    assert ReportsOf(finds)[i] == f.hit.report;
  }

  // So two cuttings of one stream agree wherever both are clear, and so do the passes and one search of
  // the whole stream.
  lemma CutsAgree(datas: seq<seq<uint8>>, others: seq<seq<uint8>>, d: Receiver, b: nat, h: Hit)
    requires Decodes(d) && Calls(datas, d).ok && Calls(others, d).ok && Joined(datas) == Joined(others)
    requires 36 <= b < |Joined(datas)| / 2 / 2 - 4452
    requires Clear(CallFinds(datas, d), b) && Clear(CallFinds(others, d), b)
    ensures Find(b, h) in CallFinds(datas, d) <==> Find(b, h) in CallFinds(others, d)
  {
    hide *;
    StreamMissesNothing(datas, d, b, h);
    StreamMissesNothing(others, d, b, h);
  }

  lemma OneSearchAgrees(datas: seq<seq<uint8>>, d: Receiver, b: nat, h: Hit)
    requires Decodes(d) && Calls(datas, d).ok
    requires 36 <= b < |Joined(datas)| / 2 / 2 - 4452
    requires Clear(CallFinds(datas, d), b) && Clear(WholeScan(ViewOf(Joined(datas), 0, d)).1, b)
    ensures Find(b, h) in CallFinds(datas, d) <==> Find(b, h) in WholeScan(ViewOf(Joined(datas), 0, d)).1
  {
    hide Decodes, FrameAt, Clear, CallFinds, Calls, WholeScan, Joined;
    StreamMissesNothing(datas, d, b, h);
    NothingMissed(ViewOf(Joined(datas), 0, d), b, h);
  }
}
