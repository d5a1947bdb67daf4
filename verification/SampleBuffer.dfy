// dump978/dump978.c, process_data: the sample buffer and its cached phase image.
module SampleBuffers {
  import opened Dump978
  import opened Integers

  const BUFFER_BYTES := 131072
  const PHI_SAMPLES := 65536
  const MOST_LEFT := 17955

  // ---- The phase image ----

  function PhaseImage(bytes: seq<uint8>, phase: (uint8, uint8) -> uint16): (phi: seq<uint16>)
    ensures |phi| == |bytes| / 2
  {
    seq(|bytes| / 2, k requires 0 <= k < |bytes| / 2 => phase(bytes[2 * k], bytes[2 * k + 1]))
  }

  lemma ImageTail(bytes: seq<uint8>, phase: (uint8, uint8) -> uint16, p: nat)
    requires 2 * p <= |bytes|
    ensures PhaseImage(bytes, phase)[p..] == PhaseImage(bytes[2 * p..], phase)
  {
  }

  // Bytes with their phases, as a pass sees them
  function ViewOf(bytes: seq<uint8>, offset: nat, d: Receiver): (v: View)
    ensures Decodes(d) ==> Ready(v)
  {
    View(PhaseImage(bytes, d.phase), bytes, offset, d)
  }

  // What is left after a pass is at most 8977 samples and an odd byte.
  lemma FewLeft(v: View, used: nat)
    requires Ready(v) && |v.phi| == used / 2 >= FEWEST_SAMPLES && used <= BUFFER_BYTES
    ensures var processed := PassOver(v).0;
            processed >= 0 && processed % 2 == 0 && 2 * processed <= used && used - 2 * processed <= MOST_LEFT
  {
    hide PassOver, Ready, Genuine;
    PassFacts(v);
  }

  // ---- The search sees the samples of the stream ----

  // Bytes of the stream, from an even one on, show a part of its samples.
  lemma PartInside(stream: seq<uint8>, o: nat, n: nat, d: Receiver)
    requires Decodes(d) && 2 * o + n <= |stream|
    ensures Inside(ViewOf(stream[2 * o..2 * o + n], o, d), ViewOf(stream, 0, d), o)
  {
    hide Decodes;
    var part := stream[2 * o..2 * o + n];
    PartPhases(stream, o, n, d.phase);
    forall k | 0 <= k < |part| ensures part[k] == stream[2 * o + k] {
    }
  }

  lemma PartPhases(stream: seq<uint8>, o: nat, n: nat, phase: (uint8, uint8) -> uint16)
    requires 2 * o + n <= |stream|
    ensures PhaseImage(stream[2 * o..2 * o + n], phase) == PhaseImage(stream, phase)[o..o + n / 2]
  {
    var part := stream[2 * o..2 * o + n];
    var a, b := PhaseImage(part, phase), PhaseImage(stream, phase);
    forall k | 0 <= k < n / 2 ensures a[k] == b[o + k] {
      assert part[2 * k] == stream[2 * (o + k)] && part[2 * k + 1] == stream[2 * (o + k) + 1];
    }
  }

  // The report comes from a demodulator that succeeded on the stream's own samples from the timestamp on.
  ghost predicate FoundIn(r: Report, d: Receiver, stream: seq<uint8>) {
    Genuine(r, ViewOf(stream, 0, d))
  }

  ghost predicate AllFound(reports: seq<Report>, d: Receiver, stream: seq<uint8>) {
    forall i :: 0 <= i < |reports| ==> FoundIn(reports[i], d, stream)
  }

  // What a pass reports was found in the stream.
  lemma GenuineIsFound(r: Report, d: Receiver, stream: seq<uint8>, o: nat)
    requires Decodes(d) && 2 * o <= |stream| && Genuine(r, ViewOf(stream[2 * o..], o, d))
    ensures FoundIn(r, d, stream)
  {
    hide *;
    assert stream[2 * o..2 * o + (|stream| - 2 * o)] == stream[2 * o..];
    PartInside(stream, o, |stream| - 2 * o, d);
    GenuineInside(r, ViewOf(stream[2 * o..], o, d), ViewOf(stream, 0, d), o);
    FoundIs(r, d, stream);
  }

  lemma FoundIs(r: Report, d: Receiver, stream: seq<uint8>)
    ensures FoundIn(r, d, stream) == Genuine(r, ViewOf(stream, 0, d))
  {
    hide Genuine;
  }

  lemma StillFound(reports: seq<Report>, d: Receiver, stream: seq<uint8>, more: seq<uint8>)
    requires Decodes(d) && AllFound(reports, d, stream)
    ensures AllFound(reports, d, stream + more)
  {
    hide Decodes, Genuine, ViewOf, Inside;
    var all := stream + more;
    assert all[2 * 0..2 * 0 + |stream|] == stream;
    PartInside(all, 0, |stream|, d);
    forall k | 0 <= k < |reports| ensures FoundIn(reports[k], d, all) {
      assert FoundIn(reports[k], d, stream);
      GenuineInside(reports[k], ViewOf(stream, 0, d), ViewOf(all, 0, d), 0);
    }
  }

  lemma PassFinds(d: Receiver, stream: seq<uint8>, o: nat)
    requires Decodes(d) && 2 * o <= |stream|
    ensures AllFound(PassOver(ViewOf(stream[2 * o..], o, d)).1, d, stream)
  {
    hide Decodes, Genuine, FoundIn, PassOver, PassInBounds, InOrder;
    var v := ViewOf(stream[2 * o..], o, d);
    PassFacts(v);
    forall k | 0 <= k < |PassOver(v).1| ensures FoundIn(PassOver(v).1[k], d, stream) {
      GenuineIsFound(PassOver(v).1[k], d, stream, o);
    }
  }

  // ---- What process_data comes to ----

  // Whether every pass had the samples it needs, the reports, the bytes left and the samples consumed
  datatype Outcome = Outcome(ok: bool, reports: seq<Report>, rest: seq<uint8>, offset: nat)

  function Room(rest: seq<uint8>, data: seq<uint8>): nat
    requires |rest| <= BUFFER_BYTES
  {
    if BUFFER_BYTES - |rest| >= |data| then |data| else BUFFER_BYTES - |rest|
  }

  function Behind(reports: seq<Report>, o: Outcome): Outcome {
    o.(reports := reports + o.reports)
  }

  lemma BehindNothing(o: Outcome)
    ensures Behind([], o) == o
  {
    var none: seq<Report> := [];
    assert none + o.reports == o.reports;
  }

  // Data taken in behind the bytes left before, a buffer full at a time and a pass over each
  function Processed(rest: seq<uint8>, offset: nat, data: seq<uint8>, d: Receiver): (o: Outcome)
    requires Decodes(d) && |rest| <= MOST_LEFT
    ensures o.ok ==> |o.rest| <= MOST_LEFT
    decreases |data|
  {
    if data == [] then Outcome(true, [], rest, offset)
    else
      var n := Room(rest, data);
      var bytes := rest + data[..n];
      if |bytes| / 2 < FEWEST_SAMPLES then Outcome(false, [], bytes, offset)
      else
        FewLeft(ViewOf(bytes, offset, d), |bytes|);
        var (processed, reports) := PassOver(ViewOf(bytes, offset, d));
        var later := Processed(bytes[2 * processed..], offset + processed, data[n..], d);
        Behind(reports, later)
  }

  // One turn, behind the reports of the turns before
  lemma ProcessedStep(
    before: seq<Report>, rest: seq<uint8>, offset: nat, data: seq<uint8>, d: Receiver, n: nat, bytes: seq<uint8>)
    requires Decodes(d) && |rest| <= MOST_LEFT && data != [] && n == Room(rest, data) && bytes == rest + data[..n]
    ensures var whole := Behind(before, Processed(rest, offset, data, d));
            if |bytes| / 2 < FEWEST_SAMPLES then whole == Outcome(false, before, bytes, offset)
            else
              var (processed, reports) := PassOver(ViewOf(bytes, offset, d));
              && 0 <= processed && 2 * processed <= |bytes| && |bytes| - 2 * processed <= MOST_LEFT
              && whole == Behind(before + reports, Processed(bytes[2 * processed..], offset + processed, data[n..], d))
  {
    hide PassOver, Decodes, PhaseImage;
    if |bytes| / 2 < FEWEST_SAMPLES {
      assert before + [] == before;
    } else {
      FewLeft(ViewOf(bytes, offset, d), |bytes|);
      var (processed, reports) := PassOver(ViewOf(bytes, offset, d));
      var later := Processed(bytes[2 * processed..], offset + processed, data[n..], d);
      assert before + (reports + later.reports) == (before + reports) + later.reports;
    }
  }

  lemma ProcessedDone(before: seq<Report>, rest: seq<uint8>, offset: nat, d: Receiver)
    requires Decodes(d) && |rest| <= MOST_LEFT
    ensures Behind(before, Processed(rest, offset, [], d)) == Outcome(true, before, rest, offset)
  {
    assert before + [] == before;
  }

  // Data that fits behind the bytes left is one pass, and enough for it exactly from 17952 bytes on.
  lemma OnePass(rest: seq<uint8>, offset: nat, data: seq<uint8>, d: Receiver)
    requires Decodes(d) && |rest| <= MOST_LEFT && data != [] && |rest| + |data| <= BUFFER_BYTES
    ensures var o := Processed(rest, offset, data, d);
            && (o.ok <==> |rest| + |data| >= 2 * FEWEST_SAMPLES)
            && (o.ok ==> (o.offset - offset, o.reports) == PassOver(ViewOf(rest + data, offset, d)))
  {
    hide PassOver, Decodes, PhaseImage;
    assert data[..|data|] == data && data[|data|..] == [];
    if |rest| + |data| >= 2 * FEWEST_SAMPLES {
      FewLeft(ViewOf(rest + data, offset, d), |rest + data|);
      var reports := PassOver(ViewOf(rest + data, offset, d)).1;
      assert reports + [] == reports;
    }
  }

  // ---- The buffer ----

  // The bytes are those of the stream not consumed yet, and the phases are theirs.
  ghost predicate Mirrors(bytes: seq<uint8>, phases: seq<uint16>, stream: seq<uint8>, offset: nat, d: Receiver) {
    && 2 * offset <= |stream| && bytes == stream[2 * offset..]
    && phases == PhaseImage(bytes, d.phase)
  }

  lemma MirrorsMore(
    bytes: seq<uint8>, phases: seq<uint16>, stream: seq<uint8>, offset: nat, d: Receiver,
    more: seq<uint8>, phases': seq<uint16>)
    requires Mirrors(bytes, phases, stream, offset, d)
    requires |phases'| == |bytes + more| / 2 && phases'[..|phases|] == phases
    requires forall k :: |phases| <= k < |phases'| ==>
             phases'[k] == d.phase((bytes + more)[2 * k], (bytes + more)[2 * k + 1])
    ensures Mirrors(bytes + more, phases', stream + more, offset, d)
  {
    forall k | 0 <= k < |phases'| ensures phases'[k] == PhaseImage(bytes + more, d.phase)[k] {
      if k < |phases| {
        assert phases'[k] == phases[k];
      }
    }
  }

  lemma MirrorsLess(bytes: seq<uint8>, phases: seq<uint16>, stream: seq<uint8>, offset: nat, d: Receiver, p: nat)
    requires Mirrors(bytes, phases, stream, offset, d) && 2 * p <= |bytes|
    ensures Mirrors(bytes[2 * p..], phases[p..], stream, offset + p, d)
  {
    hide PhaseImage;
    ImageTail(bytes, d.phase, p);
    assert stream[2 * offset..][2 * p..] == stream[2 * (offset + p)..];
  }

  lemma HalfLess(n: nat, p: nat)
    requires 2 * p <= n
    ensures (n - 2 * p) / 2 == n / 2 - p
  {
  }

  // memmove of n elements to the front
  method MoveToFront<T>(a: array<T>, from: nat, n: nat)
    requires from + n <= a.Length
    modifies a
    ensures a[..n] == old(a[from..from + n])
  {
    for k := 0 to n
      invariant forall j :: 0 <= j < k ==> a[j] == old(a[from + j])
      invariant forall j :: from + k <= j < from + n ==> a[j] == old(a[j])
    {
      a[k] := a[from + k];
    }
  }

  lemma ChunkOf(data: seq<uint8>, at: nat, n: nat)
    requires at + n <= |data|
    ensures data[at..][..n] == data[at..at + n] && data[at..][n..] == data[at + n..]
    ensures data[..at] + data[at..at + n] == data[..at + n]
  {
  }

  lemma AppendTwice(a: seq<uint8>, b: seq<uint8>, c: seq<uint8>, all: seq<uint8>)
    requires b + c == all
    ensures a + b + c == a + all
  {
  }

  class SampleBuffer {
    const receiver: Receiver
    const buffer: array<uint8>
    const phi: array<uint16>
    var used: nat // bytes
    var offset: nat // samples consumed

    ghost var stream: seq<uint8> // all bytes received

    // The buffer holds the bytes not consumed yet, and phi their phases.
    ghost predicate Buffered()
      reads this, buffer, phi
    {
      && buffer.Length == BUFFER_BYTES && phi.Length == PHI_SAMPLES && used <= BUFFER_BYTES
      && Mirrors(buffer[..used], phi[..used / 2], stream, offset, receiver)
      && Decodes(receiver)
    }

    // phi is the phase image of the buffer, which is what is left of the stream.
    lemma PhasesOfStream()
      requires Buffered()
      ensures 2 * offset + used == |stream|
      ensures phi[..used / 2] == PhaseImage(stream[2 * offset..], receiver.phase)
              && buffer[..used] == stream[2 * offset..]
    {
      hide PhaseImage, Decodes;
    }

    ghost predicate Valid()
      reads this, buffer, phi
    {
      Buffered() && used <= MOST_LEFT && offset % 2 == 0
    }

    // Chunks of whole pairs of samples leave at most 17952 bytes, so that the next chunk of up to
    // 113120 bytes is one pass.
    lemma AlignedChunks()
      requires Valid() && |stream| % 4 == 0
      ensures used <= 2 * FEWEST_SAMPLES && used + 113120 <= BUFFER_BYTES
    {
      PhasesOfStream();
    }

    constructor (receiver: Receiver)
      requires Decodes(receiver)
      ensures Valid() && stream == [] && used == 0 && this.receiver == receiver
    {
      this.receiver := receiver;
      buffer := new uint8[BUFFER_BYTES](_ => 0);
      phi := new uint16[PHI_SAMPLES](_ => 0);
      used, offset, stream := 0, 0, [];
    }

    // memcpy behind the bytes in the buffer
    method Append(bytes: seq<uint8>)
      requires used + |bytes| <= buffer.Length
      modifies buffer
      ensures buffer[..used + |bytes|] == old(buffer[..used]) + bytes
    {
      for i := 0 to |bytes|
        invariant forall k :: 0 <= k < used ==> buffer[k] == old(buffer[k])
        invariant forall k :: 0 <= k < i ==> buffer[used + k] == bytes[k]
      {
        buffer[used + i] := bytes[i];
      }
    }

    // The phases of the n samples from sample first on; an odd byte waits for its partner.
    method ConvertToPhi(first: nat, n: nat)
      requires first + n <= phi.Length && 2 * (first + n) <= buffer.Length
      modifies phi
      ensures phi[..first] == old(phi[..first])
      ensures forall k :: first <= k < first + n ==> phi[k] == receiver.phase(buffer[2 * k], buffer[2 * k + 1])
    {
      for i := 0 to n
        invariant forall k :: 0 <= k < first ==> phi[k] == old(phi[k])
        invariant forall k :: first <= k < first + i ==> phi[k] == receiver.phase(buffer[2 * k], buffer[2 * k + 1])
      {
        phi[first + i] := receiver.phase(buffer[2 * (first + i)], buffer[2 * (first + i) + 1]);
      }
    }

    // Takes bytes into the buffer and extends phi.
    method Fill(bytes: seq<uint8>)
      requires Buffered() && used + |bytes| <= BUFFER_BYTES
      modifies this`used, this`stream, buffer, phi
      ensures Buffered() && buffer[..used] == old(buffer[..used]) + bytes && stream == old(stream) + bytes
    {
      hide Decodes, Mirrors;
      ghost var before, phases := buffer[..used], phi[..used / 2];
      Append(bytes);
      ConvertToPhi(used / 2, (used % 2 + |bytes|) / 2);
      ghost var total := used + |bytes|;
      assert buffer[..total] == before + bytes;
      assert Mirrors(buffer[..total], phi[..total / 2], stream + bytes, offset, receiver) by {
        assert phi[..total / 2][..|phases|] == phases;
        forall k | |phases| <= k < total / 2
          ensures phi[..total / 2][k] == receiver.phase((before + bytes)[2 * k], (before + bytes)[2 * k + 1])
        {
          assert buffer[..total][2 * k] == buffer[2 * k] && buffer[..total][2 * k + 1] == buffer[2 * k + 1];
        }
        MirrorsMore(before, phases, stream, offset, receiver, bytes, phi[..total / 2]);
      }
      used := used + |bytes|;
      stream := stream + bytes;
    }

    // memmove: the consumed samples leave the buffer and phi.
    method Discard(processed: nat)
      requires Buffered() && 2 * processed <= used
      modifies this`used, this`offset, buffer, phi
      ensures Buffered() && offset == old(offset) + processed && buffer[..used] == old(buffer[..used])[2 * processed..]
    {
      hide Decodes, Mirrors;
      MirrorsLess(buffer[..used], phi[..used / 2], stream, offset, receiver, processed);
      MoveSamples(processed);
    }

    method MoveSamples(processed: nat)
      requires 2 * processed <= used <= buffer.Length && used / 2 <= phi.Length
      modifies this`used, this`offset, buffer, phi
      ensures used == old(used) - 2 * processed && offset == old(offset) + processed
      ensures used / 2 <= phi.Length && buffer[..used] == old(buffer[..used])[2 * processed..]
      ensures phi[..used / 2] == old(phi[..used / 2])[processed..]
    {
      HalfLess(used, processed);
      MoveToFront(buffer, 2 * processed, used - 2 * processed);
      MoveToFront(phi, processed, used / 2 - processed);
      used, offset := used - 2 * processed, offset + processed;
    }

    // One turn of the loop of process_data; ok is false when the pass would have fewer samples
    // than process_buffer is made for.
    method Pass(bytes: seq<uint8>) returns (ok: bool, reports: seq<Report>)
      requires Valid() && used + |bytes| <= BUFFER_BYTES
      modifies this`used, this`offset, this`stream, buffer, phi
      ensures Buffered() && stream == old(stream) + bytes
      ensures ok == (old(used) + |bytes| >= 2 * FEWEST_SAMPLES)
      ensures ok ==> Valid() && AllFound(reports, receiver, stream)
      ensures var v := ViewOf(old(buffer[..used]) + bytes, old(offset), receiver);
              if ok then
                && (offset - old(offset), reports) == PassOver(v)
                && 0 <= PassOver(v).0 && 2 * PassOver(v).0 <= |v.raw| && buffer[..used] == v.raw[2 * PassOver(v).0..]
              else buffer[..used] == v.raw && offset == old(offset) && reports == []
    {
      hide AllFound, PassOver, Decodes, Mirrors, PhaseImage;
      ghost var all := buffer[..used] + bytes;
      Fill(bytes);
      assert buffer[..used] == all;
      if used / 2 < FEWEST_SAMPLES {
        return false, [];
      }
      var processed: nat;
      processed, reports := Search();
      Discard(processed);
      assert buffer[..used] == all[2 * processed..];
      return true, reports;
    }

    // process_buffer on what is in the buffer
    method Search() returns (processed: nat, reports: seq<Report>)
      requires Buffered() && used / 2 >= FEWEST_SAMPLES
      ensures 2 * processed <= used && used - 2 * processed <= MOST_LEFT && processed % 2 == 0
      ensures (processed, reports) == PassOver(ViewOf(buffer[..used], offset, receiver))
      ensures AllFound(reports, receiver, stream)
    {
      hide Genuine, FoundIn, PhaseImage, PassOver, Decodes;
      PhasesOfStream();
      FewLeft(ViewOf(buffer[..used], offset, receiver), used);
      PassFinds(receiver, stream, offset);
      processed, reports := ProcessBuffer(View(phi[..used / 2], buffer[..used], offset, receiver));
    }

    method ProcessData(data: seq<uint8>) returns (ok: bool, reports: seq<Report>)
      requires Valid()
      modifies this`used, this`offset, this`stream, buffer, phi
      ensures Buffered()
      ensures Outcome(ok, reports, buffer[..used], offset)
              == Processed(old(buffer[..used]), old(offset), data, receiver)
      ensures ok ==> Valid() && stream == old(stream) + data
      ensures AllFound(reports, receiver, stream)
    {
      hide FoundIn, Decodes, Mirrors, PassOver, Processed, PhaseImage, Behind;
      reports := [];
      var doffset := 0;
      ghost var whole := Processed(buffer[..used], offset, data, receiver);
      assert data[doffset..] == data;
      BehindNothing(whole);
      while doffset < |data|
        invariant doffset <= |data| && Valid() && stream == old(stream) + data[..doffset]
        invariant AllFound(reports, receiver, stream)
        invariant whole == Behind(reports, Processed(buffer[..used], offset, data[doffset..], receiver))
        decreases |data| - doffset
      {
        var left := |data| - doffset;
        var n := if BUFFER_BYTES - used >= left then left else BUFFER_BYTES - used;
        ghost var chunk := data[doffset..doffset + n];
        ChunkOf(data, doffset, n);
        ProcessedStep(reports, buffer[..used], offset, data[doffset..], receiver, n, buffer[..used] + chunk);
        StillFound(reports, receiver, stream, chunk);
        var more: seq<Report>;
        ok, more := Pass(data[doffset..doffset + n]);
        AppendTwice(old(stream), data[..doffset], chunk, data[..doffset + n]);
        if !ok {
          return false, reports;
        }
        reports := reports + more;
        doffset := doffset + n;
      }
      assert data[doffset..] == [] && data[..doffset] == data;
      ProcessedDone(reports, buffer[..used], offset, receiver);
      return true, reports;
    }
  }
}
