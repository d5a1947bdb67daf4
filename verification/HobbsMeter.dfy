// main/hobbsmeter.go: the GPS Hobbs meter, one sample a second.
module HobbsMeters {
  import opened FlightLog
  import opened Options

  const SPEED_THRESHOLD_KMH := 50.0
  const TAKEOFF_DEBOUNCE_SEC := 5
  const LANDING_DEBOUNCE_SEC := 60
  const MINIMUM_LEG_SEC := 60
  const SAVE_INTERVAL_SEC := 300

  // What reading settings/hobbsmeter.json gives.
  datatype File = Unreadable | Unparsable | Parsed(entries: seq<HobbsEntry>)

  // ---- One more sample, in terms of the counters ----

  lemma OnGround(vs: seq<Sample>, s: Sample)
    requires OpenFrom(vs) == None && FastRun(vs) < TAKEOFF_DEBOUNCE_SEC
    ensures var more := vs + [s]; var n := FastRun(more);
            && n == (if Fast(s) && s.accurate then FastRun(vs) + 1 else 0)
            && (if n < TAKEOFF_DEBOUNCE_SEC then OpenFrom(more) == None && LogOf(more) == LogOf(vs)
                else
                  && OpenFrom(more) == Some(|more| - TAKEOFF_DEBOUNCE_SEC)
                  && CountFast(more[|more| - TAKEOFF_DEBOUNCE_SEC..]) == TAKEOFF_DEBOUNCE_SEC
                  && LogOf(more) == LogOf(vs) + [Departed(more[|more| - TAKEOFF_DEBOUNCE_SEC])]
                  && SlowRun(more) == 0)
  {
    hide TakeoffAt, LandingAt, EntryOf, LogOf, Done, CountFast, FastRun, SlowRun, OpenFrom;
    var more := vs + [s];
    RunsGrow(vs, s);
    RunsDecide(more);
    Takeoff(vs, s);
    if TakeoffAt(more, |more|) {
      TakeoffIsRoom(more);
      TakeoffMinutes(more);
    }
  }

  function WithMinutes(es: seq<HobbsEntry>, minutes: nat): seq<HobbsEntry>
    requires es != []
  {
    es[|es| - 1 := es[|es| - 1].(hobbsTimeMinutes := minutes)]
  }

  lemma AppendLast(es: seq<HobbsEntry>, fs: seq<HobbsEntry>, e: HobbsEntry, minutes: nat)
    ensures WithMinutes(es + (fs + [e]), minutes) == es + (fs + [e.(hobbsTimeMinutes := minutes)])
  {
  }

  lemma LastOf(es: seq<HobbsEntry>, fs: seq<HobbsEntry>, e: HobbsEntry, other: HobbsEntry)
    ensures var all := es + (fs + [e]);
            && all[|all| - 1] == e && all[|all| - 1 := other] == es + (fs + [other])
            && all[..|all| - 1] == es + fs && es + (fs + []) == es + fs
  {
  }

  // The entry of a flight in progress after one more sample.
  function Followed(e: HobbsEntry, s: Sample, seconds: nat, slow: nat): HobbsEntry {
    if Fast(s) then e.(hobbsTimeMinutes := (seconds + 1) / 60)
    else if slow == 0 then WithLanding(e, s)
    else e
  }

  lemma SlowRunStarts(vs: seq<Sample>)
    requires vs != []
    ensures SlowRun(vs) == 0 <==> Fast(vs[|vs| - 1])
  {
  }

  lemma InAir(vs: seq<Sample>, s: Sample, a: nat)
    requires OpenFrom(vs) == Some(a)
    ensures var ls, more := vs[a..], vs + [s];
            var e := Followed(EntryOf(ls), s, CountFast(ls), SlowRun(vs));
            && SlowRun(more) == (if Fast(s) then 0 else SlowRun(vs) + 1)
            && CountFast(ls + [s]) == CountFast(ls) + (if Fast(s) then 1 else 0)
            && LogOf(vs) == Done(vs) + [EntryOf(ls)]
            && (if SlowRun(more) < LANDING_DEBOUNCE_SEC then
                  OpenFrom(more) == Some(a) && more[a..] == ls + [s] && LogOf(more) == Done(vs) + [e]
                else
                  && OpenFrom(more) == None && FastRun(more) == 0
                  && LogOf(more) == Done(vs) + if CountFast(ls) >= MINIMUM_LEG_SEC then [e] else [])
  {
    hide TakeoffAt, LandingAt, EntryOf, LogOf, Done, CountFast, FastRun, SlowRun, OpenFrom;
    var ls := vs[a..];
    RunsGrow(vs, s);
    RunsDecide(vs + [s]);
    SlowRunStarts(vs);
    assert ls[|ls| - 1] == vs[|vs| - 1];
    if Fast(s) {
      EntryFast(ls, s);
    } else {
      EntrySlow(ls, s);
    }
    Airborne(vs, s, a);
  }

  class HobbsMeter {
    var entries: seq<HobbsEntry>
    var flying: bool
    var legSeconds: nat
    var above: nat
    var below: nat
    var candidate: HobbsEntry
    var dirty: bool
    var readOnly: bool

    ghost var loaded: seq<HobbsEntry> // the log read at the start
    ghost var trace: seq<Sample> // the valid samples seen since then
    ghost var saved: seq<HobbsEntry> // the log at the last successful save or load

    ghost predicate Valid()
      reads this
    {
      && entries == loaded + LogOf(trace)
      && (!dirty ==> entries == saved)
      && flying == OpenFrom(trace).Some?
      && if flying then Counting() else Waiting()
    }

    // In flight: the seconds of the leg and of the current slow run.
    ghost predicate Counting()
      reads this
      requires OpenFrom(trace).Some?
    {
      && legSeconds == CountFast(trace[OpenFrom(trace).value..])
      && below == SlowRun(trace)
    }

    // On the ground: the takeoff debounce and the sample that started it.
    ghost predicate Waiting()
      reads this
    {
      && legSeconds == 0 && below == 0
      && above == FastRun(trace) < TAKEOFF_DEBOUNCE_SEC
      && (above > 0 ==> candidate == Departed(trace[|trace| - above]))
    }

    constructor (file: File)
      ensures Valid() && trace == [] && !dirty && saved == loaded
      ensures loaded == (if file.Parsed? then file.entries else [])
      ensures readOnly == file.Unparsable?
    {
      entries := [];
      flying, legSeconds, above, below := false, 0, 0, 0;
      candidate := HobbsEntry("", 0.0, 0.0, 0.0, "", 0.0, 0.0, 0.0, 0);
      dirty, readOnly := false, false;
      trace := [];
      if file.Unparsable? {
        readOnly := true;
      } else if file.Parsed? {
        entries := file.entries;
      }
      loaded, saved := if file.Parsed? then file.entries else [], if file.Parsed? then file.entries else [];
      new;
      assert LogOf(trace) == [];
    }

    // written: the temporary file was written and renamed.
    method Save(written: bool)
      requires Valid()
      modifies this`dirty, this`saved
      ensures Valid()
      ensures if readOnly || !written then dirty == old(dirty) && saved == old(saved) else !dirty && saved == entries
    {
      hide LogOf, OpenFrom, CountFast, SlowRun, FastRun, Departed;
      if readOnly {
        return;
      }
      if !written {
        return;
      }
      dirty := false;
      saved := entries;
    }

    method Update(s: Sample) returns (landed: bool)
      requires Valid()
      modifies `entries, `flying, `legSeconds, `above, `below, `candidate, `dirty, `trace
      ensures Valid()
      ensures trace == old(trace) + if s.valid then [s] else []
      ensures landed == (s.valid && old(flying) && !flying)
      ensures landed ==> dirty
      ensures !s.valid ==> unchanged(this)
    {
      if !s.valid {
        return false;
      }
      if s.speedKmh > SPEED_THRESHOLD_KMH {
        FastSecond(s);
        return false;
      }
      landed := SlowSecond(s);
    }

    // The first half of update, above the threshold.
    method FastSecond(s: Sample)
      requires Valid() && Fast(s)
      modifies `entries, `flying, `legSeconds, `above, `below, `candidate, `dirty, `trace
      ensures Valid() && trace == old(trace) + [s]
      ensures old(flying) ==> flying
    {
      hide LogOf, CountFast, SlowRun, FastRun, OpenFrom, WithMinutes;
      if !flying {
        var counted := Debounce(s);
        if !counted {
          return;
        }
      } else {
        Cruise(s);
      }
      CountSecond();
    }

    // In flight, accuracy no longer matters.
    method Cruise(s: Sample)
      requires Valid() && Fast(s) && flying
      modifies `above, `below, `trace
      ensures Behind() && trace == old(trace) + [s]
    {
      hide LogOf, Done, CountFast, SlowRun, FastRun, OpenFrom, EntryOf;
      InAir(trace, s, OpenFrom(trace).value);
      assert WithMinutes(entries, (legSeconds + 1) / 60) == loaded + LogOf(trace + [s]) by {
        AppendLast(loaded, Done(trace), EntryOf(trace[OpenFrom(trace).value..]), (legSeconds + 1) / 60);
      }
      below := 0;
      above := above + 1;
      trace := trace + [s];
    }

    // The flight is open, its last second not yet counted.
    ghost predicate Behind()
      reads this
    {
      && flying && OpenFrom(trace).Some? && entries != []
      && legSeconds + 1 == CountFast(trace[OpenFrom(trace).value..])
      && below == SlowRun(trace)
      && WithMinutes(entries, (legSeconds + 1) / 60) == loaded + LogOf(trace)
    }

    method CountSecond()
      requires Behind()
      modifies `entries, `legSeconds, `dirty
      ensures Valid()
    {
      legSeconds := legSeconds + 1;
      var last := |entries| - 1;
      entries := entries[last := entries[last].(hobbsTimeMinutes := legSeconds / 60)];
      dirty := true;
    }

    // On the ground: true when this second opens a flight.
    method Debounce(s: Sample) returns (counted: bool)
      requires Valid() && Fast(s) && !flying
      modifies `entries, `flying, `legSeconds, `above, `below, `candidate, `trace
      ensures trace == old(trace) + [s]
      ensures if counted then Behind() else Valid()
    {
      hide LogOf, Done, CountFast, SlowRun, FastRun, OpenFrom, EntryOf;
      ghost var before := trace;
      trace := trace + [s];
      OnGround(before, s);
      if !s.accurate {
        above := 0;
        return false;
      }
      below := 0;
      above := above + 1;
      if above == 1 {
        candidate := Departed(s);
      }
      if above < TAKEOFF_DEBOUNCE_SEC {
        return false;
      }
      flying := true;
      entries := entries + [candidate];
      legSeconds := above - 1;
      return true;
    }

    // The second half of update, at or below the threshold.
    method SlowSecond(s: Sample) returns (landed: bool)
      requires Valid() && !Fast(s)
      modifies `entries, `flying, `legSeconds, `above, `below, `dirty, `trace
      ensures Valid() && trace == old(trace) + [s]
      ensures landed == (old(flying) && !flying)
      ensures landed ==> dirty
    {
      hide TakeoffAt, LandingAt, EntryOf, LogOf, Done, CountFast, FastRun, SlowRun, OpenFrom, Departed;
      ghost var before, open := trace, OpenFrom(trace);
      trace := trace + [s];
      if open.Some? {
        InAir(before, s, open.value);
      } else {
        OnGround(before, s);
      }
      if open.Some? {
        ghost var e := EntryOf(before[open.value..]);
        LastOf(loaded, Done(before), e, WithLanding(e, s));
        LastOf(loaded, Done(before), WithLanding(e, s), e);
      }
      above := 0;
      if !flying {
        return false;
      }
      below := below + 1;
      if below == 1 {
        var last := |entries| - 1;
        entries := entries[last := WithLanding(entries[last], s)];
        dirty := true;
      }
      if below < LANDING_DEBOUNCE_SEC {
        return false;
      }
      CloseLeg();
      return true;
    }

    // The flight is over; one too short is dropped.
    method CloseLeg()
      requires entries != []
      modifies `entries, `flying, `legSeconds, `below, `dirty
      ensures !flying && below == 0 && legSeconds == 0 && dirty
      ensures entries == if old(legSeconds) < MINIMUM_LEG_SEC then old(entries)[..|old(entries)| - 1] else old(entries)
    {
      flying := false;
      below := 0;
      if legSeconds < MINIMUM_LEG_SEC {
        entries := entries[..|entries| - 1];
      }
      legSeconds := 0;
      dirty := true;
    }

    method TotalMinutes() returns (total: int)
      ensures total == Total(entries)
    {
      total := 0;
      for i := 0 to |entries|
        invariant total == Total(entries[..i])
      {
        assert entries[..i + 1][..i] == entries[..i];
        total := total + entries[i].hobbsTimeMinutes;
      }
      assert entries[..|entries|] == entries;
    }

    lemma Unfold()
      requires Valid()
      ensures entries == loaded + LogOf(trace)
      ensures !dirty ==> entries == saved
    {
    }

    // One second of ListenerFunc: written tells how a save of this second would end.
    method Tick(s: Sample, written: bool, sinceSave: nat) returns (next: nat)
      requires Valid() && sinceSave < 300
      modifies this
      ensures Valid() && loaded == old(loaded) && readOnly == old(readOnly)
      ensures entries == loaded + LogOf(trace)
      ensures trace == old(trace) + if s.valid then [s] else []
      ensures next == (sinceSave + 1) % 300
      ensures saved == old(saved) || saved == entries
      ensures next == 0 && written && !readOnly ==> saved == entries
      ensures readOnly || !written ==> saved == old(saved)
      ensures next != 0 && !(old(flying) && !flying) ==> saved == old(saved)
      ensures old(flying) && !flying && written && !readOnly ==> saved == entries
    {
      hide LogOf, OpenFrom, Valid;
      next := sinceSave + 1;
      var landed := Update(s);
      Unfold();
      if landed || (next >= SAVE_INTERVAL_SEC && dirty) {
        Save(written);
      }
      if next >= SAVE_INTERVAL_SEC {
        next := 0;
      }
    }

    // history[i] is the log after i seconds.
    method ListenerFunc(samples: seq<Sample>, written: seq<bool>) returns (ghost history: seq<seq<HobbsEntry>>)
      requires Valid() && |written| == |samples|
      modifies this
      ensures Valid() && loaded == old(loaded) && readOnly == old(readOnly)
      ensures trace == old(trace) + ValidOf(samples)
      ensures |history| == |samples| + 1 && history[|samples|] == entries
      ensures History(history, loaded, old(trace), samples, |samples|)
      ensures SavedWithin(history, saved, LastFlush(|samples|), Flushed(written, !readOnly, !old(dirty)))
    {
      hide LogOf, Valid, SavedWithin, Flushed, LastFlush, History, ValidOf;
      Unfold();
      history := [entries];
      var sinceSave := 0;
      StartsClean(entries, saved, !readOnly, !dirty);
      StartsRecorded(entries, loaded, trace, samples);
      NoneValid(trace, samples);
      for i := 0 to |samples|
        invariant Valid() && loaded == old(loaded) && readOnly == old(readOnly)
        invariant |samples| == |written| && sinceSave == i % SAVE_INTERVAL_SEC
        invariant trace == old(trace) + ValidOf(samples[..i])
        invariant |history| == i + 1 && history[i] == entries
        invariant History(history, loaded, old(trace), samples, i)
        invariant SavedWithin(history, saved, LastFlush(i), Flushed(written[..i], !readOnly, !old(dirty)))
      {
        ghost var before := saved;
        sinceSave := Tick(samples[i], written[i], sinceSave);
        NextSaved(history, entries, written, i, !readOnly, !old(dirty), before, saved);
        NextValid(old(trace), samples, i);
        Recorded(history, entries, loaded, old(trace), samples, i);
        history := history + [entries];
      }
      assert samples[..|samples|] == samples && written[..|samples|] == written;
    }

    method ShutdownFunc(written: bool)
      requires Valid()
      modifies this`dirty, this`saved
      ensures Valid()
      ensures written && !readOnly ==> saved == entries
    {
      if dirty {
        Save(written);
      }
    }
  }

  function ValidOf(samples: seq<Sample>): seq<Sample> {
    if samples == [] then []
    else
      var before, last := ValidOf(samples[..|samples| - 1]), samples[|samples| - 1];
      if last.valid then before + [last] else before
  }

  // The last second whose log is flushed when it changed, 0 before the first.
  function LastFlush(seconds: nat): nat {
    seconds - seconds % 300
  }

  // The flush of that second succeeded, or the log was clean at the start.
  predicate Flushed(written: seq<bool>, writable: bool, clean: bool) {
    var n := LastFlush(|written|);
    if n == 0 then clean else writable && written[n - 1]
  }

  // The file holds the log of some second since the last flush.
  ghost predicate SavedWithin(history: seq<seq<HobbsEntry>>, saved: seq<HobbsEntry>, since: nat, flushed: bool) {
    flushed ==> exists i :: since <= i < |history| && saved == history[i]
  }

  lemma StartsClean(entries: seq<HobbsEntry>, saved: seq<HobbsEntry>, writable: bool, clean: bool)
    requires clean ==> entries == saved
    ensures SavedWithin([entries], saved, LastFlush(0), Flushed([], writable, clean))
  {
    assert [entries][0] == entries;
  }

  // One more second, in which the file kept its log or took the new one.
  lemma NextSaved(
    history: seq<seq<HobbsEntry>>, entries: seq<HobbsEntry>, written: seq<bool>, i: nat,
    writable: bool, clean: bool, before: seq<HobbsEntry>, saved: seq<HobbsEntry>)
    requires i < |written| && |history| == i + 1
    requires SavedWithin(history, before, LastFlush(i), Flushed(written[..i], writable, clean))
    requires saved == before || saved == entries
    requires (i + 1) % SAVE_INTERVAL_SEC == 0 && written[i] && writable ==> saved == entries
    ensures SavedWithin(history + [entries], saved, LastFlush(i + 1), Flushed(written[..i + 1], writable, clean))
  {
    hide *;
    assert written[..i] + [written[i]] == written[..i + 1];
    StaysSaved(history, entries, written[..i], written[i], writable, clean, before, saved);
  }

  lemma NextValid(trace: seq<Sample>, samples: seq<Sample>, i: nat)
    requires i < |samples|
    ensures trace + ValidOf(samples[..i + 1])
            == trace + ValidOf(samples[..i]) + if samples[i].valid then [samples[i]] else []
  {
    hide ValidOf;
    assert samples[..i] + [samples[i]] == samples[..i + 1];
    MoreValid(trace, samples[..i], samples[i]);
  }

  lemma StaysSaved(
    history: seq<seq<HobbsEntry>>, entries: seq<HobbsEntry>, written: seq<bool>, last: bool,
    writable: bool, clean: bool, before: seq<HobbsEntry>, saved: seq<HobbsEntry>)
    requires |history| == |written| + 1
    requires SavedWithin(history, before, LastFlush(|written|), Flushed(written, writable, clean))
    requires saved == before || saved == entries
    requires (|written| + 1) % SAVE_INTERVAL_SEC == 0 && last && writable ==> saved == entries
    ensures SavedWithin(
              history + [entries], saved, LastFlush(|written| + 1), Flushed(written + [last], writable, clean))
  {
    var more, n := history + [entries], LastFlush(|written|);
    if (|written| + 1) % SAVE_INTERVAL_SEC == 0 || saved == entries {
      assert more[|history|] == entries;
    } else {
      NextFlush(|written|);
      if Flushed(written, writable, clean) {
        var i :| n <= i < |history| && before == history[i];
        assert more[i] == before;
      }
    }
  }

  lemma NextFlush(n: nat)
    requires (n + 1) % SAVE_INTERVAL_SEC != 0
    ensures LastFlush(n + 1) == LastFlush(n)
  {
  }

  // history[i] is the log after i of the samples.
  ghost predicate History(
    history: seq<seq<HobbsEntry>>, loaded: seq<HobbsEntry>, trace: seq<Sample>, samples: seq<Sample>, n: nat)
  {
    && |history| == n + 1 && n <= |samples|
    && forall i :: 0 <= i <= n ==> history[i] == loaded + LogOf(trace + ValidOf(samples[..i]))
  }

  lemma StartsRecorded(entries: seq<HobbsEntry>, loaded: seq<HobbsEntry>, trace: seq<Sample>, samples: seq<Sample>)
    requires entries == loaded + LogOf(trace)
    ensures History([entries], loaded, trace, samples, 0) && [entries][0] == entries
  {
    hide LogOf;
    assert trace + ValidOf(samples[..0]) == trace;
  }

  lemma Recorded(
    history: seq<seq<HobbsEntry>>, entries: seq<HobbsEntry>, loaded: seq<HobbsEntry>, trace: seq<Sample>,
    samples: seq<Sample>, n: nat)
    requires History(history, loaded, trace, samples, n) && n < |samples|
    requires entries == loaded + LogOf(trace + ValidOf(samples[..n + 1]))
    ensures History(history + [entries], loaded, trace, samples, n + 1)
    ensures |history| == n + 1
  {
    hide LogOf, ValidOf;
  }

  lemma NoneValid(trace: seq<Sample>, samples: seq<Sample>)
    ensures trace == trace + ValidOf(samples[..0])
  {
  }

  lemma MoreValid(trace: seq<Sample>, samples: seq<Sample>, s: Sample)
    ensures trace + ValidOf(samples + [s]) == (trace + ValidOf(samples)) + if s.valid then [s] else []
  {
    assert (samples + [s])[..|samples|] == samples;
  }
}
