// The flight log that main/hobbsmeter.go promises, written over the whole trace of GPS samples.
module FlightLog {
  import opened Options

  // One second of GPS; time is the RFC 3339 text of the sample.
  datatype Sample = Sample(
    valid: bool, accurate: bool, time: string, speedKmh: real, lat: real, lon: real, altMeters: real)

  datatype HobbsEntry = HobbsEntry(
    departureTime: string, departureLatitude: real, departureLongitude: real, departureAltitudeMeters: real,
    landedTime: string, landedLatitude: real, landedLongitude: real, landedAltitudeMeters: real,
    hobbsTimeMinutes: int)

  predicate Fast(s: Sample) {
    s.speedKmh > 50.0
  }

  // ---- Takeoffs and landings on a trace of valid samples ----

  // The five samples before position n are fast, from fixes that can be trusted.
  ghost predicate TakeoffAt(vs: seq<Sample>, n: nat)
    requires n <= |vs|
  {
    n >= 5 && forall i :: n - 5 <= i < n ==> Fast(vs[i]) && vs[i].accurate
  }

  // The sixty samples before position n are slow.
  ghost predicate LandingAt(vs: seq<Sample>, n: nat)
    requires n <= |vs|
  {
    n >= 60 && forall i :: n - 60 <= i < n ==> !Fast(vs[i])
  }

  // A flight: the samples from its first fast one to the end of its sixty slow ones.
  datatype Span = Span(from: nat, to: nat)

  // On the ground since position e, the next flight starts with sample a.
  ghost predicate StartsAt(vs: seq<Sample>, e: nat, a: nat) {
    && e < a + 5 <= |vs|
    && TakeoffAt(vs, a + 5)
    && forall m: nat :: e < m < a + 5 ==> !TakeoffAt(vs, m)
  }

  ghost predicate FliesUntil(vs: seq<Sample>, a: nat, b: nat)
    requires b <= |vs|
  {
    forall m: nat :: a + 5 <= m < b ==> !LandingAt(vs, m)
  }

  ghost predicate EndsAt(vs: seq<Sample>, a: nat, b: nat) {
    a + 5 <= b <= |vs| && LandingAt(vs, b) && FliesUntil(vs, a, b)
  }

  // flights are all the flights after position e, and open is the one in progress, if any.
  ghost predicate IsLog(vs: seq<Sample>, e: nat, flights: seq<Span>, open: Option<nat>)
    decreases |flights|
  {
    if flights == [] then
      match open
      case None => forall m: nat :: e < m <= |vs| ==> !TakeoffAt(vs, m)
      case Some(a) =>
        && StartsAt(vs, e, a) && FliesUntil(vs, a, |vs|)
        && !LandingAt(vs, |vs|)
    else
      && StartsAt(vs, e, flights[0].from)
      && EndsAt(vs, flights[0].from, flights[0].to)
      && IsLog(vs, flights[0].to, flights[1..], open)
  }

  lemma SameStart(vs: seq<Sample>, e: nat, a: nat, b: nat)
    requires StartsAt(vs, e, a) && StartsAt(vs, e, b)
    ensures a == b
  {
  }

  // There is only one way to read a trace as a flight log.
  lemma {:induction false} LogIsUnique(
    vs: seq<Sample>, e: nat, flights: seq<Span>, open: Option<nat>, flights': seq<Span>, open': Option<nat>)
    requires IsLog(vs, e, flights, open) && IsLog(vs, e, flights', open')
    ensures flights == flights' && open == open'
    decreases |flights|
  {
    if flights != [] && flights' != [] {
      SameStart(vs, e, flights[0].from, flights'[0].from);
      assert flights[0].to == flights'[0].to;
      LogIsUnique(vs, flights[0].to, flights[1..], open, flights'[1..], open');
      assert flights == [flights[0]] + flights[1..];
      assert flights' == [flights'[0]] + flights'[1..];
    } else if flights != [] {
      OpenIsNotClosed(vs, e, flights[0], open');
    } else if flights' != [] {
      OpenIsNotClosed(vs, e, flights'[0], open);
    } else if open.Some? && open'.Some? {
      SameStart(vs, e, open.value, open'.value);
    }
  }

  lemma OpenIsNotClosed(vs: seq<Sample>, e: nat, first: Span, open: Option<nat>)
    requires StartsAt(vs, e, first.from) && EndsAt(vs, first.from, first.to)
    ensures !IsLog(vs, e, [], open)
  {
    match open
    case None => assert TakeoffAt(vs, first.from + 5);
    case Some(a) =>
      if StartsAt(vs, e, a) {
        SameStart(vs, e, first.from, a);
      }
  }

  // ---- The same log, sample by sample ----

  ghost function OpenFrom(vs: seq<Sample>): (open: Option<nat>)
    ensures open.Some? ==> open.value + 5 <= |vs|
  {
    if vs == [] then None
    else
      match OpenFrom(vs[..|vs| - 1])
      case Some(a) => if LandingAt(vs, |vs|) then None else Some(a)
      case None => if TakeoffAt(vs, |vs|) then Some(|vs| - 5) else None
  }

  ghost function Flights(vs: seq<Sample>): seq<Span> {
    if vs == [] then []
    else
      var before, open := Flights(vs[..|vs| - 1]), OpenFrom(vs[..|vs| - 1]);
      if open.Some? && LandingAt(vs, |vs|) then before + [Span(open.value, |vs|)] else before
  }

  lemma TakeoffPrefix(vs: seq<Sample>, s: Sample, m: nat)
    requires m <= |vs|
    ensures TakeoffAt(vs + [s], m) == TakeoffAt(vs, m)
    ensures LandingAt(vs + [s], m) == LandingAt(vs, m)
  {
    assert forall i :: 0 <= i < |vs| ==> (vs + [s])[i] == vs[i];
  }

  lemma StartsPrefix(vs: seq<Sample>, s: Sample, e: nat, a: nat)
    requires StartsAt(vs, e, a)
    ensures StartsAt(vs + [s], e, a)
  {
    hide TakeoffAt;
    TakeoffPrefix(vs, s, a + 5);
    forall m: nat | e < m < a + 5 ensures !TakeoffAt(vs + [s], m) {
      TakeoffPrefix(vs, s, m);
    }
  }

  lemma FliesPrefix(vs: seq<Sample>, s: Sample, a: nat, b: nat)
    requires b <= |vs| && FliesUntil(vs, a, b)
    ensures FliesUntil(vs + [s], a, b)
  {
    hide LandingAt;
    forall m: nat | a + 5 <= m < b ensures !LandingAt(vs + [s], m) {
      TakeoffPrefix(vs, s, m);
    }
  }

  ghost function ExtendedFlights(vs: seq<Sample>, s: Sample, flights: seq<Span>, open: Option<nat>): seq<Span> {
    if open.Some? && LandingAt(vs + [s], |vs| + 1) then flights + [Span(open.value, |vs| + 1)] else flights
  }

  ghost function ExtendedOpen(vs: seq<Sample>, s: Sample, open: Option<nat>): Option<nat> {
    match open
    case Some(a) => if LandingAt(vs + [s], |vs| + 1) then None else Some(a)
    case None =>
      if TakeoffAt(vs + [s], |vs| + 1) then Some(|vs| + 1 - 5) else None
  }

  lemma {:induction false} LogGrows(vs: seq<Sample>, s: Sample, e: nat, flights: seq<Span>, open: Option<nat>)
    requires IsLog(vs, e, flights, open) && e <= |vs|
    ensures IsLog(vs + [s], e, ExtendedFlights(vs, s, flights, open), ExtendedOpen(vs, s, open))
    decreases |flights|
  {
    if flights == [] {
      GroundGrows(vs, s, e, open);
    } else {
      var first, rest := flights[0], flights[1..];
      assert StartsAt(vs + [s], e, first.from) && EndsAt(vs + [s], first.from, first.to) by {
        StartsPrefix(vs, s, e, first.from);
        FliesPrefix(vs, s, first.from, first.to);
        TakeoffPrefix(vs, s, first.to);
      }
      LogGrows(vs, s, first.to, rest, open);
      ExtendFirst(vs, s, flights, open);
    }
  }

  lemma ExtendFirst(vs: seq<Sample>, s: Sample, flights: seq<Span>, open: Option<nat>)
    requires flights != []
    ensures var more := ExtendedFlights(vs, s, flights, open);
            more != [] && more[0] == flights[0] && more[1..] == ExtendedFlights(vs, s, flights[1..], open)
  {
  }

  lemma GroundGrows(vs: seq<Sample>, s: Sample, e: nat, open: Option<nat>)
    requires IsLog(vs, e, [], open) && e <= |vs|
    ensures IsLog(vs + [s], e, ExtendedFlights(vs, s, [], open), ExtendedOpen(vs, s, open))
  {
    var more := vs + [s];
    match open
    case None =>
      forall m: nat | e < m <= |vs| ensures !TakeoffAt(more, m) {
        TakeoffPrefix(vs, s, m);
      }
      if TakeoffAt(more, |more|) {
        assert StartsAt(more, e, |more| - 5);
        assert Fast(more[|more| - 1]) && !LandingAt(more, |more|);
      }
    case Some(a) =>
      OpenGrows(vs, s, e, a);
  }

  lemma OpenGrows(vs: seq<Sample>, s: Sample, e: nat, a: nat)
    requires IsLog(vs, e, [], Some(a))
    ensures IsLog(vs + [s], e, ExtendedFlights(vs, s, [], Some(a)), ExtendedOpen(vs, s, Some(a)))
  {
    hide TakeoffAt, LandingAt;
    var more := vs + [s];
    StartsPrefix(vs, s, e, a);
    FliesPrefix(vs, s, a, |vs|);
    TakeoffPrefix(vs, s, |vs|);
    assert FliesUntil(more, a, |more|);
    if LandingAt(more, |more|) {
      assert EndsAt(more, a, |more|);
      assert IsLog(more, |more|, [], None);
    }
  }

  // Reading the samples one by one finds that log.
  lemma {:induction false} LogIsFound(vs: seq<Sample>)
    ensures IsLog(vs, 0, Flights(vs), OpenFrom(vs))
  {
    hide TakeoffAt, LandingAt, IsLog;
    if vs == [] {
      EmptyLog();
    } else {
      var front := vs[..|vs| - 1];
      LogIsFound(front);
      LogGrows(front, vs[|vs| - 1], 0, Flights(front), OpenFrom(front));
      assert front + [vs[|vs| - 1]] == vs;
    }
  }

  lemma EmptyLog()
    ensures IsLog([], 0, [], None)
  {
  }

  // ---- The entries of a log ----

  function CountFast(ls: seq<Sample>): nat {
    if ls == [] then 0 else CountFast(ls[..|ls| - 1]) + if Fast(ls[|ls| - 1]) then 1 else 0
  }

  // The first sample of the last slow run, -1 without one.
  function LastDrop(ls: seq<Sample>): (k: int)
    ensures -1 <= k < |ls|
  {
    if ls == [] then -1
    else if !Fast(ls[|ls| - 1]) && (|ls| == 1 || Fast(ls[|ls| - 2])) then |ls| - 1
    else LastDrop(ls[..|ls| - 1])
  }

  function Departed(s: Sample): HobbsEntry {
    HobbsEntry(s.time, s.lat, s.lon, s.altMeters, "", 0.0, 0.0, 0.0, 0)
  }

  function WithLanding(e: HobbsEntry, s: Sample): HobbsEntry {
    e.(landedTime := s.time, landedLatitude := s.lat, landedLongitude := s.lon, landedAltitudeMeters := s.altMeters)
  }

  // The entry of a flight over the samples ls.
  function EntryOf(ls: seq<Sample>): HobbsEntry
    requires ls != []
  {
    var e, k := Departed(ls[0]).(hobbsTimeMinutes := CountFast(ls) / 60), LastDrop(ls);
    if k >= 0 then WithLanding(e, ls[k]) else e
  }

  predicate InTrace(vs: seq<Sample>, f: Span) {
    f.from < f.to <= |vs|
  }

  predicate AllInTrace(vs: seq<Sample>, flights: seq<Span>) {
    forall i :: 0 <= i < |flights| ==> InTrace(vs, flights[i])
  }

  // A flight with less than a minute above the threshold is dropped.
  function Kept(ls: seq<Sample>): seq<HobbsEntry>
    requires ls != []
  {
    if CountFast(ls) >= 60 then [EntryOf(ls)] else []
  }

  function Closed(vs: seq<Sample>, flights: seq<Span>): seq<HobbsEntry>
    requires AllInTrace(vs, flights)
  {
    if flights == [] then []
    else
      var f := flights[|flights| - 1];
      Closed(vs, flights[..|flights| - 1]) + Kept(vs[f.from..f.to])
  }

  lemma FlightsInTrace(vs: seq<Sample>)
    ensures AllInTrace(vs, Flights(vs))
  {
    if vs != [] {
      FlightsInTrace(vs[..|vs| - 1]);
    }
  }

  ghost function LogOf(vs: seq<Sample>): seq<HobbsEntry> {
    FlightsInTrace(vs);
    var open := OpenFrom(vs);
    Closed(vs, Flights(vs)) + if open.Some? then [EntryOf(vs[open.value..])] else []
  }

  // ---- How the log changes with one more sample ----

  lemma OneMore(vs: seq<Sample>, s: Sample)
    ensures OpenFrom(vs + [s]) == ExtendedOpen(vs, s, OpenFrom(vs))
    ensures Flights(vs + [s]) == ExtendedFlights(vs, s, Flights(vs), OpenFrom(vs))
  {
    hide TakeoffAt, LandingAt;
    assert (vs + [s])[..|vs|] == vs;
  }

  lemma {:induction false} ClosedGrows(vs: seq<Sample>, s: Sample, flights: seq<Span>)
    requires AllInTrace(vs, flights)
    ensures AllInTrace(vs + [s], flights) && Closed(vs + [s], flights) == Closed(vs, flights)
  {
    hide Kept;
    if flights != [] {
      var f := flights[|flights| - 1];
      assert InTrace(vs, f);
      ClosedGrows(vs, s, flights[..|flights| - 1]);
      assert (vs + [s])[f.from..f.to] == vs[f.from..f.to];
    }
  }

  // What the log holds beside the flight in progress.
  ghost function Done(vs: seq<Sample>): seq<HobbsEntry> {
    FlightsInTrace(vs);
    Closed(vs, Flights(vs))
  }

  lemma Takeoff(vs: seq<Sample>, s: Sample)
    requires OpenFrom(vs) == None
    ensures Done(vs + [s]) == Done(vs) == LogOf(vs)
    ensures var more := vs + [s];
            if TakeoffAt(more, |more|) then
              && OpenFrom(more) == Some(|more| - 5)
              && LogOf(more) == LogOf(vs) + [EntryOf(more[|more| - 5..])]
            else OpenFrom(more) == None && LogOf(more) == LogOf(vs)
  {
    hide TakeoffAt, LandingAt, EntryOf, Flights, OpenFrom;
    OneMore(vs, s);
    FlightsInTrace(vs);
    ClosedGrows(vs, s, Flights(vs));
  }

  lemma Airborne(vs: seq<Sample>, s: Sample, a: nat)
    requires OpenFrom(vs) == Some(a)
    ensures var more := vs + [s];
            && LogOf(vs) == Done(vs) + [EntryOf(vs[a..])]
            && more[a..] == vs[a..] + [s]
            && (if LandingAt(more, |more|) then
                  OpenFrom(more) == None && LogOf(more) == Done(more) == Done(vs) + Kept(vs[a..] + [s])
                else
                  && OpenFrom(more) == Some(a) && Done(more) == Done(vs)
                  && LogOf(more) == Done(vs) + [EntryOf(vs[a..] + [s])])
  {
    hide TakeoffAt, LandingAt, EntryOf, Flights, OpenFrom, Kept;
    var more := vs + [s];
    OneMore(vs, s);
    FlightsInTrace(vs);
    ClosedGrows(vs, s, Flights(vs));
    assert more[a..] == vs[a..] + [s];
    if LandingAt(more, |more|) {
      var f := Span(a, |more|);
      assert (Flights(vs) + [f])[..|Flights(vs)|] == Flights(vs);
      assert more[a..|more|] == more[a..];
    }
  }

  lemma EntryFast(ls: seq<Sample>, s: Sample)
    requires ls != [] && Fast(s)
    ensures CountFast(ls + [s]) == CountFast(ls) + 1
    ensures EntryOf(ls + [s]) == EntryOf(ls).(hobbsTimeMinutes := (CountFast(ls) + 1) / 60)
  {
    assert (ls + [s])[..|ls|] == ls;
  }

  lemma EntrySlow(ls: seq<Sample>, s: Sample)
    requires ls != [] && !Fast(s)
    ensures CountFast(ls + [s]) == CountFast(ls)
    ensures EntryOf(ls + [s]) == if Fast(ls[|ls| - 1]) then WithLanding(EntryOf(ls), s) else EntryOf(ls)
  {
    assert (ls + [s])[..|ls|] == ls;
  }

  lemma {:induction false} AllFast(ls: seq<Sample>)
    requires forall i :: 0 <= i < |ls| ==> Fast(ls[i])
    ensures CountFast(ls) == |ls| && LastDrop(ls) == -1
  {
    if ls != [] {
      AllFast(ls[..|ls| - 1]);
    }
  }

  // ---- The runs the counters of the source measure ----

  function FastRun(vs: seq<Sample>): (n: nat)
    ensures n <= |vs|
  {
    if vs != [] && Fast(vs[|vs| - 1]) && vs[|vs| - 1].accurate then FastRun(vs[..|vs| - 1]) + 1 else 0
  }

  function SlowRun(vs: seq<Sample>): (n: nat)
    ensures n <= |vs|
  {
    if vs != [] && !Fast(vs[|vs| - 1]) then SlowRun(vs[..|vs| - 1]) + 1 else 0
  }

  lemma {:induction false} FastRunMeans(vs: seq<Sample>, n: nat)
    requires n <= |vs|
    ensures n <= FastRun(vs) <==> forall i :: |vs| - n <= i < |vs| ==> Fast(vs[i]) && vs[i].accurate
  {
    if n > 0 {
      var front, last := vs[..|vs| - 1], vs[|vs| - 1];
      FastRunMeans(front, n - 1);
      assert forall i :: |vs| - n <= i < |vs| - 1 ==> vs[i] == front[i];
      assert last == vs[|vs| - 1];
    }
  }

  lemma {:induction false} SlowRunMeans(vs: seq<Sample>, n: nat)
    requires n <= |vs|
    ensures n <= SlowRun(vs) <==> forall i :: |vs| - n <= i < |vs| ==> !Fast(vs[i])
  {
    if n > 0 {
      var front, last := vs[..|vs| - 1], vs[|vs| - 1];
      SlowRunMeans(front, n - 1);
      assert forall i :: |vs| - n <= i < |vs| - 1 ==> vs[i] == front[i];
      assert last == vs[|vs| - 1];
    }
  }

  lemma RunsDecide(vs: seq<Sample>)
    ensures TakeoffAt(vs, |vs|) <==> FastRun(vs) >= 5
    ensures LandingAt(vs, |vs|) <==> SlowRun(vs) >= 60
  {
    if |vs| >= 5 {
      FastRunMeans(vs, 5);
    }
    if |vs| >= 60 {
      SlowRunMeans(vs, 60);
    }
  }

  // ---- Totals ----

  function Total(es: seq<HobbsEntry>): int {
    if es == [] then 0 else Total(es[..|es| - 1]) + es[|es| - 1].hobbsTimeMinutes
  }

  lemma {:induction false} TotalConcat(es: seq<HobbsEntry>, fs: seq<HobbsEntry>)
    ensures Total(es + fs) == Total(es) + Total(fs)
  {
    if fs == [] {
      assert es + fs == es;
    } else {
      assert (es + fs)[..|es + fs| - 1] == es + fs[..|fs| - 1];
      TotalConcat(es, fs[..|fs| - 1]);
    }
  }

  lemma TotalOfOne(e: HobbsEntry)
    ensures Total([e]) == e.hobbsTimeMinutes
  {
  }

  lemma EntryMinutes(ls: seq<Sample>)
    requires ls != []
    ensures EntryOf(ls).hobbsTimeMinutes == CountFast(ls) / 60
  {
  }

  // A dropped flight held no minutes.
  lemma KeptMinutes(ls: seq<Sample>)
    requires ls != []
    ensures Total(Kept(ls)) == CountFast(ls) / 60
  {
    hide EntryOf, CountFast;
    EntryMinutes(ls);
    TotalOfOne(EntryOf(ls));
  }

  // Flights are dropped, yet the total of the log never decreases.
  lemma TotalNeverDecreases(vs: seq<Sample>, s: Sample)
    ensures Total(LogOf(vs)) <= Total(LogOf(vs + [s])) <= Total(LogOf(vs)) + 1
  {
    hide EntryOf, Kept, TakeoffAt, LandingAt, Closed, Total, LogOf, Done, CountFast;
    match OpenFrom(vs)
    case None =>
      Takeoff(vs, s);
      var more := vs + [s];
      if TakeoffAt(more, |more|) {
        TakeoffIsRoom(more);
        TakeoffMinutes(more);
        MinutesAfter(LogOf(vs), more[|more| - 5..]);
      }
    case Some(a) =>
      Airborne(vs, s, a);
      var ls := vs[a..];
      var n := Total(Done(vs));
      MinutesAfter(Done(vs), ls);
      MinutesAfter(Done(vs), ls + [s]);
      OneMoreFast(ls, s);
  }

  lemma MinutesAfter(done: seq<HobbsEntry>, ls: seq<Sample>)
    requires ls != []
    ensures Total(done + [EntryOf(ls)]) == Total(done) + CountFast(ls) / 60
    ensures Total(done + Kept(ls)) == Total(done) + CountFast(ls) / 60
  {
    hide EntryOf, Kept, CountFast, Total;
    TotalConcat(done, [EntryOf(ls)]);
    TotalConcat(done, Kept(ls));
    TotalOfOne(EntryOf(ls));
    EntryMinutes(ls);
    KeptMinutes(ls);
  }

  lemma OneMoreFast(ls: seq<Sample>, s: Sample)
    ensures CountFast(ls) <= CountFast(ls + [s]) <= CountFast(ls) + 1
  {
    assert (ls + [s])[..|ls|] == ls;
  }

  lemma TakeoffIsRoom(vs: seq<Sample>)
    requires TakeoffAt(vs, |vs|)
    ensures |vs| >= 5
  {
  }

  lemma TakeoffMinutes(vs: seq<Sample>)
    requires TakeoffAt(vs, |vs|)
    ensures CountFast(vs[|vs| - 5..]) == 5
    ensures EntryOf(vs[|vs| - 5..]) == Departed(vs[|vs| - 5])
  {
    AllFast(vs[|vs| - 5..]);
  }

  // ---- The minutes were flown ----

  ghost predicate Flown(vs: seq<Sample>) {
    var open := OpenFrom(vs);
    60 * Total(Done(vs)) + (if open.Some? then CountFast(vs[open.value..]) else FastRun(vs)) <= CountFast(vs)
  }

  lemma RunsGrow(vs: seq<Sample>, s: Sample)
    ensures CountFast(vs + [s]) == CountFast(vs) + if Fast(s) then 1 else 0
    ensures FastRun(vs + [s]) == if Fast(s) && s.accurate then FastRun(vs) + 1 else 0
    ensures SlowRun(vs + [s]) == if Fast(s) then 0 else SlowRun(vs) + 1
  {
    assert (vs + [s])[..|vs|] == vs;
  }

  lemma FlownGrows(vs: seq<Sample>, s: Sample)
    requires Flown(vs)
    ensures Flown(vs + [s])
  {
    hide EntryOf, Kept, TakeoffAt, LandingAt, Closed, Total, LogOf, Done, CountFast, FastRun, SlowRun;
    var more := vs + [s];
    RunsGrow(vs, s);
    RunsDecide(more);
    match OpenFrom(vs)
    case None =>
      Takeoff(vs, s);
      if TakeoffAt(more, |more|) {
        TakeoffIsRoom(more);
        TakeoffMinutes(more);
      }
    case Some(a) =>
      Airborne(vs, s, a);
      RunsGrow(vs[a..], s);
      MinutesAfter(Done(vs), vs[a..] + [s]);
  }

  lemma {:induction false} AlwaysFlown(vs: seq<Sample>)
    ensures Flown(vs)
  {
    hide Flown;
    if vs == [] {
      NothingFlown();
    } else {
      AlwaysFlown(vs[..|vs| - 1]);
      FlownGrows(vs[..|vs| - 1], vs[|vs| - 1]);
      assert vs[..|vs| - 1] + [vs[|vs| - 1]] == vs;
    }
  }

  lemma NothingFlown()
    ensures Flown([])
  {
  }

  // Sixty times the minutes of the log never exceeds the fast samples seen.
  lemma MinutesWereFlown(vs: seq<Sample>)
    ensures 60 * Total(LogOf(vs)) <= CountFast(vs)
  {
    hide EntryOf, Closed, Total, Done, CountFast, FastRun;
    AlwaysFlown(vs);
    var open := OpenFrom(vs);
    if open.Some? {
      MinutesAfter(Done(vs), vs[open.value..]);
    }
    DoneAndOpen(vs);
  }

  lemma DoneAndOpen(vs: seq<Sample>)
    ensures var open := OpenFrom(vs);
            LogOf(vs) == if open.Some? then Done(vs) + [EntryOf(vs[open.value..])] else Done(vs)
  {
  }

  // ---- The fields of a flight ----

  lemma {:induction false} LastDropIs(ls: seq<Sample>, k: nat)
    requires 0 < k < |ls| && Fast(ls[k - 1]) && forall i :: k <= i < |ls| ==> !Fast(ls[i])
    ensures LastDrop(ls) == k
  {
    if k < |ls| - 1 {
      LastDropIs(ls[..|ls| - 1], k);
    }
  }

  // A flight departs with its first sample, lands with the first of its sixty slow samples
  // and lasts as many seconds as it has fast samples.

  // Every flight of a log starts and ends as a flight does.
  lemma {:induction false} FlightOfLog(vs: seq<Sample>, e: nat, flights: seq<Span>, open: Option<nat>, i: nat)
    requires IsLog(vs, e, flights, open) && i < |flights|
    ensures StartsAt(vs, if i == 0 then e else flights[i - 1].to, flights[i].from)
    ensures EndsAt(vs, flights[i].from, flights[i].to)
    decreases |flights|
  {
    if i > 0 {
      FlightOfLog(vs, flights[0].to, flights[1..], open, i - 1);
    }
  }

  // ---- The log written out ----

  ghost function FastAt(ls: seq<Sample>): set<nat> {
    set i: nat | i < |ls| && ls[i].speedKmh > 50.0
  }

  // The seconds of a flight are its samples above 50 km/h.
  lemma {:induction false} CountFastIs(ls: seq<Sample>)
    ensures CountFast(ls) == |FastAt(ls)|
  {
    if ls == [] {
      assert FastAt(ls) == {};
    } else {
      var n := |ls| - 1;
      CountFastIs(ls[..n]);
      assert FastAt(ls) == FastAt(ls[..n]) + if ls[n].speedKmh > 50.0 then {n} else {};
    }
  }

  // A flight stays in the log exactly when it has sixty of them.
  lemma KeptExactly(ls: seq<Sample>)
    requires ls != []
    ensures Kept(ls) == if |FastAt(ls)| >= 60 then [EntryOf(ls)] else []
  {
    hide EntryOf, CountFast;
    CountFastIs(ls);
  }

  ghost predicate Dropped(ls: seq<Sample>, k: nat) {
    k < |ls| && ls[k].speedKmh <= 50.0 && (k == 0 || ls[k - 1].speedKmh > 50.0)
  }

  lemma {:induction false} LastDropExactly(ls: seq<Sample>)
    ensures var k := LastDrop(ls);
            if k < 0 then forall i: nat :: !Dropped(ls, i)
            else Dropped(ls, k) && forall i: nat :: Dropped(ls, i) ==> i <= k
  {
    if ls != [] {
      var n := |ls| - 1;
      LastDropExactly(ls[..n]);
      forall i: nat | i < n ensures Dropped(ls, i) == Dropped(ls[..n], i) {
      }
    }
  }

  // The entry of a flight: departure from its first sample, landing from the last one at which the speed
  // fell to 50 km/h or below, if any, and the whole minutes above it.
  lemma EntryWrittenOut(ls: seq<Sample>, k: nat)
    requires ls != []
    requires (forall i: nat :: !Dropped(ls, i)) || (Dropped(ls, k) && forall i: nat :: Dropped(ls, i) ==> i <= k)
    ensures var a, minutes := ls[0], |FastAt(ls)| / 60;
            EntryOf(ls) ==
              if forall i: nat :: !Dropped(ls, i) then
                HobbsEntry(a.time, a.lat, a.lon, a.altMeters, "", 0.0, 0.0, 0.0, minutes)
              else
                HobbsEntry(a.time, a.lat, a.lon, a.altMeters,
                           ls[k].time, ls[k].lat, ls[k].lon, ls[k].altMeters, minutes)
  {
    hide CountFast, LastDrop, FastAt;
    CountFastIs(ls);
    LastDropExactly(ls);
  }

  // A flight of the log departs with its first sample and lands with the first of the sixty slow ones.
  lemma FlightFields(vs: seq<Sample>, e: nat, a: nat, b: nat)
    requires StartsAt(vs, e, a) && EndsAt(vs, a, b)
    ensures a + 65 <= b
    ensures EntryOf(vs[a..b])
         == HobbsEntry(vs[a].time, vs[a].lat, vs[a].lon, vs[a].altMeters,
                       vs[b - 60].time, vs[b - 60].lat, vs[b - 60].lon, vs[b - 60].altMeters,
                       |FastAt(vs[a..b])| / 60)
  {
    hide CountFast, FastAt;
    assert Fast(vs[a + 4]);
    assert !Fast(vs[b - 60]);
    assert !LandingAt(vs, b - 1);
    var ls := vs[a..b];
    CountFastIs(ls);
    LastDropIs(ls, |ls| - 60);
  }

  // No takeoff is left out: five accurate samples above 50 km/h in a row end within a flight of the log or
  // within the one still open.
  lemma {:induction false} NoTakeoffLeftOut(vs: seq<Sample>, e: nat, flights: seq<Span>, open: Option<nat>, n: nat)
    requires IsLog(vs, e, flights, open) && e < n <= |vs| && TakeoffAt(vs, n)
    ensures (exists f :: f in flights && f.from < n <= f.to) || (open.Some? && open.value < n)
    decreases |flights|
  {
    if flights != [] {
      assert flights[0] in flights;
      if n > flights[0].to {
        NoTakeoffLeftOut(vs, flights[0].to, flights[1..], open, n);
      }
    }
  }
}
