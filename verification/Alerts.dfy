// main/alerts.go: the list of alerts, their generated Ids and their life after being raised.
module Alerting {
  import opened Options

  // Instants and durations are nanoseconds; the zero Time of the source is instant 0.
  const SECOND := 1_000_000_000
  const CENTISECOND := 10_000_000
  const DAY_CENTISECONDS := 8_640_000

  datatype Title = RuleTitle(name: string, color: string, value: real) | FeedTitle | OtherTitle(text: string)

  datatype Alert = Alert(
    id: int,
    kind: int,
    title: Title,
    timestamp: int,
    timestampEnd: int,
    active: bool,
    activeSeconds: real)

  function Seconds(duration: int): real {
    duration as real / 1000000000.0
  }

  // t.Hour()*1000000 + t.Minute()*10000 + t.Second()*100 + t.Nanosecond()/10000000
  function IdOf(t: nat): nat {
    var hour, minute, second := t / (3600 * SECOND) % 24, t / (60 * SECOND) % 60, t / SECOND % 60;
    hour * 1000000 + minute * 10000 + second * 100 + t % SECOND / CENTISECOND
  }

  function CentisecondOfDay(t: nat): nat {
    t / CENTISECOND % DAY_CENTISECONDS
  }

  // HHMMSScc written out from the centisecond of the day.
  function Digits(c: nat): nat {
    c / 360000 * 1000000 + c / 6000 % 60 * 10000 + c / 100 % 60 * 100 + c % 100
  }

  lemma Quotients(t: nat)
    ensures var c := t / CENTISECOND;
            t / SECOND == c / 100 && t % SECOND / CENTISECOND == c % 100
  {
  }

  lemma Quotients60(t: nat)
    ensures t / (60 * SECOND) == t / CENTISECOND / 6000 && t / (3600 * SECOND) == t / CENTISECOND / 360000
  {
  }

  // The digits below the day do not depend on the day.
  lemma WithinDay(c: nat, d: nat, m: nat)
    requires c == DAY_CENTISECONDS * d + m && m < DAY_CENTISECONDS
    ensures c / 360000 % 24 == m / 360000 && c / 6000 % 60 == m / 6000 % 60
    ensures c / 100 % 60 == m / 100 % 60 && c % 100 == m % 100
  {
    HourWithinDay(c, d, m);
    MinuteWithinDay(c, d, m);
    SecondWithinDay(c, d, m);
    CentisecondWithinDay(c, d, m);
  }

  lemma HourWithinDay(c: nat, d: nat, m: nat)
    requires c == DAY_CENTISECONDS * d + m && m < DAY_CENTISECONDS
    ensures c / 360000 % 24 == m / 360000
  {
    assert c / 360000 == 24 * d + m / 360000;
  }

  lemma MinuteWithinDay(c: nat, d: nat, m: nat)
    requires c == DAY_CENTISECONDS * d + m
    ensures c / 6000 % 60 == m / 6000 % 60
  {
    assert c / 6000 == 1440 * d + m / 6000;
  }

  lemma SecondWithinDay(c: nat, d: nat, m: nat)
    requires c == DAY_CENTISECONDS * d + m
    ensures c / 100 % 60 == m / 100 % 60
  {
    assert c / 100 == 86400 * d + m / 100;
  }

  lemma CentisecondWithinDay(c: nat, d: nat, m: nat)
    requires c == DAY_CENTISECONDS * d + m
    ensures c % 100 == m % 100
  {
    assert c == 100 * (86400 * d) + m;
  }

  lemma IdIsDigits(t: nat)
    ensures IdOf(t) == Digits(CentisecondOfDay(t))
  {
    var c := t / CENTISECOND;
    Quotients(t);
    Quotients60(t);
    WithinDay(c, c / DAY_CENTISECONDS, c % DAY_CENTISECONDS);
  }

  lemma SplitDigits(c: nat) returns (h: nat, m: nat, s: nat, cc: nat)
    ensures m < 60 && s < 60 && cc < 100
    ensures c == 360000 * h + 6000 * m + 100 * s + cc
    ensures Digits(c) == 1000000 * h + 10000 * m + 100 * s + cc
  {
    h, m, s, cc := c / 360000, c / 6000 % 60, c / 100 % 60, c % 100;
    assert c / 100 / 60 == c / 6000 && c / 6000 / 60 == c / 360000;
  }

  lemma DigitsInjective(c: nat, d: nat)
    requires Digits(c) == Digits(d)
    ensures c == d
  {
    var h, m, s, cc := SplitDigits(c);
    var h', m', s', cc' := SplitDigits(d);
    SameHundreds(10000 * h + 100 * m + s, cc, 10000 * h' + 100 * m' + s', cc');
    SameHundreds(100 * h + m, s, 100 * h' + m', s');
    SameHundreds(h, m, h', m');
  }

  lemma SameHundreds(a: nat, x: nat, b: nat, y: nat)
    requires 100 * a + x == 100 * b + y && x < 100 && y < 100
    ensures a == b && x == y
  {
  }

  // Two instants get the same Id exactly when they fall into the same centisecond of a day.
  lemma IdSeparates(t: nat, u: nat)
    ensures IdOf(t) == IdOf(u) <==> CentisecondOfDay(t) == CentisecondOfDay(u)
  {
    hide IdOf, Digits, CentisecondOfDay;
    IdIsDigits(t);
    IdIsDigits(u);
    if IdOf(t) == IdOf(u) {
      DigitsInjective(CentisecondOfDay(t), CentisecondOfDay(u));
    }
  }

  predicate HasId(data: seq<Alert>, id: int) {
    exists i :: 0 <= i < |data| && data[i].id == id
  }

  // The first free Id among those of t, t + 10 ms, ... before end
  function NextFree(data: seq<Alert>, t: nat, end: nat): (r: Option<int>)
    ensures r.Some? ==> t < end && !HasId(data, r.value)
    decreases end - t
  {
    if t >= end then None
    else if !HasId(data, IdOf(t)) then Some(IdOf(t))
    else NextFree(data, t + CENTISECOND, end)
  }

  // After a whole day of centiseconds every Id has been tried.
  function NewId(data: seq<Alert>, t: nat): Option<int> {
    NextFree(data, t, t + DAY_CENTISECONDS * CENTISECOND)
  }

  lemma {:induction false} AllTaken(data: seq<Alert>, t: nat, end: nat, j: nat)
    requires NextFree(data, t, end) == None && t + j * CENTISECOND < end
    ensures HasId(data, IdOf(t + j * CENTISECOND))
    decreases j
  {
    hide IdOf;
    if j > 0 {
      AllTaken(data, t + CENTISECOND, end, j - 1);
      assert t + CENTISECOND + (j - 1) * CENTISECOND == t + j * CENTISECOND;
    }
  }

  // i steps of 10 ms behind t
  function Later(t: nat, i: nat): nat {
    t + i * 10_000_000
  }

  // The Id found is that of the first centisecond, from the given time on, that no alert has.
  lemma FirstFree(data: seq<Alert>, t: nat, id: int) returns (j: nat)
    requires NewId(data, t) == Some(id)
    ensures id == IdOf(Later(t, j)) && !HasId(data, id)
    ensures forall i: nat :: i < j ==> HasId(data, IdOf(Later(t, i)))
  {
    j := FirstFreeBefore(data, t, t + DAY_CENTISECONDS * CENTISECOND);
  }

  lemma {:induction false} FirstFreeBefore(data: seq<Alert>, t: nat, end: nat) returns (j: nat)
    requires NextFree(data, t, end).Some?
    ensures NextFree(data, t, end) == Some(IdOf(Later(t, j)))
    ensures forall i: nat :: i < j ==> HasId(data, IdOf(Later(t, i)))
    decreases end - t
  {
    hide IdOf, HasId;
    if !HasId(data, IdOf(t)) {
      j := 0;
      assert Later(t, 0) == t;
    } else {
      var n := FirstFreeBefore(data, t + CENTISECOND, end);
      j := n + 1;
      forall i: nat | i < j ensures HasId(data, IdOf(Later(t, i))) {
        if i == 0 {
          assert Later(t, 0) == t;
        } else {
          assert Later(t + CENTISECOND, i - 1) == Later(t, i);
        }
      }
      assert Later(t + CENTISECOND, n) == Later(t, j);
    }
  }

  // Stepping 10 ms visits every centisecond of the day, so when NewId finds nothing the search
  // of the source never ends: however far it goes, the Id is taken.
  lemma SearchNeverEnds(data: seq<Alert>, t: nat, j: nat)
    requires NewId(data, t) == None
    ensures HasId(data, IdOf(t + j * CENTISECOND))
  {
    hide IdOf, HasId, NextFree;
    var k := j % DAY_CENTISECONDS;
    AllTaken(data, t, t + DAY_CENTISECONDS * CENTISECOND, k);
    ADayLater(t, j, k);
  }

  lemma ADayLater(t: nat, j: nat, k: nat)
    requires k == j % DAY_CENTISECONDS
    ensures IdOf(t + j * CENTISECOND) == IdOf(t + k * CENTISECOND)
  {
    hide IdOf, Digits;
    StepsOfCentiseconds(t, j);
    StepsOfCentiseconds(t, k);
    SameRemainder(t / CENTISECOND, j, j / DAY_CENTISECONDS, k);
    IdSeparates(t + j * CENTISECOND, t + k * CENTISECOND);
  }

  lemma StepsOfCentiseconds(t: nat, j: nat)
    ensures (t + j * CENTISECOND) / CENTISECOND == t / CENTISECOND + j
  {
  }

  lemma SameRemainder(c: nat, j: nat, q: nat, k: nat)
    requires j == DAY_CENTISECONDS * q + k
    ensures (c + j) % DAY_CENTISECONDS == (c + k) % DAY_CENTISECONDS
  {
  }

  // Pigeonholes: n different Ids need n alerts.
  lemma {:induction false} DistinctIdsNeedAlerts(data: seq<Alert>, t: nat, n: nat)
    requires n <= DAY_CENTISECONDS
    requires forall j: nat :: j < n ==> HasId(data, IdOf(t + j * CENTISECOND))
    ensures |data| >= n
  {
    if n > 0 {
      var last := t + (n - 1) * CENTISECOND;
      var i :| 0 <= i < |data| && data[i].id == IdOf(last);
      var rest := data[..i] + data[i + 1..];
      forall j: nat | j < n - 1 ensures HasId(rest, IdOf(t + j * CENTISECOND)) {
        var k :| 0 <= k < |data| && data[k].id == IdOf(t + j * CENTISECOND);
        DifferentSteps(t, j, n - 1);
        assert rest[if k < i then k else k - 1] == data[k];
      }
      DistinctIdsNeedAlerts(rest, t, n - 1);
    }
  }

  lemma DifferentSteps(t: nat, j: nat, k: nat)
    requires j < k < DAY_CENTISECONDS
    ensures IdOf(t + j * CENTISECOND) != IdOf(t + k * CENTISECOND)
  {
    hide IdOf;
    IdSeparates(t + j * CENTISECOND, t + k * CENTISECOND);
    StepsOfCentiseconds(t, j);
    StepsOfCentiseconds(t, k);
    DifferentRemainders(t / CENTISECOND, j, k);
  }

  lemma DifferentRemainders(c: nat, j: nat, k: nat)
    requires j < k < DAY_CENTISECONDS
    ensures (c + j) % DAY_CENTISECONDS != (c + k) % DAY_CENTISECONDS
  {
  }

  // A list with fewer alerts than a day has centiseconds always has a free Id.
  lemma FreeIdExists(data: seq<Alert>, t: nat)
    requires |data| < DAY_CENTISECONDS
    ensures NewId(data, t).Some?
  {
    if NewId(data, t) == None {
      forall j: nat | j < DAY_CENTISECONDS ensures HasId(data, IdOf(t + j * CENTISECOND)) {
        AllTaken(data, t, t + DAY_CENTISECONDS * CENTISECOND, j);
      }
      DistinctIdsNeedAlerts(data, t, DAY_CENTISECONDS);
    }
  }

  // ---- Raising and updating ----

  function Updated(a: Alert, active: bool, now: int): Alert {
    if active then
      a.(activeSeconds := if a.active then a.activeSeconds + Seconds(now - a.timestampEnd) else a.activeSeconds,
         timestampEnd := now,
         active := true)
    else a.(active := false)
  }

  // The newest alert with the Id takes the update.
  function Update(data: seq<Alert>, id: int, active: bool, now: int): (r: seq<Alert>)
    ensures |r| == |data|
  {
    if data == [] then []
    else
      var n := |data| - 1;
      if data[n].id == id then data[..n] + [Updated(data[n], active, now)]
      else Update(data[..n], id, active, now) + [data[n]]
  }

  function Raised(event: Alert, id: int): Alert {
    event.(id := id, timestampEnd := event.timestamp)
  }

  ghost predicate DistinctIds(data: seq<Alert>) {
    forall i, j :: 0 <= i < j < |data| ==> data[i].id != data[j].id
  }

  lemma {:induction false} UpdateLast(data: seq<Alert>, k: nat, active: bool, now: int)
    requires k < |data| && forall i :: k < i < |data| ==> data[i].id != data[k].id
    ensures Update(data, data[k].id, active, now) == data[k := Updated(data[k], active, now)]
  {
    if k < |data| - 1 {
      UpdateLast(data[..|data| - 1], k, active, now);
    }
  }

  lemma {:induction false} UpdateNone(data: seq<Alert>, id: int, active: bool, now: int)
    requires !HasId(data, id)
    ensures Update(data, id, active, now) == data
  {
    if data != [] {
      var front := data[..|data| - 1];
      assert forall i :: 0 <= i < |front| ==> front[i].id == data[i].id;
      UpdateNone(front, id, active, now);
    }
  }

  class Alerts {
    var alertsData: seq<Alert>
    var ready: bool // alertsData is not nil

    constructor ()
      ensures !ready && alertsData == []
    {
      alertsData, ready := [], false;
    }

    method PushEvent(event: Alert, now: nat) returns (id: int)
      requires ready && event.timestamp != 0 ==> event.timestamp >= 0 && NewId(alertsData, event.timestamp).Some?
      modifies this
      ensures ready == old(ready)
      ensures !ready ==> id == -1 && alertsData == old(alertsData)
      ensures ready && event.timestamp == 0 ==>
                && alertsData == Update(old(alertsData), event.id, event.active, now)
                && id == if HasId(old(alertsData), event.id) then event.id else -1
      ensures ready && event.timestamp != 0 ==>
                && Some(id) == NewId(old(alertsData), event.timestamp)
                && alertsData == old(alertsData) + [Raised(event, id)]
    {
      if !ready {
        return -1;
      }
      if event.timestamp == 0 {
        id := UpdateEvent(event, now);
        return;
      }
      id := NewEventId(event.timestamp);
      alertsData := alertsData + [event.(id := id, timestampEnd := event.timestamp)];
    }

    method UpdateEvent(event: Alert, now: nat) returns (id: int)
      modifies this
      ensures ready == old(ready)
      ensures alertsData == Update(old(alertsData), event.id, event.active, now)
      ensures id == if HasId(old(alertsData), event.id) then event.id else -1
    {
      var i := |alertsData| - 1;
      while i >= 0
        invariant -1 <= i < |alertsData|
        invariant alertsData == old(alertsData) && ready == old(ready)
        invariant forall k :: i < k < |alertsData| ==> alertsData[k].id != event.id
      {
        var found := alertsData[i];
        if found.id != event.id {
          i := i - 1;
          continue;
        }
        if event.active {
          if found.active {
            found := found.(activeSeconds := found.activeSeconds + Seconds(now - found.timestampEnd));
          }
          found := found.(timestampEnd := now);
        }
        found := found.(active := event.active);
        UpdateLast(alertsData, i, event.active, now);
        alertsData := alertsData[i := found];
        return found.id;
      }
      UpdateNone(alertsData, event.id, event.active, now);
      return -1;
    }

    method NewEventId(at: nat) returns (id: int)
      requires NewId(alertsData, at).Some?
      ensures Some(id) == NewId(alertsData, at)
    {
      var t := at;
      ghost var end := at + DAY_CENTISECONDS * CENTISECOND;
      while true
        invariant NextFree(alertsData, t, end) == NewId(alertsData, at)
        decreases end - t
      {
        id := IdOf(t);
        var taken := HasEventId(id);
        if !taken {
          return;
        }
        t := t + 10 * 1_000_000;
      }
    }

    method HasEventId(id: int) returns (found: bool)
      ensures found == HasId(alertsData, id)
    {
      var i := 0;
      while i < |alertsData|
        invariant 0 <= i <= |alertsData|
        invariant forall k :: 0 <= k < i ==> alertsData[k].id != id
      {
        if alertsData[i].id == id {
          return true;
        }
        i := i + 1;
      }
      return false;
    }
  }
}
