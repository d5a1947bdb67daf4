// What every sequence of EMS frames and feed checks keeps true of the list of alerts.
module EmsRuns {
  import opened Alerting
  import opened Ems
  import opened Options

  // ---- Identifiers ----

  lemma IdentInjective(n: string, c: Color, m: string, d: Color)
    requires Alarm(c) && Alarm(d) && Ident(n, c) == Ident(m, d)
    ensures n == m && c == d
  {
    var s, t := Ident(n, c), Ident(m, d);
    assert s[|s| - 1] == Text(c)[|Text(c)| - 1] && t[|t| - 1] == Text(d)[|Text(d)| - 1];
    assert c == d;
    NameWithin(n, c);
    NameWithin(m, d);
  }

  lemma NameWithin(n: string, c: Color)
    ensures |Ident(n, c)| == 5 + |n| + |Text(c)| && Ident(n, c)[4..4 + |n|] == n
  {
    var s := Ident(n, c);
    forall i | 0 <= i < |n| ensures s[4..4 + |n|][i] == n[i] {
      assert s == "ems-" + (n + ("-" + Text(c)));
    }
  }

  // pushEventByIdent gives the alert of a rule the type of its colour, whatever the rule is called.
  lemma RuleKinds(n: string, c: Color)
    requires Alarm(c)
    ensures KindOf(Ident(n, c)) == if c == Yellow then 14 else 15
  {
    hide KindOf;
    var s := Ident(n, c);
    assert HasPrefix(s, "ems-") by {
      assert s[..4] == "ems-";
    }
    assert HasSuffix(s, "-" + Text(c)) by {
      assert s == ("ems-" + n) + ("-" + Text(c));
    }
    LastLetter(s, "-" + Text(c));
    if HasSuffix(s, "-yellow") {
      LastLetter(s, "-yellow");
    }
    EngineKind(s);
  }

  lemma LastLetter(s: string, suffix: string)
    requires HasSuffix(s, suffix) && suffix != ""
    ensures s != "" && s[|s| - 1] == suffix[|suffix| - 1]
    ensures |suffix| > 1 ==> |s| > 1 && s[|s| - 2] == suffix[|suffix| - 2]
  {
    var tail := s[|s| - |suffix|..];
    assert tail[|tail| - 1] == s[|s| - 1];
    assert |suffix| > 1 ==> tail[|tail| - 2] == s[|s| - 2];
  }

  lemma EngineKind(s: string)
    requires HasPrefix(s, "ems-")
    requires HasSuffix(s, "-yellow") || HasSuffix(s, "-red")
    ensures KindOf(s) == if HasSuffix(s, "-yellow") then 14 else 15
  {
    assert s[0] == 'e';
    assert s != "ems-feed" by {
      if HasSuffix(s, "-yellow") {
        LastLetter(s, "-yellow");
      } else {
        RedSuffix(s);
      }
    }
    OtherIdents(s);
    hide HasPrefix, HasSuffix;
  }

  lemma OtherIdents(s: string)
    requires s != "" && s[0] == 'e'
    ensures s !in {"save-settings", "disk-space", "partition-rebuild", "fs-write"}
    ensures s !in {
              "pressure-sensor-temp-read", "pressure-sensor-pressure-read", "BaroBroken", "sdrconfig", "ping-missing"}
  {
  }

  lemma RedSuffix(s: string)
    requires HasSuffix(s, "-red")
    ensures s != "ems-feed"
  {
    assert s[|s| - 4] == "-red"[0];
  }

  // ---- The newest alert of an owner ----

  datatype Owner = OfRule(name: string, text: string) | OfFeed | OfOther

  function OwnerOf(a: Alert): Owner {
    match a.title
    case RuleTitle(name, color, _) => OfRule(name, color)
    case FeedTitle => OfFeed
    case OtherTitle(_) => OfOther
  }

  function Key(name: string, c: Color): Owner {
    OfRule(name, Text(c))
  }

  // -1 without one
  function Newest(data: seq<Alert>, o: Owner): (k: int)
    ensures -1 <= k < |data|
    ensures k >= 0 ==> OwnerOf(data[k]) == o
    ensures forall i :: k < i < |data| ==> OwnerOf(data[i]) != o
  {
    if data == [] then -1
    else if OwnerOf(data[|data| - 1]) == o then |data| - 1
    else Newest(data[..|data| - 1], o)
  }

  lemma NewestAppend(data: seq<Alert>, a: Alert, o: Owner)
    ensures Newest(data + [a], o) == if OwnerOf(a) == o then |data| else Newest(data, o)
  {
    assert (data + [a])[..|data|] == data;
  }

  lemma NewestSame(data: seq<Alert>, k: nat, a: Alert, o: Owner)
    requires k < |data| && OwnerOf(a) == OwnerOf(data[k])
    ensures Newest(data[k := a], o) == Newest(data, o)
  {
    var more := data[k := a];
    var i, j := Newest(data, o), Newest(more, o);
    assert i >= 0 ==> OwnerOf(more[i]) == o;
    assert j >= 0 ==> OwnerOf(data[j]) == o;
  }

  // ---- The invariant ----

  // The maps of the engine function point at the newest alert of every rule and colour.
  ghost predicate Indexed(w: World) {
    forall name, c | Alarm(c) :: IndexedAt(w, name, c)
  }

  ghost predicate IndexedAt(w: World, name: string, c: Color) {
    var k, ident := Newest(w.data, Key(name, c)), Ident(name, c);
    && (k >= 0 <==> ident in w.ids)
    && (k >= 0 <==> ident in w.times)
    && (k >= 0 ==> w.ids[ident] == w.data[k].id && w.times[ident] == w.data[k].timestamp)
    && (Get(w.colors, name, NoColor) == c ==> k >= 0)
  }

  ghost predicate FeedIndexed(w: World) {
    w.feedLost ==> Newest(w.data, OfFeed) >= 0 && w.data[Newest(w.data, OfFeed)].id == w.feedId
  }

  // An alert is active exactly while it is the newest of a rule that is in its colour, or of a lost feed.
  ghost predicate Shown(w: World, i: nat)
    requires i < |w.data|
  {
    match OwnerOf(w.data[i])
    case OfRule(name, text) =>
      var c := Get(w.colors, name, NoColor);
      i == Newest(w.data, OfRule(name, text)) && Alarm(c) && text == Text(c)
    case OfFeed => i == Newest(w.data, OfFeed) && w.feedLost
    case OfOther => false
  }

  ghost predicate ActiveExactly(w: World) {
    forall i: nat | i < |w.data| :: w.data[i].active == Shown(w, i)
  }

  ghost predicate Timed(a: Alert, now: int) {
    && 0 < a.timestamp <= a.timestampEnd <= now
    && 0.0 <= a.activeSeconds <= Seconds(a.timestampEnd - a.timestamp)
  }

  ghost predicate AllTimed(w: World) {
    forall i :: 0 <= i < |w.data| ==> Timed(w.data[i], w.now)
  }

  // Alerts of one rule and colour are raised at least five minutes apart.
  ghost predicate Spaced(data: seq<Alert>) {
    forall i, j :: 0 <= i < j < |data| ==> Apart(data[i], data[j])
  }

  ghost predicate Apart(a: Alert, b: Alert) {
    OwnerOf(a).OfRule? && OwnerOf(a) == OwnerOf(b) ==> b.timestamp - a.timestamp >= EMS_RULE_ALERT_INTERVAL
  }

  ghost predicate Bookkeeping(w: World) {
    && w.ready
    && DistinctIds(w.data)
    && Indexed(w)
    && FeedIndexed(w)
    && AllTimed(w)
    && Spaced(w.data)
    && w.now >= EMS_RULE_ALERT_INTERVAL
  }

  ghost predicate Inv(w: World) {
    Bookkeeping(w) && ActiveExactly(w)
  }

  // ---- One alert touched ----

  lemma TouchIs(w: World, k: nat, active: bool)
    requires w.ready && DistinctIds(w.data) && k < |w.data|
    ensures Touch(w, w.data[k].id, active) == w.(data := w.data[k := Updated(w.data[k], active, w.now)])
  {
    UpdateLast(w.data, k, active, w.now);
  }

  lemma UpdatedKeepsTimes(a: Alert, active: bool, now: int)
    requires Timed(a, now)
    ensures Timed(Updated(a, active, now), now)
  {
  }

  lemma TouchKeeps(w: World, k: nat, active: bool)
    requires Bookkeeping(w) && k < |w.data|
    ensures Bookkeeping(Touch(w, w.data[k].id, active))
    ensures Touch(w, w.data[k].id, active) == w.(data := w.data[k := Updated(w.data[k], active, w.now)])
  {
    hide Ident, Newest, Touch;
    var a := Updated(w.data[k], active, w.now);
    var v := w.(data := w.data[k := a]);
    TouchIs(w, k, active);
    UpdatedKeepsTimes(w.data[k], active, w.now);
    assert Indexed(v) && FeedIndexed(v) by {
      NewestSame(w.data, k, a, OfFeed);
      forall name, c | Alarm(c) ensures IndexedAt(v, name, c) {
        NewestSame(w.data, k, a, Key(name, c));
        assert IndexedAt(w, name, c);
      }
    }
    assert Spaced(v.data) by {
      forall i, j | 0 <= i < j < |v.data| ensures Apart(v.data[i], v.data[j]) {
        assert Apart(w.data[i], w.data[j]);
      }
    }
  }

  // ---- The steps of a rule ----

  // The rule is recorded in colour c, and in an alarm colour its alert ends now.
  ghost predicate Confirmed(w: World, name: string, c: Color) {
    && Get(w.colors, name, NoColor) == c
    && (Alarm(c) ==>
          var k := Newest(w.data, Key(name, c));
          k >= 0 && w.data[k].timestampEnd == w.now)
  }

  function Recolored(w: World, name: string, c: Color): World {
    w.(colors := w.colors[name := c])
  }

  lemma NewestOfColor(w: World, name: string, c: Color) returns (k: nat)
    requires Inv(w) && Alarm(c)
    requires Get(w.colors, name, NoColor) == c || Ident(name, c) in w.times
    ensures k < |w.data| && k == Newest(w.data, Key(name, c))
    ensures Get(w.ids, Ident(name, c), 0) == w.data[k].id
  {
    assert IndexedAt(w, name, c);
    k := Newest(w.data, Key(name, c));
  }

  lemma RecoloredKeeps(w: World, name: string, c: Color)
    requires Bookkeeping(w)
    requires Alarm(c) ==> Newest(w.data, Key(name, c)) >= 0
    ensures Bookkeeping(Recolored(w, name, c))
  {
    hide Ident, Newest;
    var v := Recolored(w, name, c);
    forall m, d | Alarm(d) ensures IndexedAt(v, m, d) {
      assert IndexedAt(w, m, d);
    }
  }

  lemma CloseKeeps(w: World, name: string, former: Color)
    requires Inv(w) && Alarm(former) && Get(w.colors, name, NoColor) == former
    ensures Inv(Touch(Recolored(w, name, Green), Get(w.ids, Ident(name, former), 0), false))
  {
    hide Ident, Newest;
    var k := NewestOfColor(w, name, former);
    var r := Recolored(w, name, Green);
    RecoloredKeeps(w, name, Green);
    TouchKeeps(r, k, false);
    var v := Touch(r, w.data[k].id, false);
    forall i: nat | i < |v.data| ensures v.data[i].active == Shown(v, i) {
      assert w.data[i].active == Shown(w, i);
      NewestSame(w.data, k, Updated(w.data[k], false, w.now), OwnerOf(w.data[i]));
    }
  }

  // Reopening the alert of a colour, or confirming it.
  lemma MarkKeeps(w: World, name: string, c: Color)
    requires Inv(w) && Alarm(c)
    requires Get(w.colors, name, NoColor) == c || (!Alarm(Get(w.colors, name, NoColor)) && Ident(name, c) in w.times)
    ensures Inv(Touch(Recolored(w, name, c), Get(w.ids, Ident(name, c), 0), true))
    ensures Confirmed(Touch(Recolored(w, name, c), Get(w.ids, Ident(name, c), 0), true), name, c)
  {
    hide Ident, Newest, Touch, Shown;
    var k := NewestOfColor(w, name, c);
    var r := Recolored(w, name, c);
    RecoloredKeeps(w, name, c);
    TouchKeeps(r, k, true);
    var v := r.(data := w.data[k := Updated(w.data[k], true, w.now)]);
    forall i: nat | i < |v.data| ensures v.data[i].active == Shown(v, i) {
      MarkShown(w, name, c, k, i);
    }
    NewestSame(w.data, k, Updated(w.data[k], true, w.now), Key(name, c));
  }

  lemma MarkShown(w: World, name: string, c: Color, k: nat, i: nat)
    requires ActiveExactly(w) && Alarm(c) && k < |w.data| && k == Newest(w.data, Key(name, c)) && i < |w.data|
    requires Get(w.colors, name, NoColor) == c || !Alarm(Get(w.colors, name, NoColor))
    ensures var v := Recolored(w, name, c).(data := w.data[k := Updated(w.data[k], true, w.now)]);
            v.data[i].active == Shown(v, i)
  {
    hide Ident, Newest;
    assert w.data[i].active == Shown(w, i);
    NewestSame(w.data, k, Updated(w.data[k], true, w.now), OwnerOf(w.data[i]));
    TextInjective(c, Get(w.colors, name, NoColor));
  }

  lemma TextInjective(c: Color, d: Color)
    ensures Text(c) == Text(d) <==> c == d
  {
  }

  // ---- Raising ----

  lemma RaisedKeepsIds(data: seq<Alert>, event: Alert, at: nat, id: int)
    requires DistinctIds(data) && NewId(data, at) == Some(id)
    ensures DistinctIds(data + [Raised(event, id)])
  {
    assert !HasId(data, id);
  }

  lemma RaisedKeepsTimes(w: World, event: Alert, id: int)
    requires w.ready && AllTimed(w) && event.timestamp == w.now > 0 && event.activeSeconds == 0.0
    ensures AllTimed(Raise(w, event, id))
  {
  }

  // The newest alert of an owner is the latest one raised.
  lemma RaisedKeepsSpacing(data: seq<Alert>, a: Alert)
    requires Spaced(data)
    requires var k := Newest(data, OwnerOf(a)); k >= 0 ==> Apart(data[k], a)
    ensures Spaced(data + [a])
  {
    var k, more := Newest(data, OwnerOf(a)), data + [a];
    forall i, j | 0 <= i < j < |more| ensures Apart(more[i], more[j]) {
      if j < |data| {
        assert Apart(data[i], data[j]);
      } else if i < k {
        assert Apart(data[i], data[k]);
      }
    }
  }

  lemma RaiseRuleKeeps(w: World, name: string, c: Color, value: real, id: int)
    requires Inv(w) && Alarm(c) && !Alarm(Get(w.colors, name, NoColor))
    requires IdFor(w) == Some(id)
    requires w.now - Get(w.times, Ident(name, c), 0) >= EMS_RULE_ALERT_INTERVAL
    ensures Inv(RaiseRule(Recolored(w, name, c), name, c, value, id))
    ensures Confirmed(RaiseRule(Recolored(w, name, c), name, c, value, id), name, c)
  {
    hide Ident, Newest, Shown, KindOf, NewId;
    var a := Raised(RuleAlert(name, c, value, w.now), id);
    var v := RaiseRule(Recolored(w, name, c), name, c, value, id);
    RaisedKeepsIds(w.data, RuleAlert(name, c, value, w.now), w.now, id);
    RaisedKeepsTimes(w, RuleAlert(name, c, value, w.now), id);
    NewestAppend(w.data, a, OfFeed);
    NewestAppend(w.data, a, Key(name, c));
    assert Spaced(v.data) by {
      assert IndexedAt(w, name, c);
      RaisedKeepsSpacing(w.data, a);
    }
    assert Indexed(v) by {
      forall m, d | Alarm(d) ensures IndexedAt(v, m, d) {
        RaisedIndex(w, name, c, value, id, m, d);
      }
    }
    forall i: nat | i < |v.data| ensures v.data[i].active == Shown(v, i) {
      RaisedShown(w, name, c, value, id, i);
    }
  }

  lemma RaisedIndex(w: World, name: string, c: Color, value: real, id: int, m: string, d: Color)
    requires w.ready && IndexedAt(w, m, d) && Alarm(c) && Alarm(d)
    ensures IndexedAt(RaiseRule(Recolored(w, name, c), name, c, value, id), m, d)
  {
    hide Ident, Newest, KindOf;
    NewestAppend(w.data, Raised(RuleAlert(name, c, value, w.now), id), Key(m, d));
    TextInjective(c, d);
    if Ident(name, c) == Ident(m, d) {
      IdentInjective(name, c, m, d);
    }
  }

  lemma RaisedShown(w: World, name: string, c: Color, value: real, id: int, i: nat)
    requires w.ready && ActiveExactly(w) && Alarm(c) && !Alarm(Get(w.colors, name, NoColor)) && i <= |w.data|
    ensures var v := RaiseRule(Recolored(w, name, c), name, c, value, id);
            v.data[i].active == Shown(v, i)
  {
    hide Ident, Newest, KindOf;
    var a := Raised(RuleAlert(name, c, value, w.now), id);
    if i < |w.data| {
      assert w.data[i].active == Shown(w, i);
      NewestAppend(w.data, a, OwnerOf(w.data[i]));
    } else {
      NewestAppend(w.data, a, OwnerOf(a));
    }
  }

  // ---- One whole rule, one frame ----

  lemma EnterColorKeeps(w: World, name: string, c: Color, value: real)
    requires Inv(w) && EnterColor(w, name, c, value).Some?
    ensures Inv(EnterColor(w, name, c, value).value)
    ensures c != NoColor ==> Confirmed(EnterColor(w, name, c, value).value, name, c)
  {
    hide Ident, Newest, NewId, Inv, Touch, RaiseRule, Confirmed;
    var former := Get(w.colors, name, NoColor);
    if c == NoColor {
    } else if c == former || !Alarm(former) {
      EnterFrom(w, former, name, c, value);
    } else {
      CloseKeeps(w, name, former);
      var u := Touch(Recolored(w, name, Green), Get(w.ids, Ident(name, former), 0), false);
      LeaveThen(w, name, c, former);
      EnterFrom(u, former, name, c, value);
    }
  }

  // Leaving an alarm colour for c is leaving it for green and then taking c.
  lemma LeaveThen(w: World, name: string, c: Color, former: Color)
    requires former == Get(w.colors, name, NoColor) && Alarm(former) && c != former
    ensures var u := Touch(Recolored(w, name, Green), Get(w.ids, Ident(name, former), 0), false);
            LeaveColor(w, name, c) == Recolored(u, name, c) && Get(u.colors, name, NoColor) == Green && u.now == w.now
  {
    hide Ident, Update;
    assert w.colors[name := Green][name := c] == w.colors[name := c];
  }

  ghost predicate Entered(u: World, former: Color, name: string, c: Color, value: real) {
    var r := Recolored(u, name, c);
    if c == Green then Inv(r) && Confirmed(r, name, c)
    else
      var v := EnterAlarm(r, former, name, c, value);
      v.Some? ==> Inv(v.value) && Confirmed(v.value, name, c)
  }

  lemma EnterFrom(u: World, former: Color, name: string, c: Color, value: real)
    requires Inv(u) && c != NoColor
    requires c == former ==> Get(u.colors, name, NoColor) == c
    requires c != former ==> !Alarm(Get(u.colors, name, NoColor))
    ensures Entered(u, former, name, c, value)
  {
    hide Ident, Newest, NewId, Touch, RaiseRule, KindOf;
    var r := Recolored(u, name, c);
    if c == Green {
      GreenKeeps(u, name);
    } else if c != former && u.now - Get(u.times, Ident(name, c), 0) >= EMS_RULE_ALERT_INTERVAL {
      if IdFor(u).Some? {
        RaiseRuleKeeps(u, name, c, value, IdFor(u).value);
      }
    } else {
      MarkKeeps(u, name, c);
    }
  }

  lemma GreenKeeps(w: World, name: string)
    requires Inv(w) && !Alarm(Get(w.colors, name, NoColor))
    ensures Inv(Recolored(w, name, Green))
  {
    hide Ident, Newest;
    RecoloredKeeps(w, name, Green);
    var v := Recolored(w, name, Green);
    forall i: nat | i < |v.data| ensures v.data[i].active == Shown(v, i) {
      assert w.data[i].active == Shown(w, i);
    }
  }

  predicate SameClocks(w: World, v: World) {
    v.now == w.now && v.lastFrame == w.lastFrame
  }

  lemma {:induction false} RuleStepsKeep(w: World, rules: seq<Rule>, probes: map<string, real>)
    requires Inv(w) && RuleSteps(w, rules, probes).Some?
    ensures Inv(RuleSteps(w, rules, probes).value) && SameClocks(w, RuleSteps(w, rules, probes).value)
    decreases |rules|
  {
    hide Inv, EnterColor, ValueOf, Received, ColorOf;
    if rules != [] {
      RuleStepsKeep(w, rules[..|rules| - 1], probes);
      RuleStepKeeps(RuleSteps(w, rules[..|rules| - 1], probes).value, rules[|rules| - 1], probes);
    }
  }

  lemma RuleStepKeeps(w: World, rule: Rule, probes: map<string, real>)
    requires Inv(w) && RuleStep(w, rule, probes).Some?
    ensures Inv(RuleStep(w, rule, probes).value) && SameClocks(w, RuleStep(w, rule, probes).value)
  {
    hide Inv, ValueOf, Received, ColorOf, EnterColor, Confirmed;
    var v := ValueOf(rule.algorithm, Received(rule.probeNames, probes));
    if v.Some? {
      EnterColorKeeps(w, rule.name, ColorOf(rule, v.value), v.value);
      EnterColorNow(w, rule.name, ColorOf(rule, v.value), v.value);
    }
  }

  lemma EnterColorNow(w: World, name: string, c: Color, value: real)
    requires EnterColor(w, name, c, value).Some?
    ensures SameClocks(w, EnterColor(w, name, c, value).value)
  {
    hide Ident, LeaveColor, EnterAlarm;
    LeaveNow(w, name, c);
    if Alarm(c) {
      AlarmNow(LeaveColor(w, name, c), Get(w.colors, name, NoColor), name, c, value);
    }
  }

  lemma LeaveNow(w: World, name: string, c: Color)
    ensures SameClocks(w, LeaveColor(w, name, c))
  {
    hide Ident, Update;
  }

  lemma AlarmNow(w: World, former: Color, name: string, c: Color, value: real)
    requires EnterAlarm(w, former, name, c, value).Some?
    ensures SameClocks(w, EnterAlarm(w, former, name, c, value).value)
  {
    hide Ident, KindOf, IdFor, Update;
  }

  // ---- The feed watchdog ----

  lemma FeedCheckKeeps(w: World)
    requires Inv(w) && FeedCheck(w).Some?
    ensures Inv(FeedCheck(w).value) && FeedCheck(w).value.now == w.now
  {
    hide Ident, Newest, NewId, Touch, Shown, InAlarm, KindOf, Update;
    if Silent(w) && w.feedLost {
      FeedTouchKeeps(w, true);
    } else if Silent(w) && InAlarm(w.colors) {
      FeedRaiseKeeps(w, IdFor(w).value);
    } else if !Silent(w) && w.feedLost {
      FeedTouchKeeps(w, false);
    }
  }

  lemma FeedTouchKeeps(w: World, lost: bool)
    requires Inv(w) && w.feedLost
    ensures Inv(Touch(w.(feedLost := lost), w.feedId, lost))
    ensures Touch(w.(feedLost := lost), w.feedId, lost).now == w.now
    ensures w.(feedLost := true) == w
  {
    hide Ident, Newest;
    var k := Newest(w.data, OfFeed);
    var r := w.(feedLost := lost);
    assert Indexed(r) by {
      forall m, d | Alarm(d) ensures IndexedAt(r, m, d) {
        assert IndexedAt(w, m, d);
      }
    }
    TouchKeeps(r, k, lost);
    var v := Touch(r, w.feedId, lost);
    forall i: nat | i < |v.data| ensures v.data[i].active == Shown(v, i) {
      assert w.data[i].active == Shown(w, i);
      NewestSame(w.data, k, Updated(w.data[k], lost, w.now), OwnerOf(w.data[i]));
    }
  }

  lemma FeedRaiseKeeps(w: World, id: int)
    requires Inv(w) && !w.feedLost && IdFor(w) == Some(id)
    ensures Inv(Raise(w, FeedAlert(w.now), id).(feedLost := true, feedId := id))
  {
    hide Ident, Newest, NewId, KindOf;
    var v := Raise(w, FeedAlert(w.now), id).(feedLost := true, feedId := id);
    AppendKeeps(w, FeedAlert(w.now), id);
    NewestAppend(w.data, Raised(FeedAlert(w.now), id), OfFeed);
    assert Indexed(v) by {
      forall m, d | Alarm(d) ensures IndexedAt(v, m, d) {
        assert IndexedAt(Raise(w, FeedAlert(w.now), id), m, d);
      }
    }
    forall i: nat | i < |v.data| ensures v.data[i].active == Shown(v, i) {
      assert i < |w.data| ==> w.data[i].active == Shown(w, i);
      NewestAppend(w.data, Raised(FeedAlert(w.now), id), OwnerOf(v.data[i]));
    }
  }

  // Alerts that belong to no rule leave the bookkeeping of the rules alone.
  lemma AppendKeeps(w: World, event: Alert, id: int)
    requires Inv(w) && IdFor(w) == Some(id)
    requires !OwnerOf(event).OfRule? && event.timestamp == w.now && event.activeSeconds == 0.0
    ensures var v := Raise(w, event, id);
            DistinctIds(v.data) && Indexed(v) && AllTimed(v) && Spaced(v.data)
  {
    hide Ident, Newest, NewId;
    var a, v := Raised(event, id), Raise(w, event, id);
    RaisedKeepsIds(w.data, event, w.now, id);
    RaisedKeepsTimes(w, event, id);
    RaisedKeepsSpacing(w.data, a);
    forall m, d | Alarm(d) ensures IndexedAt(v, m, d) {
      assert IndexedAt(w, m, d);
      NewestAppend(w.data, a, Key(m, d));
    }
  }

  lemma OtherKeeps(w: World, kind: int, text: string, id: int)
    requires Inv(w) && IdFor(w) == Some(id)
    ensures Inv(Raise(w, OtherAlert(kind, text, w.now), id))
  {
    hide Ident, Newest, NewId;
    var a := OtherAlert(kind, text, w.now);
    var v := Raise(w, a, id);
    AppendKeeps(w, a, id);
    NewestAppend(w.data, Raised(a, id), OfFeed);
    forall i: nat | i < |v.data| ensures v.data[i].active == Shown(v, i) {
      assert i < |w.data| ==> w.data[i].active == Shown(w, i);
      NewestAppend(w.data, Raised(a, id), OwnerOf(v.data[i]));
    }
  }

  // ---- Runs ----

  datatype Op =
    | Wait(nanoseconds: nat)
    | EmsFrame(probes: map<string, real>)
    | FeedPoll
    | OneShot(kind: int, text: string)

  // None is a search for a free Id that never ends.
  ghost function Apply(w: World, rules: seq<Rule>, op: Op): Option<World> {
    match op
    case Wait(n) => Some(w.(now := w.now + n))
    case EmsFrame(probes) => Frame(w, rules, probes)
    case FeedPoll => FeedCheck(w)
    case OneShot(kind, text) =>
      match IdFor(w)
      case None => None
      case Some(id) => Some(Raise(w, OtherAlert(kind, text, w.now), id))
  }

  ghost function Run(w: World, rules: seq<Rule>, ops: seq<Op>): Option<World> {
    if ops == [] then Some(w)
    else
      match Run(w, rules, ops[..|ops| - 1])
      case None => None
      case Some(v) => Apply(v, rules, ops[|ops| - 1])
  }

  function Initial(now: nat): World {
    World([], true, map[], map[], map[], 0, false, 0, now)
  }

  lemma InitialInv(now: nat)
    requires now >= EMS_RULE_ALERT_INTERVAL
    ensures Inv(Initial(now))
  {
  }

  lemma WaitKeeps(w: World, n: nat)
    requires Inv(w)
    ensures Inv(w.(now := w.now + n))
  {
    hide Ident, Newest;
    var v := w.(now := w.now + n);
    forall m, d | Alarm(d) ensures IndexedAt(v, m, d) {
      assert IndexedAt(w, m, d);
    }
    forall i: nat | i < |v.data| ensures v.data[i].active == Shown(v, i) {
      assert w.data[i].active == Shown(w, i);
    }
  }

  lemma FrameKeeps(w: World, rules: seq<Rule>, probes: map<string, real>)
    requires Inv(w) && Frame(w, rules, probes).Some?
    ensures var v := Frame(w, rules, probes).value; Inv(v) && v.now == w.now && v.lastFrame == w.now
  {
    hide Inv, RuleSteps;
    StampKeeps(w);
    RuleStepsKeep(w.(lastFrame := w.now), rules, probes);
  }

  lemma StampKeeps(w: World)
    requires Inv(w)
    ensures Inv(w.(lastFrame := w.now))
  {
    hide Ident, Newest;
    var v := w.(lastFrame := w.now);
    forall m, d | Alarm(d) ensures IndexedAt(v, m, d) {
      assert IndexedAt(w, m, d);
    }
    forall i: nat | i < |v.data| ensures v.data[i].active == Shown(v, i) {
      assert w.data[i].active == Shown(w, i);
    }
  }

  lemma ApplyKeeps(w: World, rules: seq<Rule>, op: Op)
    requires Inv(w) && Apply(w, rules, op).Some?
    ensures Inv(Apply(w, rules, op).value)
  {
    hide Inv, NewId, Frame, FeedCheck;
    match op
    case Wait(n) => WaitKeeps(w, n);
    case EmsFrame(probes) => FrameKeeps(w, rules, probes);
    case FeedPoll => FeedCheckKeeps(w);
    case OneShot(kind, text) => OtherKeeps(w, kind, text, IdFor(w).value);
  }

  lemma {:induction false} RunKeeps(w: World, rules: seq<Rule>, ops: seq<Op>)
    requires Inv(w) && Run(w, rules, ops).Some?
    ensures Inv(Run(w, rules, ops).value)
    decreases |ops|
  {
    hide Inv, Apply;
    if ops != [] {
      RunKeeps(w, rules, ops[..|ops| - 1]);
      ApplyKeeps(Run(w, rules, ops[..|ops| - 1]).value, rules, ops[|ops| - 1]);
    }
  }

  // ---- What this means for the pilot ----

  ghost predicate Reachable(w: World, start: nat, rules: seq<Rule>, ops: seq<Op>) {
    start >= EMS_RULE_ALERT_INTERVAL && Run(Initial(start), rules, ops) == Some(w)
  }

  lemma ReachableInv(w: World, start: nat, rules: seq<Rule>, ops: seq<Op>)
    requires Reachable(w, start, rules, ops)
    ensures Inv(w)
  {
    InitialInv(start);
    RunKeeps(Initial(start), rules, ops);
  }

  ghost predicate IsAlertOf(w: World, i: nat, name: string, c: Color) {
    i < |w.data| && OwnerOf(w.data[i]) == Key(name, c)
  }

  // The alert the engine function stores for a rule and a colour is on the list, and it is active
  // exactly while that is the colour of the rule; every older alert of the two is inactive.
  lemma StoredAlert(w: World, start: nat, rules: seq<Rule>, ops: seq<Op>, name: string, c: Color) returns (k: int)
    requires Reachable(w, start, rules, ops) && Alarm(c)
    ensures k < 0 ==> Ident(name, c) !in w.ids && Get(w.colors, name, NoColor) != c
    ensures k >= 0 ==>
              && IsAlertOf(w, k, name, c)
              && Ident(name, c) in w.ids && w.data[k].id == w.ids[Ident(name, c)]
              && w.data[k].active == (Get(w.colors, name, NoColor) == c)
    ensures forall i: nat :: IsAlertOf(w, i, name, c) && i != k ==> !w.data[i].active
  {
    hide Ident, Run;
    ReachableInv(w, start, rules, ops);
    k := Newest(w.data, Key(name, c));
    assert IndexedAt(w, name, c);
    TextInjective(c, Get(w.colors, name, NoColor));
    forall i: nat | i == k || IsAlertOf(w, i, name, c)
      ensures w.data[i].active == (i == k && Get(w.colors, name, NoColor) == c)
    {
      assert w.data[i].active == Shown(w, i);
    }
  }

  lemma OneActiveAlertPerRule(w: World, start: nat, rules: seq<Rule>, ops: seq<Op>, i: nat, j: nat)
    requires Reachable(w, start, rules, ops) && i < |w.data| && j < |w.data|
    requires w.data[i].active && w.data[j].active
    requires OwnerOf(w.data[i]).OfRule? && OwnerOf(w.data[j]).OfRule?
    requires OwnerOf(w.data[i]).name == OwnerOf(w.data[j]).name
    ensures i == j
  {
    hide Run, Newest;
    ReachableInv(w, start, rules, ops);
    assert Shown(w, i) && Shown(w, j);
  }

  lemma FeedAlertActive(w: World, start: nat, rules: seq<Rule>, ops: seq<Op>) returns (k: int)
    requires Reachable(w, start, rules, ops)
    ensures w.feedLost <==> exists i :: 0 <= i < |w.data| && OwnerOf(w.data[i]) == OfFeed && w.data[i].active
    ensures forall i :: 0 <= i < |w.data| && OwnerOf(w.data[i]) == OfFeed && w.data[i].active ==> i == k
    ensures w.feedLost ==> 0 <= k < |w.data| && w.data[k].id == w.feedId
  {
    hide Run;
    ReachableInv(w, start, rules, ops);
    k := Newest(w.data, OfFeed);
    forall i | 0 <= i < |w.data| && OwnerOf(w.data[i]) == OfFeed ensures w.data[i].active == (i == k && w.feedLost) {
      assert w.data[i].active == Shown(w, i);
    }
  }

  lemma AlertsOverARun(w: World, start: nat, rules: seq<Rule>, ops: seq<Op>)
    requires Reachable(w, start, rules, ops)
    ensures DistinctIds(w.data)
    ensures forall i :: 0 <= i < |w.data| ==>
                          && w.data[i].timestamp <= w.data[i].timestampEnd <= w.now
                          && 0.0 <= w.data[i].activeSeconds <= Seconds(w.data[i].timestampEnd - w.data[i].timestamp)
    ensures forall i, j ::
              0 <= i < j < |w.data| && OwnerOf(w.data[i]) == OwnerOf(w.data[j]) && OwnerOf(w.data[i]).OfRule? ==>
                             w.data[j].timestamp - w.data[i].timestamp >= 300 * SECOND
  {
    hide Run, Newest, Indexed, ActiveExactly;
    ReachableInv(w, start, rules, ops);
    forall i, j | 0 <= i < j < |w.data| ensures Apart(w.data[i], w.data[j]) {
    }
  }

  // ---- What one frame does ----

  // The step for another rule only lets ends move to the present.
  ghost predicate Elsewhere(w: World, v: World, name: string) {
    && v.now == w.now
    && Get(v.colors, name, NoColor) == Get(w.colors, name, NoColor)
    && |w.data| <= |v.data|
    && (forall i :: 0 <= i < |w.data| ==>
          OwnerOf(v.data[i]) == OwnerOf(w.data[i]) && v.data[i].timestampEnd in {w.data[i].timestampEnd, w.now})
    && (forall i :: |w.data| <= i < |v.data| ==> OwnerOf(v.data[i]).OfRule? && OwnerOf(v.data[i]).name != name)
  }

  lemma {:induction false} UpdateOwners(data: seq<Alert>, id: int, active: bool, now: int)
    ensures var r := Update(data, id, active, now);
            forall i :: 0 <= i < |data| ==>
                          OwnerOf(r[i]) == OwnerOf(data[i]) && r[i].timestampEnd in {data[i].timestampEnd, now}
  {
    if data != [] && data[|data| - 1].id != id {
      UpdateOwners(data[..|data| - 1], id, active, now);
    }
  }

  lemma LeaveElsewhere(w: World, other: string, c: Color, name: string)
    requires other != name
    ensures Elsewhere(w, LeaveColor(w, other, c), name)
  {
    hide Ident, Update;
    UpdateOwners(w.data, Get(w.ids, Ident(other, Get(w.colors, other, NoColor)), 0), false, w.now);
  }

  lemma AlarmElsewhere(w: World, former: Color, other: string, c: Color, value: real, name: string)
    requires EnterAlarm(w, former, other, c, value).Some? && other != name
    ensures Elsewhere(w, EnterAlarm(w, former, other, c, value).value, name)
  {
    hide Ident, NewId, KindOf, Update;
    UpdateOwners(w.data, Get(w.ids, Ident(other, c), 0), true, w.now);
  }

  lemma EnterElsewhere(w: World, other: string, c: Color, value: real, name: string)
    requires EnterColor(w, other, c, value).Some? && other != name
    ensures Elsewhere(w, EnterColor(w, other, c, value).value, name)
  {
    hide LeaveColor, EnterAlarm;
    LeaveElsewhere(w, other, c, name);
    if Alarm(c) {
      AlarmElsewhere(LeaveColor(w, other, c), Get(w.colors, other, NoColor), other, c, value, name);
    }
  }

  lemma ElsewhereNewest(w: World, v: World, name: string, c: Color)
    requires Elsewhere(w, v, name)
    ensures Newest(v.data, Key(name, c)) == Newest(w.data, Key(name, c))
  {
    var k, o := Newest(w.data, Key(name, c)), Key(name, c);
    assert k >= 0 ==> OwnerOf(v.data[k]) == o;
    assert forall i :: 0 <= i < |v.data| && OwnerOf(v.data[i]) == o ==> i < |w.data| && OwnerOf(w.data[i]) == o;
  }

  lemma ElsewhereConfirmed(w: World, v: World, name: string, c: Color)
    requires Elsewhere(w, v, name) && Confirmed(w, name, c)
    ensures Confirmed(v, name, c)
  {
    hide Newest;
    ElsewhereNewest(w, v, name, c);
  }

  ghost function ColorSeen(rule: Rule, probes: map<string, real>): Color {
    match ValueOf(rule.algorithm, Received(rule.probeNames, probes))
    case None => NoColor
    case Some(value) => ColorOf(rule, value)
  }

  lemma {:induction false} RuleStepsConfirm(w: World, rules: seq<Rule>, probes: map<string, real>, i: nat)
    requires Inv(w) && RuleSteps(w, rules, probes).Some?
    requires i < |rules| && forall j :: i < j < |rules| ==> rules[j].name != rules[i].name
    requires ColorSeen(rules[i], probes) != NoColor
    ensures Confirmed(RuleSteps(w, rules, probes).value, rules[i].name, ColorSeen(rules[i], probes))
    decreases |rules|
  {
    hide Inv, EnterColor, ValueOf, Received, ColorOf, Confirmed, Elsewhere;
    var front, last := rules[..|rules| - 1], rules[|rules| - 1];
    var u := RuleSteps(w, front, probes).value;
    RuleStepsKeep(w, front, probes);
    var seen := ValueOf(last.algorithm, Received(last.probeNames, probes));
    if i == |rules| - 1 {
      EnterColorKeeps(u, last.name, ColorOf(last, seen.value), seen.value);
    } else {
      RuleStepsConfirm(w, front, probes, i);
      if seen.Some? {
        var v := EnterColor(u, last.name, ColorOf(last, seen.value), seen.value).value;
        EnterElsewhere(u, last.name, ColorOf(last, seen.value), seen.value, rules[i].name);
        ElsewhereConfirmed(u, v, rules[i].name, ColorSeen(rules[i], probes));
      }
    }
  }

  // After a frame every rule with a value in one of its bands is recorded in the most severe colour of
  // those, and in an alarm colour it has an active alert that ends at this very frame.
  lemma FrameConfirms(w: World, rules: seq<Rule>, probes: map<string, real>, i: nat, value: real) returns (k: int)
    requires Inv(w) && Frame(w, rules, probes).Some?
    requires i < |rules| && forall j :: i < j < |rules| ==> rules[j].name != rules[i].name
    requires ValueOf(rules[i].algorithm, Received(rules[i].probeNames, probes)) == Some(value)
    ensures var v, rule := Frame(w, rules, probes).value, rules[i];
            var red := exists b :: b in rule.colors && b.color == "red" && b.min <= value <= b.max;
            var yellow := exists b :: b in rule.colors && b.color == "yellow" && b.min <= value <= b.max;
            var green := exists b :: b in rule.colors && b.color == "green" && b.min <= value <= b.max;
            && v.lastFrame == w.now
            && (red || yellow || green ==>
                  && rule.name in v.colors
                  && v.colors[rule.name] == if red then Red else if yellow then Yellow else Green)
            && (red || yellow ==>
                  && 0 <= k < |v.data| && v.data[k].active && v.data[k].timestampEnd == w.now
                  && OwnerOf(v.data[k]) == OfRule(rule.name, if red then "red" else "yellow"))
  {
    MostSevere(rules[i], value);
    if ColorOf(rules[i], value) == NoColor {
      hide RuleSteps, Inv;
      FrameKeeps(w, rules, probes);
      k := -1;
    } else {
      k := ColorConfirmed(w, rules, probes, i, value);
    }
  }

  lemma ColorConfirmed(w: World, rules: seq<Rule>, probes: map<string, real>, i: nat, value: real) returns (k: int)
    requires Inv(w) && Frame(w, rules, probes).Some?
    requires i < |rules| && forall j :: i < j < |rules| ==> rules[j].name != rules[i].name
    requires ValueOf(rules[i].algorithm, Received(rules[i].probeNames, probes)) == Some(value)
    requires ColorOf(rules[i], value) != NoColor
    ensures var v, c := Frame(w, rules, probes).value, ColorOf(rules[i], value);
            && v.lastFrame == w.now
            && Get(v.colors, rules[i].name, NoColor) == c
            && (Alarm(c) ==>
                  && k >= 0 && IsAlertOf(v, k, rules[i].name, c)
                  && v.data[k].active && v.data[k].timestampEnd == w.now)
  {
    hide RuleSteps, ValueOf, Received, ColorOf, Inv;
    var v, c, name := Frame(w, rules, probes).value, ColorSeen(rules[i], probes), rules[i].name;
    FrameKeeps(w, rules, probes);
    StampKeeps(w);
    RuleStepsKeep(w.(lastFrame := w.now), rules, probes);
    RuleStepsConfirm(w.(lastFrame := w.now), rules, probes, i);
    k := Newest(v.data, Key(name, c));
    if Alarm(c) {
      NewestShown(v, name, c);
    }
  }

  lemma NewestShown(v: World, name: string, c: Color)
    requires Inv(v) && Alarm(c) && Get(v.colors, name, NoColor) == c && Newest(v.data, Key(name, c)) >= 0
    ensures v.data[Newest(v.data, Key(name, c))].active
  {
    hide Newest, Indexed;
    assert Shown(v, Newest(v.data, Key(name, c)));
  }

  // ---- Leaving a colour ----

  // The world in which the colour a rule leaves is closed and no other colour taken yet
  lemma ClosedFirst(w: World, name: string, c: Color) returns (u: World)
    requires Inv(w) && Alarm(c) && Get(w.colors, name, NoColor) != c
    ensures Inv(u) && LeaveColor(w, name, c) == Recolored(u, name, c)
    ensures u.times == w.times && u.ids == w.ids && u.now == w.now && |u.data| == |w.data|
    ensures var k := Newest(w.data, Key(name, c));
            Newest(u.data, Key(name, c)) == k && (k >= 0 ==> u.data[k] == w.data[k] && !w.data[k].active)
  {
    hide Ident, Newest;
    var former, k := Get(w.colors, name, NoColor), Newest(w.data, Key(name, c));
    TextInjective(c, former);
    if k >= 0 {
      assert w.data[k].active == Shown(w, k);
    }
    if Alarm(former) {
      CloseKeeps(w, name, former);
      LeaveThen(w, name, c, former);
      u := Touch(Recolored(w, name, Green), Get(w.ids, Ident(name, former), 0), false);
      var j := NewestOfColor(w, name, former);
      RecoloredKeeps(w, name, Green);
      TouchKeeps(Recolored(w, name, Green), j, false);
      NewestSame(w.data, j, Updated(w.data[j], false, w.now), Key(name, c));
    } else {
      u := w;
    }
  }

  // ---- Before the list is created ----

  // An alarm that begins before the list is created is recorded and not raised, and while it lasts
  // no later frame raises it.
  lemma TooEarly(w: World, name: string, c: Color, value: real, later: nat, value': real)
    requires !w.ready && w.data == [] && Alarm(c) && Get(w.colors, name, NoColor) != c
    requires w.now - Get(w.times, Ident(name, c), 0) >= EMS_RULE_ALERT_INTERVAL
    ensures EnterColor(w, name, c, value).Some?
    ensures var v := EnterColor(w, name, c, value).value.(ready := true, now := later);
            v.data == [] && Get(v.colors, name, NoColor) == c && EnterColor(v, name, c, value') == Some(v)
  {
    hide Ident, KindOf, NewId, LeaveColor;
    LeftEarly(w, name, c);
    var v := EnterColor(w, name, c, value).value.(ready := true, now := later);
    assert v.colors[name := c] == v.colors;
    assert LeaveColor(v, name, c) == v by {
      NotLeft(v, name, c);
    }
  }

  lemma LeftEarly(w: World, name: string, c: Color)
    requires !w.ready
    ensures LeaveColor(w, name, c) == Recolored(w, name, c)
  {
    hide Ident;
  }

  lemma NotLeft(w: World, name: string, c: Color)
    requires Get(w.colors, name, NoColor) == c
    ensures LeaveColor(w, name, c) == Recolored(w, name, c)
  {
    hide Ident;
  }

  // ---- The search for an Id ends ----

  lemma StepFinishes(w: World, rule: Rule, probes: map<string, real>)
    requires |w.data| < DAY_CENTISECONDS
    ensures RuleStep(w, rule, probes).Some? && |RuleStep(w, rule, probes).value.data| <= |w.data| + 1
  {
    hide ColorOf, ValueOf, Received, EnterColor;
    var v := ValueOf(rule.algorithm, Received(rule.probeNames, probes));
    if v.Some? {
      EnterFinishes(w, rule.name, ColorOf(rule, v.value), v.value);
    }
  }

  lemma EnterFinishes(w: World, name: string, c: Color, value: real)
    requires |w.data| < DAY_CENTISECONDS
    ensures EnterColor(w, name, c, value).Some? && |EnterColor(w, name, c, value).value.data| <= |w.data| + 1
  {
    hide Ident, NewId, KindOf, LeaveColor, Update;
    var u := LeaveColor(w, name, c);
    assert |u.data| == |w.data| by {
      LeaveSize(w, name, c);
    }
    FreeIdExists(u.data, u.now);
  }

  lemma LeaveSize(w: World, name: string, c: Color)
    ensures |LeaveColor(w, name, c).data| == |w.data|
  {
    hide Ident, Update;
  }

  lemma {:induction false} StepsFinish(w: World, rules: seq<Rule>, probes: map<string, real>)
    requires |w.data| + |rules| <= DAY_CENTISECONDS
    ensures RuleSteps(w, rules, probes).Some? && |RuleSteps(w, rules, probes).value.data| <= |w.data| + |rules|
    decreases |rules|
  {
    hide RuleStep;
    if rules != [] {
      StepsFinish(w, rules[..|rules| - 1], probes);
      StepFinishes(RuleSteps(w, rules[..|rules| - 1], probes).value, rules[|rules| - 1], probes);
    }
  }

  lemma ApplyFinishes(w: World, rules: seq<Rule>, op: Op)
    requires |w.data| + |rules| < DAY_CENTISECONDS
    ensures Apply(w, rules, op).Some? && |Apply(w, rules, op).value.data| <= |w.data| + |rules| + 1
  {
    hide NewId, KindOf, RuleSteps, Update;
    FreeIdExists(w.data, w.now);
    if op.EmsFrame? {
      StepsFinish(w.(lastFrame := w.now), rules, op.probes);
    }
  }

  // No step of a run can hang before the list could hold an alert for every centisecond of a day.
  lemma {:induction false} RunFinishes(w: World, rules: seq<Rule>, ops: seq<Op>)
    requires |w.data| + |ops| * (|rules| + 1) <= DAY_CENTISECONDS
    ensures Run(w, rules, ops).Some? && |Run(w, rules, ops).value.data| <= |w.data| + |ops| * (|rules| + 1)
    decreases |ops|
  {
    hide Apply;
    if ops != [] {
      assert |ops| * (|rules| + 1) == (|ops| - 1) * (|rules| + 1) + |rules| + 1;
      RunFinishes(w, rules, ops[..|ops| - 1]);
      ApplyFinishes(Run(w, rules, ops[..|ops| - 1]).value, rules, ops[|ops| - 1]);
    }
  }
}
