// main/ems.go, main/alerts.go: what one rule and one poll of the watchdog change, written out in terms
// of bands, recorded colours, times and alerts.
module EmsSteps {
  import opened Alerting
  import opened Ems
  import opened EmsRuns
  import opened Options

  // ---- One rule ----

  // A rule without a value, or with one outside every band, neither confirms nor clears.
  lemma OutsideEveryBand(w: World, rule: Rule, probes: map<string, real>)
    requires match ValueOf(rule.algorithm, Received(rule.probeNames, probes))
             case None => true
             case Some(x) =>
               forall b :: b in rule.colors && b.min <= x <= b.max ==> b.color !in ["red", "yellow", "green"]
    ensures RuleStep(w, rule, probes) == Some(w)
  {
    hide ValueOf, Received, ColorOf;
    var v := ValueOf(rule.algorithm, Received(rule.probeNames, probes));
    if v.Some? {
      MostSevere(rule, v.value);
    }
  }

  // The alerts once the colour the rule had is closed: the alert of that colour is no longer active,
  // and nothing else about it changes.
  ghost predicate ClosedIn(w: World, data: seq<Alert>, name: string, c: Color) {
    var former := if name in w.colors then w.colors[name] else NoColor;
    if former == c || (former != Yellow && former != Red) then data == w.data
    else
      exists j: nat | j < |w.data| ::
        && w.data[j].active && OwnerOf(w.data[j]) == OfRule(name, if former == Red then "red" else "yellow")
        && data == w.data[j := w.data[j].(active := false)]
  }

  lemma CloseExactly(w: World, name: string, c: Color)
    requires Inv(w) && c != NoColor
    ensures var v := LeaveColor(w, name, c);
            && ClosedIn(w, v.data, name, c)
            && v == w.(data := v.data, colors := w.colors[name := c])
  {
    hide Ident, Newest;
    var former := Get(w.colors, name, NoColor);
    if c != former && Alarm(former) {
      var j := NewestOfColor(w, name, former);
      NewestShown(w, name, former);
      TouchIs(w.(colors := w.colors[name := c]), j, false);
      assert w.data[j].active;
    }
  }

  // Green closes and raises nothing.
  lemma TurnsGreen(w: World, name: string, value: real)
    requires Inv(w)
    ensures EnterColor(w, name, Green, value).Some?
    ensures var v := EnterColor(w, name, Green, value).value;
            && ClosedIn(w, v.data, name, Green)
            && v == w.(data := v.data, colors := w.colors[name := Green])
  {
    hide LeaveColor;
    CloseExactly(w, name, Green);
  }

  // No alert of the rule and the colour was raised in the last five minutes.
  ghost predicate Rested(w: World, name: string, text: string) {
    forall i :: 0 <= i < |w.data| && OwnerOf(w.data[i]) == OfRule(name, text) ==>
                  w.now - w.data[i].timestamp >= 300 * SECOND
  }

  lemma RestedByNewest(w: World, name: string, c: Color)
    requires Inv(w) && Alarm(c)
    ensures var k := Newest(w.data, Key(name, c));
            Rested(w, name, Text(c)) <==> k < 0 || w.now - w.data[k].timestamp >= 300 * SECOND
  {
    hide Newest, Ident, Indexed, ActiveExactly;
    var k := Newest(w.data, Key(name, c));
    forall i | 0 <= i < |w.data| && OwnerOf(w.data[i]) == Key(name, c) && i < k
      ensures w.data[i].timestamp <= w.data[k].timestamp
    {
      assert Apart(w.data[i], w.data[k]);
    }
  }

  // Entering yellow or red closes the colour before. With no alert of the new colour in the last five
  // minutes a new one is raised at the end of the list, or else the last one is reopened.
  lemma EntersAlarm(w: World, name: string, c: Color, value: real) returns (closed: seq<Alert>, id: int, k: int)
    requires Inv(w) && (c == Yellow || c == Red) && EnterColor(w, name, c, value).Some?
    requires name in w.colors ==> w.colors[name] != c
    ensures ClosedIn(w, closed, name, c)
    ensures var v, text := EnterColor(w, name, c, value).value, if c == Red then "red" else "yellow";
            && v.colors == w.colors[name := c]
            && (v.now, v.lastFrame, v.feedLost, v.feedId) == (w.now, w.lastFrame, w.feedLost, w.feedId)
            && if Rested(w, name, text) then
                 v.data == closed + [
                   Alert(id, if c == Red then 15 else 14, RuleTitle(name, text, value), w.now, w.now, true, 0.0)]
               else
                 && 0 <= k < |w.data| == |closed| && OwnerOf(w.data[k]) == OfRule(name, text)
                 && (forall i :: k < i < |w.data| ==> OwnerOf(w.data[i]) != OfRule(name, text))
                 && v.data == closed[k := w.data[k].(active := true, timestampEnd := w.now)]
  {
    hide Ident, Newest, NewId, LeaveColor, KindOf, Touch, Inv, Rested, ClosedIn;
    CloseExactly(w, name, c);
    RestedByNewest(w, name, c);
    var u := ClosedFirst(w, name, c);
    closed, k := u.data, Newest(w.data, Key(name, c));
    IndexedEverywhere(w, name, c);
    IndexedEverywhere(u, name, c);
    RuleKinds(name, c);
    id := if IdFor(u).Some? then IdFor(u).value else 0;
    var r := LeaveColor(w, name, c);
    var former := Get(w.colors, name, NoColor);
    assert EnterColor(w, name, c, value) == EnterAlarm(r, former, name, c, value);
    assert r == w.(data := closed, colors := w.colors[name := c]);
    if k >= 0 {
      TouchIs(r, k, true);
    }
    if Rested(w, name, Text(c)) {
      assert IdFor(r) == Some(id);
      assert EnterAlarm(r, former, name, c, value) == Some(RaiseRule(r, name, c, value, id));
    }
  }

  lemma IndexedEverywhere(w: World, name: string, c: Color)
    requires Inv(w) && Alarm(c)
    ensures IndexedAt(w, name, c) && w.ready && DistinctIds(w.data) && w.now >= 300 * SECOND
  {
  }

  // Staying in yellow or red moves the end of the alert and counts the time.
  lemma StaysInAlarm(w: World, name: string, c: Color, value: real) returns (k: nat)
    requires Inv(w) && (c == Yellow || c == Red) && name in w.colors && w.colors[name] == c
    ensures EnterColor(w, name, c, value).Some?
    ensures var v, text := EnterColor(w, name, c, value).value, if c == Red then "red" else "yellow";
            && k < |w.data| && OwnerOf(w.data[k]) == OfRule(name, text) && w.data[k].active
            && var a := w.data[k];
               v == w.(data := w.data[
                         k := a.(timestampEnd := w.now,
                                 activeSeconds := a.activeSeconds + (w.now - a.timestampEnd) as real / 1000000000.0)])
  {
    hide Ident, Newest, NewId, KindOf, Touch;
    k := NewestOfColor(w, name, c);
    NewestShown(w, name, c);
    TouchIs(Recolored(w, name, c), k, true);
    assert w.colors[name := c] == w.colors;
    NotLeft(w, name, c);
  }

  // ---- One poll of the watchdog ----

  // The feed is lost exactly when frames came and stopped for five seconds or more, and it was lost
  // before or a rule is recorded yellow or red. The alert comes and goes with it.
  lemma PollExactly(w: World, rules: seq<Rule>) returns (k: int)
    requires Inv(w) && Apply(w, rules, FeedPoll).Some?
    ensures var v := Apply(w, rules, FeedPoll).value;
            && (v.feedLost <==>
                  && w.lastFrame != 0 && w.now - w.lastFrame >= 5 * SECOND
                  && (w.feedLost || exists name :: name in w.colors && w.colors[name] in [Yellow, Red]))
            && v.(data := w.data, feedLost := w.feedLost, feedId := w.feedId) == w
            && if w.feedLost then
                 && 0 <= k < |w.data| && OwnerOf(w.data[k]) == OfFeed && w.data[k].active
                 && var a := w.data[k];
                    v.data == w.data[
                      k := if v.feedLost then
                             a.(timestampEnd := w.now,
                                activeSeconds := a.activeSeconds + (w.now - a.timestampEnd) as real / 1000000000.0)
                           else a.(active := false)]
               else if v.feedLost then
                 v.data == w.data + [Alert(v.feedId, 13, FeedTitle, w.now, w.now, true, 0.0)]
               else v.data == w.data
  {
    hide Ident, Newest, NewId, Touch;
    k := Newest(w.data, OfFeed);
    assert InAlarm(w.colors) <==> exists name :: name in w.colors && w.colors[name] in [Yellow, Red];
    if w.feedLost {
      assert Shown(w, k);
      TouchIs(w, k, true);
      TouchIs(w.(feedLost := false), k, false);
    }
  }

  // What the watchdog measures from: the time of the last frame of the run, zero before the first.
  lemma {:induction false} LastFrameOfRun(start: nat, rules: seq<Rule>, ops: seq<Op>, i: nat)
    requires i <= |ops| && Run(Initial(start), rules, ops).Some?
    requires forall j :: i <= j < |ops| ==> !ops[j].EmsFrame?
    requires i > 0 ==> ops[i - 1].EmsFrame?
    ensures var w := Run(Initial(start), rules, ops).value;
            if i == 0 then w.lastFrame == 0
            else Run(Initial(start), rules, ops[..i]).Some?
                 && w.lastFrame == Run(Initial(start), rules, ops[..i]).value.now
    decreases |ops|
  {
    hide Apply;
    if ops != [] {
      var n := |ops| - 1;
      var front := ops[..n];
      var u := Run(Initial(start), rules, front).value;
      if i == |ops| {
        assert ops[..i] == ops;
        FrameStamps(u, rules, ops[n]);
      } else {
        LastFrameOfRun(start, rules, front, i);
        assert front[..i] == ops[..i];
        OthersKeepStamp(u, rules, ops[n]);
      }
    }
  }

  lemma FrameStamps(w: World, rules: seq<Rule>, op: Op)
    requires op.EmsFrame? && Apply(w, rules, op).Some?
    ensures var v := Apply(w, rules, op).value; v.now == w.now && v.lastFrame == w.now
  {
    hide RuleSteps;
    ClocksStay(w.(lastFrame := w.now), rules, op.probes);
  }

  lemma {:induction false} ClocksStay(w: World, rules: seq<Rule>, probes: map<string, real>)
    requires RuleSteps(w, rules, probes).Some?
    ensures SameClocks(w, RuleSteps(w, rules, probes).value)
    decreases |rules|
  {
    hide ValueOf, Received, ColorOf, EnterColor;
    if rules != [] {
      var u, last := RuleSteps(w, rules[..|rules| - 1], probes).value, rules[|rules| - 1];
      ClocksStay(w, rules[..|rules| - 1], probes);
      var v := ValueOf(last.algorithm, Received(last.probeNames, probes));
      if v.Some? {
        EnterColorNow(u, last.name, ColorOf(last, v.value), v.value);
      }
    }
  }

  lemma OthersKeepStamp(w: World, rules: seq<Rule>, op: Op)
    requires !op.EmsFrame? && Apply(w, rules, op).Some?
    ensures Apply(w, rules, op).value.lastFrame == w.lastFrame
  {
    hide NewId, Update, KindOf;
  }
}
