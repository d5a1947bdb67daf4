// main/ems.go: engine rules evaluated on every EMS frame, and the watchdog over the frames.
module Ems {
  import opened Alerting
  import opened Options
  import opened Reals

  const EMS_RULE_ALERT_INTERVAL := 300 * SECOND
  const EMS_FEED_TIMEOUT := 5 * SECOND

  // NoColor is the empty string of the source: no band matches, or nothing recorded yet.
  datatype Color = NoColor | Green | Yellow | Red

  predicate Alarm(c: Color) {
    c == Yellow || c == Red
  }

  function Text(c: Color): string {
    match c
    case NoColor => ""
    case Green => "green"
    case Yellow => "yellow"
    case Red => "red"
  }

  datatype Band = Band(color: string, min: real, max: real)

  datatype Rule = Rule(name: string, algorithm: string, probeNames: seq<string>, colors: seq<Band>)

  // ---- The value of a rule ----

  function Received(names: seq<string>, data: map<string, real>): seq<real> {
    if names == [] then []
    else
      var before, last := Received(names[..|names| - 1], data), names[|names| - 1];
      if last in data then before + [data[last]] else before
  }

  function Sum(vs: seq<real>): real {
    if vs == [] then 0.0 else Sum(vs[..|vs| - 1]) + vs[|vs| - 1]
  }

  function Min(x: real, y: real): real { if x <= y then x else y }

  function Max(x: real, y: real): real { if x >= y then x else y }

  ghost predicate IsMinimum(vs: seq<real>, m: real) {
    m in vs && forall i :: 0 <= i < |vs| ==> m <= vs[i]
  }

  ghost predicate IsMaximum(vs: seq<real>, m: real) {
    m in vs && forall i :: 0 <= i < |vs| ==> vs[i] <= m
  }

  function Average(vs: seq<real>): real
    requires vs != []
  {
    Sum(vs) / |vs| as real
  }

  // The deviation of the probe furthest from the average.
  ghost predicate IsLargestDeviation(vs: seq<real>, d: real)
    requires vs != []
  {
    && (exists i :: 0 <= i < |vs| && d == Abs(vs[i] - Average(vs)))
    && forall i :: 0 <= i < |vs| ==> Abs(vs[i] - Average(vs)) <= d
  }

  ghost predicate IsRuleValue(algorithm: string, vs: seq<real>, v: Option<real>) {
    if vs == [] then v == None
    else match v
      case None => algorithm !in ["average", "max", "min", "averageDiff"]
      case Some(x) =>
        || (algorithm == "average" && x == Average(vs))
        || (algorithm == "max" && IsMaximum(vs, x))
        || (algorithm == "min" && IsMinimum(vs, x))
        || (algorithm == "averageDiff" && IsLargestDeviation(vs, x))
  }

  function Least(vs: seq<real>): (m: real)
    requires vs != []
  {
    if |vs| == 1 then vs[0] else Min(Least(vs[..|vs| - 1]), vs[|vs| - 1])
  }

  function Greatest(vs: seq<real>): (m: real)
    requires vs != []
  {
    if |vs| == 1 then vs[0] else Max(Greatest(vs[..|vs| - 1]), vs[|vs| - 1])
  }

  function ValueOf(algorithm: string, vs: seq<real>): Option<real> {
    if vs == [] then None
    else
      match algorithm
      case "average" => Some(Average(vs))
      case "max" => Some(Greatest(vs))
      case "min" => Some(Least(vs))
      case "averageDiff" => Some(Max(Greatest(vs) - Average(vs), Average(vs) - Least(vs)))
      case _ => None
  }

  // The probes of a rule that have been received, in the order of the rule.
  lemma {:induction false} ReceivedConcat(a: seq<string>, b: seq<string>, data: map<string, real>)
    ensures Received(a + b, data) == Received(a, data) + Received(b, data)
  {
    if b == [] {
      assert a + b == a;
    } else {
      ReceivedConcat(a, b[..|b| - 1], data);
      assert (a + b)[..|a + b| - 1] == a + b[..|b| - 1];
    }
  }

  lemma ReceivedOne(name: string, data: map<string, real>)
    ensures Received([name], data) == if name in data then [data[name]] else []
  {
    assert Received([name][..0], data) == [];
  }

  // The average is the one number that the values add up to as often as there are values.
  lemma {:induction false} SumConcat(vs: seq<real>, ws: seq<real>)
    ensures Sum(vs + ws) == Sum(vs) + Sum(ws)
  {
    if ws == [] {
      assert vs + ws == vs;
    } else {
      SumConcat(vs, ws[..|ws| - 1]);
      assert (vs + ws)[..|vs + ws| - 1] == vs + ws[..|ws| - 1];
    }
  }

  lemma AverageAddsUp(vs: seq<real>, x: real, m: real)
    requires vs != []
    ensures m == Average(vs) <==> m * |vs| as real == Sum(vs)
    ensures Sum([x]) == x
  {
    assert Sum([x][..0]) == 0.0;
    if m * |vs| as real == Sum(vs) {
      assert (m - Average(vs)) * |vs| as real == 0.0;
    }
  }

  lemma {:induction false} LeastIsMinimum(vs: seq<real>)
    requires vs != []
    ensures IsMinimum(vs, Least(vs))
  {
    if |vs| > 1 {
      LeastIsMinimum(vs[..|vs| - 1]);
    }
  }

  lemma {:induction false} GreatestIsMaximum(vs: seq<real>)
    requires vs != []
    ensures IsMaximum(vs, Greatest(vs))
  {
    if |vs| > 1 {
      GreatestIsMaximum(vs[..|vs| - 1]);
    }
  }

  lemma {:induction false} SumBetween(vs: seq<real>, lo: real, hi: real)
    requires forall i :: 0 <= i < |vs| ==> lo <= vs[i] <= hi
    ensures |vs| as real * lo <= Sum(vs) <= |vs| as real * hi
  {
    if vs != [] {
      SumBetween(vs[..|vs| - 1], lo, hi);
      var n := (|vs| - 1) as real;
      assert |vs| as real * lo == n * lo + lo && |vs| as real * hi == n * hi + hi;
    }
  }

  // The average of the probes lies between the smallest and the largest of them.
  lemma AverageBetween(vs: seq<real>)
    requires vs != []
    ensures Least(vs) <= Average(vs) <= Greatest(vs)
  {
    LeastIsMinimum(vs);
    GreatestIsMaximum(vs);
    SumBetween(vs, Least(vs), Greatest(vs));
    Quotient(Sum(vs), |vs| as real, Least(vs), Greatest(vs));
  }

  lemma Quotient(s: real, n: real, lo: real, hi: real)
    requires n > 0.0 && n * lo <= s <= n * hi
    ensures lo <= s / n <= hi
  {
    var q := s / n;
    assert q * n == s;
    if q < lo {
      Scaled(q, lo, n);
    }
    if hi < q {
      Scaled(hi, q, n);
    }
  }

  lemma Scaled(x: real, y: real, n: real)
    requires x < y && n > 0.0
    ensures n * x < n * y
  {
    assert (y - x) * n > 0.0;
  }

  // The four algorithms compute what their names say.
  lemma ValueOfIsRuleValue(algorithm: string, vs: seq<real>)
    ensures IsRuleValue(algorithm, vs, ValueOf(algorithm, vs))
  {
    if vs != [] {
      LeastIsMinimum(vs);
      GreatestIsMaximum(vs);
      LargestDeviation(vs);
    }
  }

  lemma LargestDeviation(vs: seq<real>)
    requires vs != []
    ensures IsLargestDeviation(vs, Max(Greatest(vs) - Average(vs), Average(vs) - Least(vs)))
  {
    hide Average, Least, Greatest;
    LeastIsMinimum(vs);
    GreatestIsMaximum(vs);
    AverageBetween(vs);
    var i :| 0 <= i < |vs| && vs[i] == Least(vs);
    var j :| 0 <= j < |vs| && vs[j] == Greatest(vs);
    assert Abs(vs[i] - Average(vs)) == Average(vs) - Least(vs);
    assert Abs(vs[j] - Average(vs)) == Greatest(vs) - Average(vs);
  }

  method RuleValue(rule: Rule, data: map<string, real>) returns (value: real, ok: bool)
    ensures (if ok then Some(value) else None) == ValueOf(rule.algorithm, Received(rule.probeNames, data))
  {
    var values: seq<real> := [];
    for i := 0 to |rule.probeNames|
      invariant values == Received(rule.probeNames[..i], data)
    {
      assert rule.probeNames[..i + 1][..i] == rule.probeNames[..i];
      var probe := rule.probeNames[i];
      if probe in data {
        values := values + [data[probe]];
      }
    }
    assert rule.probeNames[..|rule.probeNames|] == rule.probeNames;
    if |values| == 0 {
      return 0.0, false;
    }
    var sum := 0.0;
    var minimum, maximum := values[0], values[0];
    for i := 0 to |values|
      invariant sum == Sum(values[..i])
      invariant minimum == if i == 0 then values[0] else Least(values[..i])
      invariant maximum == if i == 0 then values[0] else Greatest(values[..i])
    {
      assert values[..i + 1][..i] == values[..i];
      var v := values[i];
      sum := sum + v;
      minimum := Min(minimum, v);
      maximum := Max(maximum, v);
    }
    assert values[..|values|] == values;
    var average := sum / |values| as real;
    match rule.algorithm
    case "average" => return average, true;
    case "max" => return maximum, true;
    case "min" => return minimum, true;
    case "averageDiff" => return Max(maximum - average, average - minimum), true;
    case _ => return 0.0, false;
  }

  // ---- The colour of a value ----

  ghost predicate InBand(rule: Rule, c: Color, value: real) {
    exists i :: 0 <= i < |rule.colors| && Matches(rule.colors[i], c, value)
  }

  predicate Matches(band: Band, c: Color, value: real) {
    band.color == Text(c) && band.min <= value <= band.max
  }

  // The most severe colour one of whose bands holds the value.
  ghost function ColorOf(rule: Rule, value: real): Color {
    if InBand(rule, Red, value) then Red
    else if InBand(rule, Yellow, value) then Yellow
    else if InBand(rule, Green, value) then Green
    else NoColor
  }

  // Bands share their bounds: red wins over yellow, and yellow over green.
  lemma MostSevere(rule: Rule, value: real)
    ensures var red := exists b :: b in rule.colors && b.color == "red" && b.min <= value <= b.max;
            var yellow := exists b :: b in rule.colors && b.color == "yellow" && b.min <= value <= b.max;
            var green := exists b :: b in rule.colors && b.color == "green" && b.min <= value <= b.max;
            && (ColorOf(rule, value) == Red <==> red)
            && (ColorOf(rule, value) == Yellow <==> yellow && !red)
            && (ColorOf(rule, value) == Green <==> green && !yellow && !red)
  {
    BandHolds(rule, Red, value);
    BandHolds(rule, Yellow, value);
    BandHolds(rule, Green, value);
  }

  lemma BandHolds(rule: Rule, c: Color, value: real)
    ensures InBand(rule, c, value)
            <==> exists b :: b in rule.colors && b.color == Text(c) && b.min <= value <= b.max
  {
    if InBand(rule, c, value) {
      var i :| 0 <= i < |rule.colors| && Matches(rule.colors[i], c, value);
      assert rule.colors[i] in rule.colors;
    }
    if b :| b in rule.colors && b.color == Text(c) && b.min <= value <= b.max {
      var i :| 0 <= i < |rule.colors| && rule.colors[i] == b;
      assert Matches(rule.colors[i], c, value);
    }
  }

  method RuleColor(rule: Rule, value: real) returns (color: Color)
    ensures color == ColorOf(rule, value)
    ensures color == Red <==> exists b :: b in rule.colors && b.color == "red" && b.min <= value <= b.max
    ensures color == Yellow <==>
            && color != Red
            && exists b :: b in rule.colors && b.color == "yellow" && b.min <= value <= b.max
    ensures color == Green <==>
            && color != Red && color != Yellow
            && exists b :: b in rule.colors && b.color == "green" && b.min <= value <= b.max
  {
    MostSevere(rule, value);
    var severity := [Red, Yellow, Green];
    for i := 0 to 3
      invariant forall k :: 0 <= k < i ==> !InBand(rule, severity[k], value)
    {
      for j := 0 to |rule.colors|
        invariant forall k :: 0 <= k < j ==> !Matches(rule.colors[k], severity[i], value)
      {
        if Matches(rule.colors[j], severity[i], value) {
          assert InBand(rule, severity[i], value);
          assert i > 0 ==> !InBand(rule, severity[0], value);
          assert i > 1 ==> !InBand(rule, severity[1], value);
          return severity[i];
        }
      }
    }
    assert !InBand(rule, severity[0], value) && !InBand(rule, severity[1], value) && !InBand(rule, severity[2], value);
    return NoColor;
  }

  // ---- Identifiers and alert types ----

  function Ident(name: string, c: Color): string {
    "ems-" + name + "-" + Text(c)
  }

  predicate HasPrefix(s: string, prefix: string) {
    prefix <= s
  }

  predicate HasSuffix(s: string, suffix: string) {
    |suffix| <= |s| && s[|s| - |suffix|..] == suffix
  }

  // The branches of pushEventByIdent.
  function KindOf(ident: string): int {
    if ident == "save-settings" || ident == "disk-space" || ident == "partition-rebuild" || ident == "fs-write" then 6
    else if ident == "pressure-sensor-temp-read" || ident == "pressure-sensor-pressure-read"
            || ident == "BaroBroken" then 4
    else if ident == "sdrconfig" || ident == "ping-missing" then 5
    else if ident == "ems-feed" then 13
    else if HasPrefix(ident, "ems-") && HasSuffix(ident, "-yellow") then 14
    else if HasPrefix(ident, "ems-") && HasSuffix(ident, "-red") then 15
    else 3
  }

  // ---- The state and its steps ----

  datatype World = World(
    data: seq<Alert>,
    ready: bool, // the list has been created
    colors: map<string, Color>,
    times: map<string, int>,
    ids: map<string, int>,
    lastFrame: int,
    feedLost: bool,
    feedId: int,
    now: nat)

  function Get<V>(m: map<string, V>, key: string, zero: V): V {
    if key in m then m[key] else zero
  }

  function RuleAlert(name: string, c: Color, value: real, now: int): Alert {
    Alert(0, KindOf(Ident(name, c)), RuleTitle(name, Text(c), value), now, 0, true, 0.0)
  }

  function FeedAlert(now: int): Alert {
    Alert(0, KindOf("ems-feed"), FeedTitle, now, 0, true, 0.0)
  }

  // A one-shot alert of another part of the program.
  function OtherAlert(kind: int, text: string, now: int): Alert {
    Alert(0, kind, OtherTitle(text), now, 0, false, 0.0)
  }

  // -1 before the list is created, None when the search for a free Id never ends
  function IdFor(w: World): Option<int> {
    if w.ready then NewId(w.data, w.now) else Some(-1)
  }

  function Raise(w: World, event: Alert, id: int): World {
    if w.ready then w.(data := w.data + [Raised(event, id)]) else w
  }

  function Touch(w: World, id: int, active: bool): World {
    if w.ready then w.(data := Update(w.data, id, active, w.now)) else w
  }

  // The colour the rule leaves is closed first.
  function LeaveColor(w: World, name: string, c: Color): World {
    var former := Get(w.colors, name, NoColor);
    var recorded := w.(colors := w.colors[name := c]);
    if c != former && Alarm(former) then Touch(recorded, Get(w.ids, Ident(name, former), 0), false) else recorded
  }

  function RaiseRule(w: World, name: string, c: Color, value: real, id: int): World {
    var ident := Ident(name, c);
    Raise(w, RuleAlert(name, c, value, w.now), id).(times := w.times[ident := w.now], ids := w.ids[ident := id])
  }

  function EnterAlarm(w: World, former: Color, name: string, c: Color, value: real): Option<World> {
    var ident := Ident(name, c);
    if c != former && w.now - Get(w.times, ident, 0) >= EMS_RULE_ALERT_INTERVAL then
      match IdFor(w)
      case None => None
      case Some(id) => Some(RaiseRule(w, name, c, value, id))
    else Some(Touch(w, Get(w.ids, ident, 0), true))
  }

  // None is a search for a free Id that never ends.
  function EnterColor(w: World, name: string, c: Color, value: real): Option<World> {
    if c == NoColor then Some(w)
    else if c == Green then Some(LeaveColor(w, name, c))
    else EnterAlarm(LeaveColor(w, name, c), Get(w.colors, name, NoColor), name, c, value)
  }

  ghost function RuleStep(w: World, rule: Rule, probes: map<string, real>): Option<World> {
    match ValueOf(rule.algorithm, Received(rule.probeNames, probes))
    case None => Some(w)
    case Some(value) => EnterColor(w, rule.name, ColorOf(rule, value), value)
  }

  ghost function RuleSteps(w: World, rules: seq<Rule>, probes: map<string, real>): Option<World> {
    if rules == [] then Some(w)
    else
      match RuleSteps(w, rules[..|rules| - 1], probes)
      case None => None
      case Some(v) => RuleStep(v, rules[|rules| - 1], probes)
  }

  ghost function Frame(w: World, rules: seq<Rule>, probes: map<string, real>): Option<World> {
    RuleSteps(w.(lastFrame := w.now), rules, probes)
  }

  ghost predicate InAlarm(colors: map<string, Color>) {
    exists name :: name in colors && Alarm(colors[name])
  }

  predicate Silent(w: World) {
    w.lastFrame != 0 && w.now - w.lastFrame >= EMS_FEED_TIMEOUT
  }

  ghost function FeedCheck(w: World): Option<World> {
    if Silent(w) && w.feedLost then Some(Touch(w, w.feedId, true))
    else if Silent(w) && InAlarm(w.colors) then
      match IdFor(w)
      case None => None
      case Some(id) => Some(Raise(w, FeedAlert(w.now), id).(feedLost := true, feedId := id))
    else if !Silent(w) && w.feedLost then Some(Touch(w.(feedLost := false), w.feedId, false))
    else Some(w)
  }

  class EmsPlugin {
    const alerts: Alerts
    var emsData: map<string, real>
    var rules: seq<Rule>
    var ruleColors: map<string, Color>
    var ruleAlertTimes: map<string, int>
    var ruleAlertIds: map<string, int>
    var lastFrame: int
    var feedLost: bool
    var feedAlertId: int

    constructor (alerts: Alerts, rules: seq<Rule>)
      ensures this.alerts == alerts && this.rules == rules
      ensures forall now: nat ::
                State(now) == World(alerts.alertsData, alerts.ready, map[], map[], map[], 0, false, 0, now)
    {
      this.alerts, this.rules := alerts, rules;
      emsData, ruleColors, ruleAlertTimes, ruleAlertIds := map[], map[], map[], map[];
      lastFrame, feedLost, feedAlertId := 0, false, 0;
    }

    ghost function State(now: nat): World
      reads this, alerts
    {
      World(
        alerts.alertsData, alerts.ready, ruleColors, ruleAlertTimes, ruleAlertIds,
        lastFrame, feedLost, feedAlertId, now)
    }

    method ValidateRules(now: nat)
      requires now > 0
      requires Frame(State(now), rules, emsData).Some?
      modifies this, alerts
      ensures rules == old(rules) && emsData == old(emsData)
      ensures Some(State(now)) == old(Frame(State(now), rules, emsData))
    {
      hide EnterColor, ValueOf, Received, ColorOf;
      ghost var before := State(now);
      lastFrame := now;
      for i := 0 to |rules|
        invariant rules == old(rules) && emsData == old(emsData)
        invariant Some(State(now)) == RuleSteps(before.(lastFrame := now), rules[..i], emsData)
      {
        assert rules[..i + 1][..i] == rules[..i];
        PrefixFinishes(before.(lastFrame := now), rules, emsData, i + 1);
        var value, ok := RuleValue(rules[i], emsData);
        if ok {
          var color := RuleColor(rules[i], value);
          Evaluate(rules[i].name, color, value, now);
        }
      }
      assert rules[..|rules|] == rules;
    }

    // The rest of the loop body of validateRules, from the colour on.
    method Evaluate(name: string, color: Color, value: real, now: nat)
      requires now > 0
      requires EnterColor(State(now), name, color, value).Some?
      modifies this, alerts
      ensures rules == old(rules) && emsData == old(emsData)
      ensures Some(State(now)) == old(EnterColor(State(now), name, color, value))
    {
      hide KindOf, Ident, IdOf, NextFree, Update;
      if color == NoColor {
        return;
      }
      var former := Get(ruleColors, name, NoColor);
      ruleColors := ruleColors[name := color];
      if color != former && Alarm(former) {
        var _ := alerts.PushEvent(Closing(Get(ruleAlertIds, Ident(name, former), 0)), now);
      }
      assert State(now) == LeaveColor(old(State(now)), name, color);
      if color == Green {
        return;
      }
      var ident := Ident(name, color);
      if color != former && now - Get(ruleAlertTimes, ident, 0) >= EMS_RULE_ALERT_INTERVAL {
        ruleAlertTimes := ruleAlertTimes[ident := now];
        var id := alerts.PushEvent(RuleAlert(name, color, value, now), now);
        ruleAlertIds := ruleAlertIds[ident := id];
      } else {
        var _ := alerts.PushEvent(Confirming(Get(ruleAlertIds, ident, 0)), now);
      }
    }

    method CheckFeed(now: nat)
      requires now > 0
      requires FeedCheck(State(now)).Some?
      modifies this, alerts
      ensures rules == old(rules) && emsData == old(emsData)
      ensures Some(State(now)) == old(FeedCheck(State(now)))
    {
      hide KindOf, IdOf, NextFree, Update;
      var silent := lastFrame != 0 && now - lastFrame >= EMS_FEED_TIMEOUT;
      var alarm := RuleInAlarm();
      if silent && feedLost {
        var _ := alerts.PushEvent(Confirming(feedAlertId), now);
      } else if silent && alarm {
        feedLost := true;
        feedAlertId := alerts.PushEvent(FeedAlert(now), now);
      } else if !silent && feedLost {
        feedLost := false;
        var _ := alerts.PushEvent(Closing(feedAlertId), now);
      }
    }

    method RuleInAlarm() returns (alarm: bool)
      ensures alarm == InAlarm(ruleColors)
    {
      var todo := ruleColors.Keys;
      while todo != {}
        invariant todo <= ruleColors.Keys
        invariant forall name :: name in ruleColors && name !in todo ==> !Alarm(ruleColors[name])
      {
        var name :| name in todo;
        if Alarm(ruleColors[name]) {
          return true;
        }
        todo := todo - {name};
      }
      return false;
    }
  }

  // An event without a timestamp updates the alert with its Id.
  function Closing(id: int): Alert {
    Alert(id, 0, OtherTitle(""), 0, 0, false, 0.0)
  }

  function Confirming(id: int): Alert {
    Alert(id, 0, OtherTitle(""), 0, 0, true, 0.0)
  }

  lemma {:induction false} PrefixFinishes(w: World, rules: seq<Rule>, probes: map<string, real>, n: nat)
    requires n <= |rules| && RuleSteps(w, rules, probes).Some?
    ensures RuleSteps(w, rules[..n], probes).Some?
    decreases |rules|
  {
    if n < |rules| {
      PrefixFinishes(w, rules[..|rules| - 1], probes, n);
      assert rules[..|rules| - 1][..n] == rules[..n];
    } else {
      assert rules[..n] == rules;
    }
  }
}
