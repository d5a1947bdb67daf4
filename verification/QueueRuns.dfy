// Whole runs of the send queue: the lazy list of main/messagequeue.go against the eager queue.
module QueueRuns {
  import opened Integers
  import opened MessageQueues
  import opened PriorityOrder

  datatype Op<+T> =
    | Put(prio: int32, maxAge: int, data: T)
    | Peek
    | Pop
    | Wait(elapsed: nat)
    | Close

  // The fields of a MessageQueue and the clock.
  datatype Lazy<+T> = Lazy(entries: seq<Entry<T>>, closed: bool, now: int)

  // One operation, as the methods of MessageQueue specify it.
  function LazyStep<T>(q: Lazy<T>, maxSize: int, op: Op<T>): Lazy<T> {
    match op
    case Put(prio, maxAge, data) =>
      if q.closed then q
      else q.(entries := AfterPut(q.entries, maxSize, Entry(prio, q.now + maxAge, data), q.now))
    case Peek => q.(entries := SkipStale(q.entries, q.now))
    case Pop =>
      var rest := SkipStale(q.entries, q.now);
      q.(entries := if rest == [] then [] else rest[1..])
    case Wait(elapsed) => q.(now := q.now + elapsed)
    case Close => q.(closed := true)
  }

  // Whether the operation prunes the list: only a Put that makes it overfull does.
  predicate Prunes<T>(q: Lazy<T>, maxSize: int, op: Op<T>) {
    op.Put? && !q.closed && Overfull(|q.entries| + 1, maxSize)
  }

  // The eager queue forgets an entry the moment it expires. Nothing is stored besides the live
  // entries, so when a batch is pruned has to be told.
  datatype Eager<+T> = Eager(live: seq<Entry<T>>, closed: bool, now: int)

  function EagerStep<T>(q: Eager<T>, maxSize: int, op: Op<T>, prune: bool): Eager<T> {
    match op
    case Put(prio, maxAge, data) =>
      if q.closed then q
      else
        var e := Entry(prio, q.now + maxAge, data);
        var all := if maxAge < 0 then q.live else Insert(q.live, e);
        q.(live := if prune then Trim(all, maxSize) else all)
    case Peek => q
    case Pop => q.(live := if q.live == [] then [] else q.live[1..])
    case Wait(elapsed) => q.(live := Usable(q.live, q.now + elapsed), now := q.now + elapsed)
    case Close => q.(closed := true)
  }

  // What PeekFirst and PopFirst answer.
  function LazyAnswer<T>(q: Lazy<T>): First<T> {
    Front(Usable(q.entries, q.now))
  }

  function EagerAnswer<T>(q: Eager<T>): First<T> {
    Front(q.live)
  }

  function LazyRun<T>(q: Lazy<T>, maxSize: int, ops: seq<Op<T>>): Lazy<T> {
    if ops == [] then q else LazyStep(LazyRun(q, maxSize, ops[..|ops| - 1]), maxSize, ops[|ops| - 1])
  }

  // The eager queue over the same operations; prunes[i] tells whether operation i prunes.
  function EagerRun<T>(q: Eager<T>, maxSize: int, ops: seq<Op<T>>, prunes: seq<bool>): Eager<T>
    requires |ops| == |prunes|
  {
    if ops == [] then q
    else
      var n := |ops| - 1;
      EagerStep(EagerRun(q, maxSize, ops[..n], prunes[..n]), maxSize, ops[n], prunes[n])
  }

  function PruneFlags<T>(q: Lazy<T>, maxSize: int, ops: seq<Op<T>>): (f: seq<bool>)
    ensures |f| == |ops|
  {
    if ops == [] then []
    else
      var n := |ops| - 1;
      PruneFlags(q, maxSize, ops[..n]) + [Prunes(LazyRun(q, maxSize, ops[..n]), maxSize, ops[n])]
  }

  ghost predicate Agree<T>(lazy: Lazy<T>, eager: Eager<T>) {
    && Ordered(lazy.entries)
    && Usable(lazy.entries, lazy.now) == eager.live
    && lazy.closed == eager.closed && lazy.now == eager.now
  }

  lemma PutAgrees<T>(lazy: Lazy<T>, eager: Eager<T>, maxSize: int, op: Op<T>)
    requires Agree(lazy, eager) && op.Put?
    ensures Agree(LazyStep(lazy, maxSize, op), EagerStep(eager, maxSize, op, Prunes(lazy, maxSize, op)))
  {
    if !lazy.closed {
      var e := Entry(op.prio, lazy.now + op.maxAge, op.data);
      var all := Insert(lazy.entries, e);
      UsableInsert(lazy.entries, e, lazy.now);
      InsertOrdered(lazy.entries, e);
      if Prunes(lazy, maxSize, op) {
        var live := Usable(all, lazy.now);
        UsableOrdered(all, lazy.now);
        TrimOrdered(live, maxSize);
        TrimLive(live, maxSize, lazy.now);
        UsableOfLive(Trim(live, maxSize), lazy.now);
      }
    }
  }

  lemma {:induction false} TrimLive<T>(s: seq<Entry<T>>, max: int, now: int)
    requires forall e :: e in s ==> Live(e, now)
    ensures forall e :: e in Trim(s, max) ==> Live(e, now)
    decreases |s|
  {
    if |s| > max && s != [] {
      var k := LastGroup(s);
      TrimLive(s[..k] + s[k + 1..], max, now);
    }
  }

  lemma {:induction false} SkipStaleSuffix<T>(s: seq<Entry<T>>, now: int) returns (k: nat)
    ensures k <= |s| && SkipStale(s, now) == s[k..]
  {
    k := 0;
    if s != [] && !Live(s[0], now) {
      k := SkipStaleSuffix(s[1..], now);
      k := k + 1;
    }
  }

  lemma GetAgrees<T>(lazy: Lazy<T>, eager: Eager<T>, maxSize: int, op: Op<T>)
    requires Agree(lazy, eager) && (op.Peek? || op.Pop?)
    ensures Agree(LazyStep(lazy, maxSize, op), EagerStep(eager, maxSize, op, false))
  {
    hide SkipStale, Usable;
    SkipStaleUsable(lazy.entries, lazy.now);
    var k := SkipStaleSuffix(lazy.entries, lazy.now);
    NoneUsable<T>(lazy.now);
    OrderedSuffix(lazy.entries, k);
  }

  lemma NoneUsable<T>(now: int)
    ensures var none: seq<Entry<T>> := []; Usable(none, now) == []
  {
  }

  lemma OrderedSuffix<T>(s: seq<Entry<T>>, k: nat)
    requires Ordered(s) && k <= |s|
    ensures Ordered(s[k..]) && (k < |s| ==> Ordered(s[k..][1..]))
  {
  }

  lemma StepAgrees<T>(lazy: Lazy<T>, eager: Eager<T>, maxSize: int, op: Op<T>)
    requires Agree(lazy, eager)
    ensures Agree(LazyStep(lazy, maxSize, op), EagerStep(eager, maxSize, op, Prunes(lazy, maxSize, op)))
  {
    match op
    case Put(_, _, _) => PutAgrees(lazy, eager, maxSize, op);
    case Peek => GetAgrees(lazy, eager, maxSize, op);
    case Pop => GetAgrees(lazy, eager, maxSize, op);
    case Wait(elapsed) => UsableLater(lazy.entries, lazy.now, lazy.now + elapsed);
    case Close =>
  }

  // Over every run the unexpired entries of the list are the eager queue, so every Peek and Pop
  // answers as the eager queue does.
  lemma {:induction false} LazyRefinesEager<T>(lazy: Lazy<T>, eager: Eager<T>, maxSize: int, ops: seq<Op<T>>)
    requires Agree(lazy, eager)
    ensures var last := LazyRun(lazy, maxSize, ops);
            var spec := EagerRun(eager, maxSize, ops, PruneFlags(lazy, maxSize, ops));
            Agree(last, spec) && LazyAnswer(last) == EagerAnswer(spec)
  {
    if ops != [] {
      var n := |ops| - 1;
      LazyRefinesEager(lazy, eager, maxSize, ops[..n]);
      var flags := PruneFlags(lazy, maxSize, ops);
      assert flags[..n] == PruneFlags(lazy, maxSize, ops[..n]);
      StepAgrees(LazyRun(lazy, maxSize, ops[..n]), EagerRun(eager, maxSize, ops[..n], flags[..n]), maxSize, ops[n]);
    }
  }

  // The eager queue that never prunes, and whether it ever holds more than maxSize entries.
  ghost predicate FitsAlways<T>(q: Eager<T>, maxSize: int, ops: seq<Op<T>>) {
    forall n :: 0 <= n <= |ops| ==> |Unpruned(q, maxSize, ops[..n]).live| <= maxSize
  }

  function Unpruned<T>(q: Eager<T>, maxSize: int, ops: seq<Op<T>>): Eager<T> {
    if ops == [] then q else EagerStep(Unpruned(q, maxSize, ops[..|ops| - 1]), maxSize, ops[|ops| - 1], false)
  }

  // No live entry is ever lost while at most maxSize of them are live: pruning removes only
  // expired entries then, whenever it happens.
  lemma {:induction false} NothingLostBelowCapacity<T>(q: Eager<T>, maxSize: int, ops: seq<Op<T>>, prunes: seq<bool>)
    requires |ops| == |prunes| && FitsAlways(q, maxSize, ops)
    ensures EagerRun(q, maxSize, ops, prunes) == Unpruned(q, maxSize, ops)
  {
    if ops != [] {
      var n := |ops| - 1;
      forall k | 0 <= k <= n ensures |Unpruned(q, maxSize, ops[..n][..k]).live| <= maxSize {
        assert ops[..n][..k] == ops[..k];
      }
      NothingLostBelowCapacity(q, maxSize, ops[..n], prunes[..n]);
      assert ops[..|ops|] == ops;
      assert |Unpruned(q, maxSize, ops).live| <= maxSize;
    }
  }

  // After every run the list is at most a tenth longer than maxSize (and empty when nothing fits).
  lemma {:induction false} LengthBounded<T>(q: Lazy<T>, maxSize: int, ops: seq<Op<T>>)
    requires 10 * |q.entries| <= 11 * maxSize || q.entries == []
    ensures var r := LazyRun(q, maxSize, ops).entries; 10 * |r| <= 11 * maxSize || r == []
  {
    hide LazyStep;
    if ops != [] {
      var n := |ops| - 1;
      LengthBounded(q, maxSize, ops[..n]);
      StepBounded(LazyRun(q, maxSize, ops[..n]), maxSize, ops[n]);
    }
  }

  lemma StepBounded<T>(q: Lazy<T>, maxSize: int, op: Op<T>)
    requires 10 * |q.entries| <= 11 * maxSize || q.entries == []
    ensures var r := LazyStep(q, maxSize, op).entries; 10 * |r| <= 11 * maxSize || r == []
  {
    hide SkipStale, Usable, Insert, Trim, AfterPut;
    var k := SkipStaleSuffix(q.entries, q.now);
    if op.Put? && !q.closed {
      PutsInBatches(q.entries, maxSize, Entry(op.prio, q.now + op.maxAge, op.data), q.now);
    }
  }

  // ---- Urgency and arrival order: every entry carries the number of the Put that brought it ----

  ghost predicate Stamped(ops: seq<Op<nat>>) {
    forall i :: 0 <= i < |ops| && ops[i].Put? ==> ops[i].data == i
  }

  ghost predicate FirstComeFirst(s: seq<Entry<nat>>, next: nat) {
    && Ordered(s)
    && (forall i :: 0 <= i < |s| ==> s[i].data < next)
    && forall i, j :: 0 <= i < j < |s| && s[i].priority == s[j].priority ==> s[i].data < s[j].data
  }

  lemma {:induction false} InsertArrival(s: seq<Entry<nat>>, e: Entry<nat>)
    requires FirstComeFirst(s, e.data)
    ensures FirstComeFirst(Insert(s, e), e.data + 1)
  {
    InsertOrdered(s, e);
    if s != [] && s[0].priority <= e.priority {
      InsertArrival(s[1..], e);
      ArrivalBehind(s, Insert(s[1..], e), e);
    }
  }

  // The first entry stays before the rest when the rest takes one more.
  lemma ArrivalBehind(s: seq<Entry<nat>>, rest: seq<Entry<nat>>, e: Entry<nat>)
    requires s != [] && FirstComeFirst(s, e.data) && FirstComeFirst(rest, e.data + 1)
    requires Ordered([s[0]] + rest) && forall f :: f in rest ==> f == e || f in s[1..]
    ensures FirstComeFirst([s[0]] + rest, e.data + 1)
  {
    forall j | 0 <= j < |rest| && rest[j].priority == s[0].priority ensures s[0].data < rest[j].data {
      assert rest[j] in rest;
    }
  }

  lemma {:induction false} UsableArrival(s: seq<Entry<nat>>, now: int, next: nat)
    requires FirstComeFirst(s, next)
    ensures FirstComeFirst(Usable(s, now), next)
  {
    UsableOrdered(s, now);
    if s != [] {
      UsableArrival(s[1..], now, next);
      if Live(s[0], now) {
        ArrivalBefore(s, Usable(s[1..], now), next);
      }
    }
  }

  lemma ArrivalBefore(s: seq<Entry<nat>>, rest: seq<Entry<nat>>, next: nat)
    requires s != [] && FirstComeFirst(s, next) && FirstComeFirst(rest, next)
    requires Ordered([s[0]] + rest) && forall f :: f in rest ==> f in s[1..]
    ensures FirstComeFirst([s[0]] + rest, next)
  {
    forall j | 0 <= j < |rest| && rest[j].priority == s[0].priority ensures s[0].data < rest[j].data {
      assert rest[j] in rest;
      var i :| 0 <= i < |s[1..]| && s[1..][i] == rest[j];
    }
  }

  lemma WithoutOne(s: seq<Entry<nat>>, k: nat, next: nat)
    requires FirstComeFirst(s, next) && k < |s|
    ensures FirstComeFirst(s[..k] + s[k + 1..], next)
  {
    var r := s[..k] + s[k + 1..];
    assert forall i :: 0 <= i < |r| ==> r[i] == s[if i < k then i else i + 1];
  }

  lemma {:induction false} TrimArrival(s: seq<Entry<nat>>, max: int, next: nat)
    requires FirstComeFirst(s, next)
    ensures FirstComeFirst(Trim(s, max), next)
    decreases |s|
  {
    if |s| > max && s != [] {
      var k := LastGroup(s);
      WithoutOne(s, k, next);
      TrimArrival(s[..k] + s[k + 1..], max, next);
    }
  }

  lemma {:induction false} ArrivalOrder(q: Eager<nat>, maxSize: int, ops: seq<Op<nat>>, prunes: seq<bool>)
    requires |ops| == |prunes| && Stamped(ops) && q.live == []
    ensures FirstComeFirst(EagerRun(q, maxSize, ops, prunes).live, |ops|)
  {
    if ops != [] {
      var n := |ops| - 1;
      ArrivalOrder(q, maxSize, ops[..n], prunes[..n]);
      var before := EagerRun(q, maxSize, ops[..n], prunes[..n]);
      StepArrival(before, maxSize, ops[n], prunes[n], n);
    }
  }

  lemma StepArrival(q: Eager<nat>, maxSize: int, op: Op<nat>, prune: bool, n: nat)
    requires FirstComeFirst(q.live, n) && (op.Put? ==> op.data == n)
    ensures FirstComeFirst(EagerStep(q, maxSize, op, prune).live, n + 1)
  {
    hide FirstComeFirst, Trim, Insert, Usable;
    LaterArrival(q.live, n);
    match op
    case Put(prio, maxAge, data) =>
      var e := Entry(prio, q.now + maxAge, data);
      InsertArrival(q.live, e);
      TrimArrival(q.live, maxSize, n + 1);
      TrimArrival(Insert(q.live, e), maxSize, n + 1);
    case Wait(elapsed) => UsableArrival(q.live, q.now + elapsed, n + 1);
    case _ =>
  }

  lemma LaterArrival(s: seq<Entry<nat>>, n: nat)
    requires FirstComeFirst(s, n)
    ensures FirstComeFirst(s, n + 1) && (s != [] ==> FirstComeFirst(s[1..], n + 1))
  {
  }

  // The time that passes in a run
  function Elapsed(ops: seq<Op<nat>>): nat {
    if ops == [] then 0
    else
      var last := ops[|ops| - 1];
      Elapsed(ops[..|ops| - 1]) + if last.Wait? then last.elapsed else 0
  }

  // An entry comes from a Put of the run, and expires maxAge after it.
  ghost predicate FromPut(e: Entry<nat>, start: int, ops: seq<Op<nat>>) {
    && e.data < |ops| && ops[e.data].Put?
    && e.priority == ops[e.data].prio
    && e.outdatedAt == start + Elapsed(ops[..e.data]) + ops[e.data].maxAge
  }

  lemma TrimKeepsFrom<T>(s: seq<Entry<T>>, max: int)
    ensures forall e :: e in Trim(s, max) ==> e in s
    decreases |s|
  {
    if |s| > max && s != [] {
      var k := LastGroup(s);
      TrimKeepsFrom(s[..k] + s[k + 1..], max);
    }
  }

  lemma StepKeepsFrom<T>(q: Lazy<T>, maxSize: int, op: Op<T>, e: Entry<T>)
    requires e in LazyStep(q, maxSize, op).entries
    ensures e in q.entries || (op.Put? && !q.closed && e == Entry(op.prio, q.now + op.maxAge, op.data))
  {
    hide SkipStale, Usable, Insert, Trim;
    var k := SkipStaleSuffix(q.entries, q.now);
    if op.Put? && !q.closed {
      TrimKeepsFrom(Usable(Insert(q.entries, Entry(op.prio, q.now + op.maxAge, op.data)), q.now), maxSize);
    }
  }

  lemma {:induction false} EntriesFromPuts(lazy: Lazy<nat>, maxSize: int, ops: seq<Op<nat>>)
    requires lazy.entries == [] && Stamped(ops)
    ensures var last := LazyRun(lazy, maxSize, ops);
            last.now == lazy.now + Elapsed(ops) && forall e :: e in last.entries ==> FromPut(e, lazy.now, ops)
  {
    hide FromPut, LazyStep;
    if ops != [] {
      var n := |ops| - 1;
      EntriesFromPuts(lazy, maxSize, ops[..n]);
      var before := LazyRun(lazy, maxSize, ops[..n]);
      ClockStep(before, maxSize, ops[n]);
      forall e | e in LazyStep(before, maxSize, ops[n]).entries ensures FromPut(e, lazy.now, ops) {
        StepKeepsFrom(before, maxSize, ops[n], e);
        FromLonger(e, lazy.now, ops);
      }
    }
  }

  lemma ClockStep<T>(q: Lazy<T>, maxSize: int, op: Op<T>)
    ensures LazyStep(q, maxSize, op).now == q.now + if op.Wait? then op.elapsed else 0
  {
  }

  lemma FromLonger(e: Entry<nat>, start: int, ops: seq<Op<nat>>)
    requires ops != [] && Stamped(ops)
    ensures var n := |ops| - 1;
            && (FromPut(e, start, ops[..n]) ==> FromPut(e, start, ops))
            && (ops[n].Put? && e == Entry(ops[n].prio, start + Elapsed(ops[..n]) + ops[n].maxAge, ops[n].data)
                ==> FromPut(e, start, ops))
  {
    var n := |ops| - 1;
    if e.data < n {
      assert ops[..n][..e.data] == ops[..e.data];
    }
  }

  // What Peek and Pop answer after any run: what a Put brought not more than its maxAge ago, and no
  // entry that has not expired is more urgent or as urgent and older.
  lemma AnswersMostUrgentOldest(lazy: Lazy<nat>, maxSize: int, ops: seq<Op<nat>>)
    requires lazy.entries == [] && Stamped(ops)
    ensures var last := LazyRun(lazy, maxSize, ops);
            && (LazyAnswer(last) == Nothing <==> forall e :: e in last.entries ==> e.outdatedAt < last.now)
            && (LazyAnswer(last).Found? ==>
                  var i, priority := LazyAnswer(last).data, LazyAnswer(last).priority;
                  && i < |ops| && ops[i].Put? && ops[i].prio == priority
                  && Elapsed(ops) - Elapsed(ops[..i]) <= ops[i].maxAge
                  && forall e :: e in last.entries && e.outdatedAt >= last.now ==>
                                   priority < e.priority || (priority == e.priority && i <= e.data))
  {
    hide LazyRun, Stamped, Elapsed;
    Answered(lazy, maxSize, ops);
    EntriesFromPuts(lazy, maxSize, ops);
    var last := LazyRun(lazy, maxSize, ops);
    forall e ensures e in Usable(last.entries, last.now) <==> e in last.entries && e.outdatedAt >= last.now {
      UsableAre(last.entries, last.now, e);
    }
    var live := Usable(last.entries, last.now);
    if live == [] {
      forall e | e in last.entries ensures e.outdatedAt < last.now {
        assert e !in live;
      }
    } else {
      assert live[0] in live;
    }
  }

  lemma Answered(lazy: Lazy<nat>, maxSize: int, ops: seq<Op<nat>>)
    requires lazy.entries == [] && Stamped(ops)
    ensures var last := LazyRun(lazy, maxSize, ops);
            var live := Usable(last.entries, last.now);
            match LazyAnswer(last)
            case Nothing => live == []
            case Found(data, priority) =>
              && (exists e :: e in live && e.data == data && e.priority == priority)
              && forall e :: e in live ==> priority < e.priority || (priority == e.priority && data <= e.data)
  {
    var eager := Eager([], lazy.closed, lazy.now);
    LazyRefinesEager(lazy, eager, maxSize, ops);
    ArrivalOrder(eager, maxSize, ops, PruneFlags(lazy, maxSize, ops));
    var last := LazyRun(lazy, maxSize, ops);
    var live := Usable(last.entries, last.now);
    if live != [] {
      assert live[0] in live;
    }
  }
}
