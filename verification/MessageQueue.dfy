// main/messagequeue.go: the send queue of a client. Expired entries stay in the list until they
// are met, and an overfull list is pruned in batches.
module MessageQueues {
  import opened Integers
  import opened PriorityOrder

  // What PeekFirst and PopFirst return; Nothing is the source's (nil, 0).
  datatype First<+T> = Nothing | Found(data: T, priority: int32)

  function Front<T>(live: seq<Entry<T>>): First<T> {
    if live == [] then Nothing else Found(live[0].data, live[0].priority)
  }

  // The list after the expired entries at its head have been passed over.
  function SkipStale<T>(s: seq<Entry<T>>, now: int): seq<Entry<T>> {
    if s == [] || Live(s[0], now) then s else SkipStale(s[1..], now)
  }

  lemma {:induction false} SkipStaleUsable<T>(s: seq<Entry<T>>, now: int)
    ensures Usable(SkipStale(s, now), now) == Usable(s, now)
    ensures SkipStale(s, now) == [] <==> Usable(s, now) == []
    ensures |SkipStale(s, now)| <= |s|
    ensures SkipStale(s, now) != [] ==>
              SkipStale(s, now)[0] == Usable(s, now)[0] && Usable(SkipStale(s, now)[1..], now) == Usable(s, now)[1..]
  {
    if s != [] && !Live(s[0], now) {
      SkipStaleUsable(s[1..], now);
    }
  }

  lemma {:induction false} SkipStaleAt<T>(s: seq<Entry<T>>, now: int, k: nat)
    requires k <= |s| && (forall i :: 0 <= i < k ==> !Live(s[i], now)) && (k < |s| ==> Live(s[k], now))
    ensures SkipStale(s, now) == s[k..]
  {
    if k > 0 {
      SkipStaleAt(s[1..], now, k - 1);
    }
  }

  // Too long by more than a tenth.
  predicate Overfull(length: nat, maxSize: int) {
    10 * length > 11 * maxSize
  }

  function AfterPut<T>(s: seq<Entry<T>>, maxSize: int, e: Entry<T>, now: int): seq<Entry<T>> {
    var all := Insert(s, e);
    if Overfull(|all|, maxSize) then Trim(Usable(all, now), maxSize) else all
  }

  // The list may grow by a tenth of maxSize and no further: the Put that would go beyond leaves the
  // live entries, or maxSize of them when there are more.
  lemma PutsInBatches<T>(s: seq<Entry<T>>, maxSize: int, e: Entry<T>, now: int)
    ensures var after, live := AfterPut(s, maxSize, e, now), Usable(Insert(s, e), now);
            if 10 * (|s| + 1) <= 11 * maxSize then exists k: nat | k <= |s| :: after == s[..k] + [e] + s[k..]
            else
              && after == Trim(live, maxSize)
              && |after| == if |live| <= maxSize then |live| else if maxSize < 0 then 0 else maxSize
  {
    TrimLength(Usable(Insert(s, e), now), maxSize);
    var k := InsertedAt(s, e);
  }

  class MessageQueue<T> {
    const maxSize: int
    var entries: seq<Entry<T>>
    var closed: bool

    predicate Valid()
      reads this
    {
      Ordered(entries)
    }

    constructor (maxSize: int)
      ensures Valid() && entries == [] && !closed && this.maxSize == maxSize
    {
      this.maxSize := maxSize;
      entries := [];
      closed := false;
    }

    method Put(prio: int32, maxAge: int, data: T, now: int)
      requires Valid()
      modifies this
      ensures Valid() && closed == old(closed)
      ensures entries ==
              if closed then old(entries)
              else AfterPut(old(entries), maxSize, Entry(prio, now + maxAge, data), now)
      ensures !closed && 10 * (|old(entries)| + 1) <= 11 * maxSize ==>
                exists k: nat | k <= |old(entries)| ::
                  entries == old(entries)[..k] + [Entry(prio, now + maxAge, data)] + old(entries)[k..]
      ensures !closed && 10 * (|old(entries)| + 1) > 11 * maxSize ==>
                var live := |Usable(Insert(old(entries), Entry(prio, now + maxAge, data)), now)|;
                |entries| == if live <= maxSize then live else if maxSize < 0 then 0 else maxSize
    {
      if closed {
        return;
      }
      PutsInBatches(entries, maxSize, Entry(prio, now + maxAge, data), now);
      var timeout := now + maxAge;
      var entry := Entry(prio, timeout, data);
      if |entries| == 0 {
        entries := [entry];
      } else {
        var index := FindInsertPosition(prio);
        InsertAt(entries, entry, index);
        if index == |entries| {
          entries := entries + [entry];
        } else {
          entries := entries[..index] + [entry] + entries[index..];
        }
      }
      InsertOrdered(old(entries), entry);
      assert entries == Insert(old(entries), entry);
      if 10 * |entries| > 11 * maxSize {
        Prune(now);
        UsableOrdered(Insert(old(entries), entry), now);
        TrimOrdered(Usable(Insert(old(entries), entry), now), maxSize);
      }
    }

    // sort.Search for the first entry with a larger priority number.
    method FindInsertPosition(priority: int32) returns (index: nat)
      requires Valid()
      ensures index <= |entries|
      ensures forall i :: 0 <= i < index ==> entries[i].priority <= priority
      ensures forall i :: index <= i < |entries| ==> entries[i].priority > priority
    {
      var i, j := 0, |entries|;
      while i < j
        invariant 0 <= i <= j <= |entries|
        invariant forall k :: 0 <= k < i ==> entries[k].priority <= priority
        invariant forall k :: j <= k < |entries| ==> entries[k].priority > priority
      {
        var h := (i + j) / 2;
        if !(entries[h].priority > priority) {
          i := h + 1;
        } else {
          j := h;
        }
      }
      index := i;
    }

    method PeekFirst(now: int) returns (first: First<T>)
      requires Valid()
      modifies this
      ensures Valid() && closed == old(closed)
      ensures first == Front(Usable(old(entries), now))
      ensures entries == SkipStale(old(entries), now)
      ensures Usable(entries, now) == Usable(old(entries), now) && |entries| <= |old(entries)|
    {
      SkipStaleUsable(entries, now);
      first := GetFirst(false, now);
    }

    method PopFirst(now: int) returns (first: First<T>)
      requires Valid()
      modifies this
      ensures Valid() && closed == old(closed)
      ensures first == Front(Usable(old(entries), now))
      ensures var rest := SkipStale(old(entries), now);
              entries == if rest == [] then [] else rest[1..]
      ensures var live := Usable(old(entries), now);
              && Usable(entries, now) == (if live == [] then [] else live[1..])
              && (live != [] ==> |entries| < |old(entries)|)
    {
      SkipStaleUsable(entries, now);
      first := GetFirst(true, now);
    }

    method GetFirst(remove: bool, now: int) returns (first: First<T>)
      requires Valid()
      modifies this
      ensures Valid() && closed == old(closed)
      ensures first == Front(Usable(old(entries), now))
      ensures var rest := SkipStale(old(entries), now);
              entries == if rest == [] then [] else if remove then rest[1..] else rest
    {
      var index := GetFirstUsableIndex(now);
      SkipStaleUsable(old(entries), now);
      if index < 0 {
        return Nothing;
      }
      var entry := entries[index];
      if remove {
        entries := entries[index + 1..];
      } else {
        entries := entries[index..];
      }
      return Found(entry.data, entry.priority);
    }

    method GetFirstUsableIndex(now: int) returns (index: int)
      requires Valid()
      modifies this
      ensures Valid() && closed == old(closed)
      ensures index >= 0 ==>
                && entries == old(entries) && index < |entries|
                && SkipStale(old(entries), now) == entries[index..] && Live(entries[index], now)
      ensures index < 0 ==> entries == [] && SkipStale(old(entries), now) == []
    {
      var i := 0;
      while i < |entries|
        invariant 0 <= i <= |entries| && entries == old(entries) && closed == old(closed)
        invariant forall k :: 0 <= k < i ==> !Live(entries[k], now)
      {
        if entries[i].outdatedAt < now {
          i := i + 1;
          continue;
        }
        SkipStaleAt(entries, now, i);
        return i;
      }
      SkipStaleAt(entries, now, |entries|);
      if |entries| > 0 {
        entries := [];
      }
      return -1;
    }

    method GetQueueDump(pruneFirst: bool, now: int) returns (data: seq<T>)
      requires Valid()
      modifies this
      ensures Valid() && closed == old(closed)
      ensures entries == if pruneFirst then Trim(Usable(old(entries), now), maxSize) else old(entries)
      ensures |data| == |entries| && forall i :: 0 <= i < |data| ==> data[i] == entries[i].data
    {
      if pruneFirst {
        Prune(now);
      }
      data := [];
      var i := 0;
      while i < |entries|
        invariant 0 <= i <= |entries| && |data| == i
        invariant forall k :: 0 <= k < i ==> data[k] == entries[k].data
      {
        data := data + [entries[i].data];
        i := i + 1;
      }
    }

    method Close()
      requires Valid()
      modifies this
      ensures Valid() && closed && entries == old(entries)
    {
      if closed {
        return;
      }
      closed := true;
    }

    method Prune(now: int)
      requires Valid()
      modifies this
      ensures Valid() && closed == old(closed)
      ensures entries == Trim(Usable(old(entries), now), maxSize)
    {
      ghost var live := Usable(entries, now);
      var newEntries, totalUsable := GroupByPriority(now);
      newEntries := DropOldest(newEntries, totalUsable - maxSize);
      // The list is rebuilt from what the categories still hold.
      entries := [];
      var n := 0;
      while n < |newEntries|
        invariant 0 <= n <= |newEntries| && entries == Flat(newEntries[..n]) && closed == old(closed)
      {
        FlatSnoc(newEntries[..n + 1]);
        assert newEntries[..n + 1][..n] == newEntries[..n];
        entries := entries + newEntries[n];
        n := n + 1;
      }
      assert newEntries[..n] == newEntries;
      UsableOrdered(old(entries), now);
      TrimOrdered(live, maxSize);
    }

    // The first loop of prune: the live entries, grouped into priority categories.
    method GroupByPriority(now: int) returns (newEntries: seq<seq<Entry<T>>>, totalUsable: nat)
      requires Valid()
      ensures Categories(newEntries) && Flat(newEntries) == Usable(entries, now) && totalUsable == |Flat(newEntries)|
    {
      hide Usable, Flat;
      newEntries, totalUsable := [], 0;
      NoCategories(entries, now);
      var prevPrio: int32 := 999999999;
      var i := 0;
      while i < |entries|
        invariant 0 <= i <= |entries|
        invariant Categories(newEntries) && Flat(newEntries) == Usable(entries[..i], now)
        invariant totalUsable == |Flat(newEntries)|
        invariant newEntries != [] ==> prevPrio == newEntries[|newEntries| - 1][0].priority
        invariant newEntries != [] && i < |entries| ==> prevPrio <= entries[i].priority
      {
        var entry := entries[i];
        UsableSnoc(entries, i, now);
        i := i + 1;
        if entry.outdatedAt < now {
          continue;
        }
        totalUsable := totalUsable + 1;
        Grouped(newEntries, entry, prevPrio);
        if |newEntries| == 0 || entry.priority != prevPrio {
          newEntries := newEntries + [[]];
        }
        var last := |newEntries| - 1;
        newEntries := newEntries[last := newEntries[last] + [entry]];
        prevPrio := entry.priority;
      }
      assert entries[..i] == entries;
    }

    // The second loop of prune: from the least urgent category on, the oldest entries go until
    // enough are removed.
    method DropOldest(cats: seq<seq<Entry<T>>>, excess: int) returns (newEntries: seq<seq<Entry<T>>>)
      requires Categories(cats) && excess == |Flat(cats)| - maxSize
      ensures Flat(newEntries) == Trim(Flat(cats), maxSize)
    {
      hide Trim, Uniform, AllBelow;
      newEntries := cats;
      var toBeRemoved := excess;
      if toBeRemoved > 0 {
        assert cats[..|cats|] == cats;
        var i := |cats| - 1;
        while i >= 0
          invariant -1 <= i < |cats| == |newEntries| && newEntries[..i + 1] == cats[..i + 1]
          invariant forall k :: i < k < |cats| ==> newEntries[k] == []
          invariant toBeRemoved == |Flat(cats[..i + 1])| - maxSize && toBeRemoved > 0
          invariant Trim(Flat(cats), maxSize) == Trim(Flat(cats[..i + 1]), maxSize)
        {
          assert newEntries[i] == newEntries[..i + 1][i] == cats[i];
          assert newEntries[..i] == newEntries[..i + 1][..i] == cats[..i];
          TrimNthCategory(cats, i, maxSize);
          if |newEntries[i]| >= toBeRemoved {
            // The oldest of this category are all that still has to go.
            newEntries := newEntries[i := newEntries[i][toBeRemoved..]];
            FlatReplaced(cats, i, newEntries);
            return;
          } else {
            // The whole category goes.
            toBeRemoved := toBeRemoved - |newEntries[i]|;
            newEntries := newEntries[i := []];
          }
          i := i - 1;
        }
        FlatTail(newEntries, 0);
        TrimLength(Flat(cats[..0]), maxSize);
      } else {
        TrimFits(Flat(cats), maxSize);
      }
    }
  }

  // ---- The categories of prune ----

  function Flat<T>(cats: seq<seq<Entry<T>>>): seq<Entry<T>> {
    if cats == [] then [] else Flat(cats[..|cats| - 1]) + cats[|cats| - 1]
  }

  // Every category holds entries of one priority, and later categories are less urgent.
  ghost predicate Categories<T>(cats: seq<seq<Entry<T>>>) {
    if cats == [] then true
    else
      var n := |cats| - 1;
      && Categories(cats[..n])
      && cats[n] != [] && Uniform(cats[n], cats[n][0].priority) && AllBelow(Flat(cats[..n]), cats[n][0].priority)
  }

  lemma FlatSnoc<T>(cats: seq<seq<Entry<T>>>)
    requires cats != []
    ensures Flat(cats) == Flat(cats[..|cats| - 1]) + cats[|cats| - 1]
  {
  }

  lemma UsableSnoc<T>(s: seq<Entry<T>>, i: nat, now: int)
    requires i < |s|
    ensures Usable(s[..i + 1], now) == Usable(s[..i], now) + (if Live(s[i], now) then [s[i]] else [])
  {
    assert s[..i + 1] == s[..i] + [s[i]];
    UsableConcat(s[..i], [s[i]], now);
  }

  lemma {:induction false} PrefixOfCategories<T>(cats: seq<seq<Entry<T>>>, n: nat)
    requires Categories(cats) && n <= |cats|
    ensures Categories(cats[..n])
  {
    if n < |cats| {
      PrefixOfCategories(cats[..|cats| - 1], n);
      assert cats[..|cats| - 1][..n] == cats[..n];
    } else {
      assert cats[..n] == cats;
    }
  }

  // Categories emptied behind k do not show in the result.
  lemma {:induction false} FlatTail<T>(cats: seq<seq<Entry<T>>>, k: nat)
    requires k <= |cats| && forall i :: k <= i < |cats| ==> cats[i] == []
    ensures Flat(cats) == Flat(cats[..k])
  {
    if k < |cats| {
      FlatTail(cats[..|cats| - 1], k);
      assert cats[..|cats| - 1][..k] == cats[..k];
    } else {
      assert cats[..k] == cats;
    }
  }

  lemma TrimNthCategory<T>(cats: seq<seq<Entry<T>>>, i: nat, maxSize: int)
    requires Categories(cats) && i < |cats| && |Flat(cats[..i + 1])| > maxSize
    ensures |Flat(cats[..i + 1])| == |Flat(cats[..i])| + |cats[i]|
    ensures var s, excess := Flat(cats[..i + 1]), |Flat(cats[..i + 1])| - maxSize;
            && (excess <= |cats[i]| ==> Trim(s, maxSize) == Flat(cats[..i]) + cats[i][excess..])
            && (excess > |cats[i]| ==> Trim(s, maxSize) == Trim(Flat(cats[..i]), maxSize))
  {
    PrefixOfCategories(cats, i + 1);
    assert cats[..i + 1][..i] == cats[..i];
    TrimBehind(Flat(cats[..i]), cats[i], maxSize);
  }

  lemma TrimBehind<T>(front: seq<Entry<T>>, last: seq<Entry<T>>, maxSize: int)
    requires last != [] && |front + last| > maxSize
    requires Uniform(last, last[0].priority) && AllBelow(front, last[0].priority)
    ensures var excess := |front + last| - maxSize;
            && (excess <= |last| ==> Trim(front + last, maxSize) == front + last[excess..])
            && (excess > |last| ==> Trim(front + last, maxSize) == Trim(front, maxSize))
  {
    hide Uniform, AllBelow;
    var s := front + last;
    var k, excess := |front|, |s| - maxSize;
    assert s[..k] == front && s[k..] == last;
    assert excess <= |last| ==> s[k + excess..] == last[excess..];
    TrimGroup(s, k, last[0].priority, maxSize);
  }

  lemma FlatReplaced<T>(cats: seq<seq<Entry<T>>>, i: nat, after: seq<seq<Entry<T>>>)
    requires i < |cats| == |after| && after[..i] == cats[..i] && forall k :: i < k < |after| ==> after[k] == []
    ensures Flat(after) == Flat(cats[..i]) + after[i]
  {
    FlatTail(after, i + 1);
    assert after[..i + 1][..i] == cats[..i];
  }

  lemma StartCategory<T>(before: seq<seq<Entry<T>>>, e: Entry<T>)
    ensures var wider := before + [[]];
            wider[|before| := wider[|before|] + [e]] == before + [[e]]
  {
    assert [] + [e] == [e];
  }

  lemma NoCategories<T>(s: seq<Entry<T>>, now: int)
    ensures var none: seq<seq<Entry<T>>> := [];
            Categories(none) && Flat(none) == Usable(s[..0], now) == []
  {
  }

  // What one turn of the grouping loop makes of the categories
  lemma Grouped<T>(before: seq<seq<Entry<T>>>, e: Entry<T>, prevPrio: int32)
    requires Categories(before)
    requires before != [] ==> prevPrio == before[|before| - 1][0].priority <= e.priority
    ensures var wider := if |before| == 0 || e.priority != prevPrio then before + [[]] else before;
            var last := |wider| - 1;
            var after := wider[last := wider[last] + [e]];
            Categories(after) && Flat(after) == Flat(before) + [e] && after[last][0].priority == e.priority
  {
    hide Flat;
    StartCategory(before, e);
    var wider := if |before| == 0 || e.priority != prevPrio then before + [[]] else before;
    AddToCategories(before, e, wider[|wider| - 1 := wider[|wider| - 1] + [e]]);
  }

  // One more live entry, joined to the last category or starting a new one.
  lemma AddToCategories<T>(before: seq<seq<Entry<T>>>, e: Entry<T>, after: seq<seq<Entry<T>>>)
    requires Categories(before)
    requires before != [] ==> before[|before| - 1][0].priority <= e.priority
    requires after == if before == [] || e.priority != before[|before| - 1][0].priority then before + [[e]]
                      else before[|before| - 1 := before[|before| - 1] + [e]]
    ensures Categories(after) && Flat(after) == Flat(before) + [e]
  {
    var n := |after| - 1;
    if before == [] || e.priority != before[|before| - 1][0].priority {
      assert after[..n] == before;
      assert AllBelow(Flat(before), e.priority);
    } else {
      assert after[..n] == before[..n];
      assert after[n][0] == before[n][0];
    }
  }
}
