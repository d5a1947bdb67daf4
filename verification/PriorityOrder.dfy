// The eager priority queue that main/messagequeue.go refines: only live entries, kept in the
// order in which they will be sent.
module PriorityOrder {
  import opened Integers

  datatype Entry<+T> = Entry(priority: int32, outdatedAt: int, data: T)

  // An entry may be sent up to and including the instant outdatedAt.
  predicate Live<T>(e: Entry<T>, now: int) {
    e.outdatedAt >= now
  }

  predicate Ordered<T>(s: seq<Entry<T>>) {
    forall i, j :: 0 <= i < j < |s| ==> s[i].priority <= s[j].priority
  }

  // The live entries, in order.
  function Usable<T>(s: seq<Entry<T>>, now: int): (r: seq<Entry<T>>)
    ensures |r| <= |s| && forall e :: e in r ==> e in s && Live(e, now)
  {
    if s == [] then []
    else if Live(s[0], now) then [s[0]] + Usable(s[1..], now)
    else Usable(s[1..], now)
  }

  // A new entry goes behind everything at least as urgent.
  function Insert<T>(s: seq<Entry<T>>, e: Entry<T>): (r: seq<Entry<T>>)
    ensures |r| == |s| + 1 && forall f :: f in r ==> f == e || f in s
  {
    if s == [] || s[0].priority > e.priority then [e] + s else [s[0]] + Insert(s[1..], e)
  }

  // Where the entries of the least urgent priority start.
  function LastGroup<T>(s: seq<Entry<T>>): (k: nat)
    requires s != []
    ensures k < |s| && forall i :: k <= i < |s| ==> s[i].priority == s[|s| - 1].priority
    ensures k > 0 ==> s[k - 1].priority != s[|s| - 1].priority
  {
    if |s| > 1 && s[|s| - 2].priority == s[|s| - 1].priority then LastGroup(s[..|s| - 1]) else |s| - 1
  }

  // Overflow: while there are too many entries, the oldest one of the least urgent priority goes.
  function Trim<T>(s: seq<Entry<T>>, max: int): (r: seq<Entry<T>>)
    ensures |r| <= |s|
  {
    if |s| <= max || s == [] then s
    else
      var k := LastGroup(s);
      Trim(s[..k] + s[k + 1..], max)
  }

  lemma {:induction false} UsableOrdered<T>(s: seq<Entry<T>>, now: int)
    requires Ordered(s)
    ensures Ordered(Usable(s, now))
  {
    if s != [] {
      UsableOrdered(s[1..], now);
      forall e | e in Usable(s[1..], now) ensures s[0].priority <= e.priority {
        var i :| 0 <= i < |s[1..]| && s[1..][i] == e;
      }
    }
  }

  lemma {:induction false} InsertOrdered<T>(s: seq<Entry<T>>, e: Entry<T>)
    requires Ordered(s)
    ensures Ordered(Insert(s, e))
  {
    if s != [] && s[0].priority <= e.priority {
      InsertOrdered(s[1..], e);
      forall f | f in Insert(s[1..], e) ensures s[0].priority <= f.priority {
        if f != e {
          var i :| 0 <= i < |s[1..]| && s[1..][i] == f;
        }
      }
    }
  }

  // Insertion at the first position whose entry is less urgent.
  lemma {:induction false} InsertAt<T>(s: seq<Entry<T>>, e: Entry<T>, k: nat)
    requires k <= |s|
    requires forall i :: 0 <= i < k ==> s[i].priority <= e.priority
    requires k < |s| ==> s[k].priority > e.priority
    ensures Insert(s, e) == s[..k] + [e] + s[k..]
  {
    if k > 0 {
      InsertAt(s[1..], e, k - 1);
    }
  }

  lemma {:induction false} InsertedAt<T>(s: seq<Entry<T>>, e: Entry<T>) returns (k: nat)
    ensures k <= |s| && Insert(s, e) == s[..k] + [e] + s[k..]
  {
    k := 0;
    if s != [] && s[0].priority <= e.priority {
      k := InsertedAt(s[1..], e);
      assert s == [s[0]] + s[1..];
      k := k + 1;
    }
  }

  lemma {:induction false} UsableOfLive<T>(s: seq<Entry<T>>, now: int)
    requires forall e :: e in s ==> Live(e, now)
    ensures Usable(s, now) == s
  {
    if s != [] {
      UsableOfLive(s[1..], now);
    }
  }

  // Left out are exactly the expired entries; with UsableConcat, what stays keeps its order.
  lemma UsableOne<T>(e: Entry<T>, now: int)
    ensures Usable([e], now) == if e.outdatedAt >= now then [e] else []
  {
  }

  lemma {:induction false} UsableAre<T>(s: seq<Entry<T>>, now: int, e: Entry<T>)
    ensures e in Usable(s, now) <==> e in s && e.outdatedAt >= now
  {
    if s != [] {
      UsableAre(s[1..], now, e);
    }
  }

  lemma {:induction false} UsableConcat<T>(s: seq<Entry<T>>, t: seq<Entry<T>>, now: int)
    ensures Usable(s + t, now) == Usable(s, now) + Usable(t, now)
  {
    if s == [] {
      assert s + t == t;
    } else {
      assert (s + t)[1..] == s[1..] + t;
      UsableConcat(s[1..], t, now);
    }
  }

  // Expiry does not depend on when the queue was last looked at.
  lemma {:induction false} UsableLater<T>(s: seq<Entry<T>>, now: int, later: int)
    requires now <= later
    ensures Usable(Usable(s, now), later) == Usable(s, later)
  {
    if s != [] {
      UsableLater(s[1..], now, later);
      if Live(s[0], now) {
        UsableConcat([s[0]], Usable(s[1..], now), later);
        UsableConcat([s[0]], s[1..], later);
        assert s == [s[0]] + s[1..];
      }
    }
  }

  lemma {:induction false} InsertUrgent<T>(s: seq<Entry<T>>, e: Entry<T>)
    requires forall f :: f in s ==> f.priority > e.priority
    ensures Insert(s, e) == [e] + s
  {
  }

  // Insertion and expiry commute.
  lemma {:induction false} UsableInsert<T>(s: seq<Entry<T>>, e: Entry<T>, now: int)
    requires Ordered(s)
    ensures Usable(Insert(s, e), now) == if Live(e, now) then Insert(Usable(s, now), e) else Usable(s, now)
  {
    if s == [] || s[0].priority > e.priority {
      UsableConcat([e], s, now);
      forall f | f in Usable(s, now) ensures f.priority > e.priority {
        var i :| 0 <= i < |s| && s[i] == f;
      }
      InsertUrgent(Usable(s, now), e);
    } else {
      UsableInsert(s[1..], e, now);
      UsableConcat([s[0]], Insert(s[1..], e), now);
      UsableConcat([s[0]], s[1..], now);
      assert s == [s[0]] + s[1..];
    }
  }

  lemma {:induction false} TrimOrdered<T>(s: seq<Entry<T>>, max: int)
    requires Ordered(s)
    ensures Ordered(Trim(s, max))
    decreases |s|
  {
    if |s| > max && s != [] {
      var k := LastGroup(s);
      TrimOrdered(s[..k] + s[k + 1..], max);
    }
  }

  lemma TrimFits<T>(s: seq<Entry<T>>, max: int)
    requires |s| <= max
    ensures Trim(s, max) == s
  {
  }

  lemma {:induction false} TrimLength<T>(s: seq<Entry<T>>, max: int)
    ensures |Trim(s, max)| == if |s| <= max then |s| else if max < 0 then 0 else max
    decreases |s|
  {
    if |s| > max && s != [] {
      var k := LastGroup(s);
      TrimLength(s[..k] + s[k + 1..], max);
    }
  }

  predicate Uniform<T>(s: seq<Entry<T>>, p: int) {
    forall i :: 0 <= i < |s| ==> s[i].priority == p
  }

  predicate AllBelow<T>(s: seq<Entry<T>>, p: int) {
    forall i :: 0 <= i < |s| ==> s[i].priority < p
  }

  lemma {:induction false} LastGroupAt<T>(s: seq<Entry<T>>, k: nat)
    requires k < |s| && Uniform(s[k..], s[|s| - 1].priority)
    requires k > 0 ==> s[k - 1].priority != s[|s| - 1].priority
    ensures LastGroup(s) == k
  {
    if k < |s| - 1 {
      var front := s[..|s| - 1];
      assert s[|s| - 2] == s[k..][|s| - 2 - k];
      assert front[k..] == s[k..][..|s| - 1 - k];
      LastGroupAt(front, k);
    }
  }

  // Dropping entries of a last group of equal priority, which starts at k.
  lemma {:induction false} TrimGroup<T>(s: seq<Entry<T>>, k: nat, p: int, max: int)
    requires k < |s| && |s| > max && Uniform(s[k..], p) && AllBelow(s[..k], p)
    ensures |s| - max <= |s| - k ==> Trim(s, max) == s[..k] + s[k + (|s| - max)..]
    ensures |s| - max > |s| - k ==> Trim(s, max) == Trim(s[..k], max)
    decreases |s|
  {
    hide Uniform, AllBelow, Trim;
    var next, excess := s[..k] + s[k + 1..], |s| - max;
    TrimOne(s, k, p, max);
    if k + 1 == |s| {
      assert next == s[..k];
      if excess == 1 {
        TrimNothing(next, max);
        assert s[..k] + s[k + 1..] == s[..k] + s[k + excess..];
      }
    } else if excess > 1 {
      WithoutOneOfGroup(s, k, p);
      TrimGroup(next, k, p, max);
      if excess <= |s| - k {
        DropFromGroup(s, k, excess - 1);
      }
    } else {
      TrimNothing(next, max);
    }
  }

  lemma WithoutOneOfGroup<T>(s: seq<Entry<T>>, k: nat, p: int)
    requires k + 1 < |s| && Uniform(s[k..], p)
    ensures var next := s[..k] + s[k + 1..];
            next[..k] == s[..k] && Uniform(next[k..], p)
  {
    var next := s[..k] + s[k + 1..];
    assert next[k..] == s[k..][1..];
  }

  lemma DropFromGroup<T>(s: seq<Entry<T>>, k: nat, n: nat)
    requires k + 1 + n <= |s|
    ensures (s[..k] + s[k + 1..])[k + n..] == s[k + 1 + n..]
  {
  }

  lemma TrimOne<T>(s: seq<Entry<T>>, k: nat, p: int, max: int)
    requires k < |s| && |s| > max && Uniform(s[k..], p) && AllBelow(s[..k], p)
    ensures Trim(s, max) == Trim(s[..k] + s[k + 1..], max)
  {
    assert LastGroup(s) == k by {
      assert s[|s| - 1] == s[k..][|s| - 1 - k];
      assert k > 0 ==> s[k - 1] == s[..k][k - 1];
      LastGroupAt(s, k);
    }
  }

  // What an overflow keeps: for one cut-off priority p, everything more urgent, the newest entries
  // of that priority, and nothing less urgent.
  ghost predicate CutAt<T>(s: seq<Entry<T>>, r: seq<Entry<T>>, a: nat, c: nat, b: nat, p: int) {
    && a <= c <= b <= |s|
    && r == s[..a] + s[c..b]
    && AllBelow(s[..a], p)
    && Uniform(s[a..b], p)
    && forall i :: b <= i < |s| ==> s[i].priority > p
  }

  const BELOW_ALL := -0x8000_0001

  lemma {:induction false} TrimCuts<T>(s: seq<Entry<T>>, max: int) returns (a: nat, c: nat, b: nat, p: int)
    requires Ordered(s)
    ensures CutAt(s, Trim(s, max), a, c, b, p)
    ensures |s| > max ==> a < b || p == BELOW_ALL
    decreases |s|
  {
    hide Uniform, AllBelow, LastGroup, CutAt, Trim;
    if |s| <= max || s == [] {
      a, c, b := |s|, |s|, |s|;
      p := if s == [] then BELOW_ALL else s[|s| - 1].priority + 1;
      CutNothing(s, p);
      TrimNothing(s, max);
    } else {
      var k, excess, last := LastGroup(s), |s| - max, s[|s| - 1].priority;
      LastGroupParts(s);
      TrimGroup(s, k, last, max);
      if excess <= |s| - k {
        a, c, b, p := k, k + excess, |s|, last;
        CutInGroup(s, Trim(s, max), k, excess, last);
      } else {
        a, c, b, p := TrimCuts(s[..k], max);
        CutOfFront(s, k, Trim(s[..k], max), a, c, b, p);
      }
    }
  }

  lemma TrimNothing<T>(s: seq<Entry<T>>, max: int)
    requires |s| <= max || s == []
    ensures Trim(s, max) == s
  {
  }

  lemma CutNothing<T>(s: seq<Entry<T>>, p: int)
    requires Ordered(s) && (s != [] ==> s[|s| - 1].priority < p)
    ensures CutAt(s, s, |s|, |s|, |s|, p)
  {
    assert s == s[..|s|] + s[|s|..|s|];
  }

  lemma CutInGroup<T>(s: seq<Entry<T>>, r: seq<Entry<T>>, k: nat, excess: nat, p: int)
    requires k + excess <= |s| && AllBelow(s[..k], p) && Uniform(s[k..], p) && r == s[..k] + s[k + excess..]
    ensures CutAt(s, r, k, k + excess, |s|, p)
  {
    assert s[k..|s|] == s[k..] && s[k + excess..|s|] == s[k + excess..];
  }

  lemma LastGroupParts<T>(s: seq<Entry<T>>)
    requires Ordered(s) && s != []
    ensures var k, last := LastGroup(s), s[|s| - 1].priority;
            AllBelow(s[..k], last) && Uniform(s[k..], last)
  {
    hide LastGroup;
    var k := LastGroup(s);
    assert AllBelow(s[..k], s[|s| - 1].priority) by {
      assert forall i :: 0 <= i < k ==> s[..k][i] == s[i];
    }
    assert Uniform(s[k..], s[|s| - 1].priority) by {
      assert forall i :: 0 <= i < |s| - k ==> s[k..][i] == s[k + i];
    }
  }

  lemma CutOfFront<T>(s: seq<Entry<T>>, k: nat, r: seq<Entry<T>>, a: nat, c: nat, b: nat, p: int)
    requires k < |s| && Ordered(s) && (k > 0 ==> s[k - 1].priority < s[k].priority)
    requires CutAt(s[..k], r, a, c, b, p) && (a < b || p == BELOW_ALL)
    ensures CutAt(s, r, a, c, b, p)
  {
    var front := s[..k];
    assert front[..a] == s[..a] && front[c..b] == s[c..b] && front[a..b] == s[a..b];
    if a < b {
      assert s[a..b][b - 1 - a] == s[b - 1];
      if b < k {
        assert s[b] == front[b];
      }
    }
  }

  // ---- The same without a recipe: Trim keeps the one selection of its size in which no dropped
  // entry ranks before a kept one ----

  function Count(kept: seq<bool>): (n: nat)
    ensures n <= |kept|
  {
    if kept == [] then 0 else Count(kept[..|kept| - 1]) + (if kept[|kept| - 1] then 1 else 0)
  }

  // The entries of s at the positions marked as kept.
  function Select<T>(s: seq<Entry<T>>, kept: seq<bool>): (r: seq<Entry<T>>)
    requires |s| == |kept|
  {
    if s == [] then []
    else
      var n := |s| - 1;
      Select(s[..n], kept[..n]) + (if kept[n] then [s[n]] else [])
  }

  lemma {:induction false} SelectLength<T>(s: seq<Entry<T>>, kept: seq<bool>)
    requires |s| == |kept|
    ensures |Select(s, kept)| == Count(kept)
  {
    if s != [] {
      SelectLength(s[..|s| - 1], kept[..|s| - 1]);
    }
  }

  // Position i of s ranks before position j: more urgent, or as urgent and newer.
  predicate Before<T>(s: seq<Entry<T>>, i: nat, j: nat)
    requires i < |s| && j < |s|
  {
    s[i].priority < s[j].priority || (s[i].priority == s[j].priority && i > j)
  }

  ghost predicate Dominates<T>(s: seq<Entry<T>>, kept: seq<bool>) {
    |kept| == |s| && forall i, j :: 0 <= i < |s| && 0 <= j < |s| && kept[i] && !kept[j] ==> Before(s, i, j)
  }

  function CutMarks(a: nat, c: nat, b: nat, n: nat): (m: seq<bool>)
    ensures |m| == n && forall i :: 0 <= i < n ==> m[i] == (i < a || c <= i < b)
  {
    seq(n, i => i < a || c <= i < b)
  }

  // A stretch that is kept or dropped as a whole.
  lemma {:induction false} SelectStretch<T>(s: seq<Entry<T>>, m: seq<bool>, k: nat, n: nat, keep: bool)
    requires |s| == |m| && k <= n <= |s| && forall i :: k <= i < n ==> m[i] == keep
    ensures keep ==> Select(s[..n], m[..n]) == Select(s[..k], m[..k]) + s[k..n]
    ensures !keep ==> Select(s[..n], m[..n]) == Select(s[..k], m[..k])
  {
    if k < n {
      SelectStretch(s, m, k, n - 1, keep);
      assert s[..n][..n - 1] == s[..n - 1] && m[..n][..n - 1] == m[..n - 1];
      assert s[k..n] == s[k..n - 1] + [s[n - 1]];
    }
  }

  lemma SelectNone<T>(s: seq<Entry<T>>, m: seq<bool>)
    requires s == [] && m == []
    ensures Select(s, m) == []
  {
  }

  lemma SelectCut<T>(s: seq<Entry<T>>, a: nat, c: nat, b: nat)
    requires a <= c <= b <= |s|
    ensures Select(s, CutMarks(a, c, b, |s|)) == s[..a] + s[c..b]
  {
    hide *;
    var m := CutMarks(a, c, b, |s|);
    assert Select(s[..c], m[..c]) == s[..a] by {
      SelectStretch(s, m, a, c, false);
      SelectStretch(s, m, 0, a, true);
      SelectNone(s[..0], m[..0]);
      assert [] + s[0..a] == s[..a];
    }
    SelectStretch(s, m, c, b, true);
    SelectStretch(s, m, b, |s|, false);
    assert s[..|s|] == s && m[..|s|] == m;
  }

  lemma CutDominates<T>(s: seq<Entry<T>>, r: seq<Entry<T>>, a: nat, c: nat, b: nat, p: int)
    requires CutAt(s, r, a, c, b, p)
    ensures Dominates(s, CutMarks(a, c, b, |s|))
  {
    assert forall i :: 0 <= i < a ==> s[i] == s[..a][i];
    assert forall i :: a <= i < b ==> s[i] == s[a..b][i - a];
  }

  // If an entry is dropped, no kept entry is less urgent and every kept entry of the same
  // priority is newer; and no other selection of that many entries has this property.
  lemma TrimDominates<T>(s: seq<Entry<T>>, max: int, r: seq<Entry<T>>)
    requires Ordered(s)
    ensures r == Trim(s, max) <==> exists kept :: Dominates(s, kept) && |r| == |Trim(s, max)| && r == Select(s, kept)
  {
    var mine := TrimSelection(s, max);
    SelectLength(s, mine);
    if kept :| Dominates(s, kept) && |r| == |Trim(s, max)| && r == Select(s, kept) {
      SelectLength(s, kept);
      OnlySelection(s, kept, mine);
    }
  }

  lemma TrimSelection<T>(s: seq<Entry<T>>, max: int) returns (kept: seq<bool>)
    requires Ordered(s)
    ensures Dominates(s, kept) && Trim(s, max) == Select(s, kept)
  {
    var a, c, b, p := TrimCuts(s, max);
    kept := CutMarks(a, c, b, |s|);
    CutDominates(s, Trim(s, max), a, c, b, p);
    SelectCut(s, a, c, b);
  }

  lemma OnlySelection<T>(s: seq<Entry<T>>, p: seq<bool>, q: seq<bool>)
    requires Dominates(s, p) && Dominates(s, q) && Count(p) == Count(q)
    ensures p == q
  {
    if p != q {
      var i, j := Differ(p, q);
      assert false;
    }
  }

  // Selections of the same size that are not the same each keep something the other drops.
  lemma {:induction false} Differ(p: seq<bool>, q: seq<bool>) returns (i: nat, j: nat)
    requires |p| == |q| && p != q && Count(p) == Count(q)
    ensures i < |p| && j < |p| && p[i] && !q[i] && q[j] && !p[j]
  {
    var n := |p| - 1;
    assert p == p[..n] + [p[n]] && q == q[..n] + [q[n]];
    if p[n] == q[n] {
      i, j := Differ(p[..n], q[..n]);
    } else if p[n] {
      i := n;
      j := More(q[..n], p[..n]);
    } else {
      j := n;
      i := More(p[..n], q[..n]);
    }
  }

  lemma {:induction false} More(p: seq<bool>, q: seq<bool>) returns (i: nat)
    requires |p| == |q| && Count(p) > Count(q)
    ensures i < |p| && p[i] && !q[i]
  {
    var n := |p| - 1;
    if p[n] && !q[n] {
      i := n;
    } else {
      i := More(p[..n], q[..n]);
    }
  }
}
