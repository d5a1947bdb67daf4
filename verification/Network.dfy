// main/network.go: collectMessages, which drains a client's queue into one packet.
module Network {
  import Gdl90
  import opened Integers
  import opened MessageQueues
  import opened PriorityOrder

  type Message = seq<uint8>

  // The bytes of several messages, one after the other.
  function Joined(entries: seq<Entry<Message>>): seq<uint8> {
    if entries == [] then [] else Joined(entries[..|entries| - 1]) + entries[|entries| - 1].data
  }

  // Before the last message there was room for another one of the estimated length.
  ghost predicate PacketSize(sent: seq<Entry<Message>>, desired: int) {
    forall n :: 0 < n < |sent| ==> |Joined(sent[..n])| + Estimate(sent[..n]) <= desired
  }

  // The draws of IsThrottled for the n entries before: the second one is only made when the first
  // throttles.
  function Draws(throttled: nat -> bool, n: nat): nat {
    if n == 0 then 0
    else
      var before := Draws(throttled, n - 1);
      before + if throttled(before) then 2 else 1
  }

  // Whether the n-th entry may leave: to a sleeping client only a heartbeat may, to any other client
  // what is not important may when one of the two draws for it does not throttle.
  predicate Allowed(e: Entry<Message>, n: nat, sleeping: bool, throttled: nat -> bool) {
    if sleeping then e.priority <= -10
    else
      var draw := Draws(throttled, n);
      e.priority <= 0 || !throttled(draw) || !throttled(draw + 1)
  }

  // The packet data carries the entries sent.
  ghost predicate Packet(
    data: seq<uint8>, sent: seq<Entry<Message>>, sleeping: bool, throttled: nat -> bool, desired: int)
  {
    && data == Joined(sent)
    && PacketSize(sent, desired)
    && forall i :: 0 <= i < |sent| ==> Allowed(sent[i], i, sleeping, throttled)
  }

  // The estimate for the next message: a message longer than the estimate sets it to the length of
  // the packet so far.
  function Estimate(sent: seq<Entry<Message>>): nat {
    if sent == [] then 0
    else
      var before, last := Estimate(sent[..|sent| - 1]), sent[|sent| - 1];
      if |last.data| > before then |Joined(sent)| else before
  }

  // Why the packet ends here: nothing is left, the next entry has to wait, or it may not fit.
  ghost predicate Stopped(
    data: seq<uint8>, sent: seq<Entry<Message>>, rest: seq<Entry<Message>>, sleeping: bool, throttled: nat -> bool,
    desired: int)
  {
    || rest == []
    || !Allowed(rest[0], |sent|, sleeping, throttled)
    || (sent != [] && |data| + Estimate(sent) > desired)
  }

  // IsSleeping is fixed during the call. IsThrottled draws a random number each time it is asked,
  // so throttled gives its answers in the order they are asked for.
  method CollectMessages(queue: MessageQueue<Message>, sleeping: bool, throttled: nat -> bool, desired: int, now: int)
    returns (data: seq<uint8>)
    requires queue.Valid()
    modifies queue
    ensures queue.Valid()
    ensures var live, rest := Usable(old(queue.entries), now), Usable(queue.entries, now);
            exists sent ::
              && live == sent + rest
              && Packet(data, sent, sleeping, throttled, desired)
              && Stopped(data, sent, rest, sleeping, throttled, desired)
  {
    hide Usable, SkipStale, Ordered, Joined, PacketSize, Estimate, Packet, Allowed, Draws;
    data := [];
    var maxMsgLen: nat, asked: nat := 0, 0;
    ghost var live := Usable(queue.entries, now);
    ghost var sent := [];
    StartPacket(sleeping, throttled, desired);
    NoDraws(throttled);
    while true
      invariant queue.Valid()
      invariant live == sent + Usable(queue.entries, now)
      invariant Packet(data, sent, sleeping, throttled, desired)
      invariant Room(data, sent, maxMsgLen, desired)
      invariant !sleeping ==> asked == Draws(throttled, |sent|)
      decreases |queue.entries|
    {
      ghost var rest := Usable(queue.entries, now);
      NextDraws(throttled, |sent|);
      if rest != [] {
        IsAllowed(rest[0], |sent|, sleeping, throttled);
      }
      var held := sleeping;
      if !held {
        held := throttled(asked);
        asked := asked + 1;
      }
      if held {
        var first := queue.PeekFirst(now);
        var prio := if first.Found? then first.priority else 0;
        if sleeping && prio > -10 {
          return;
        }
        var throttledNow := throttled(asked);
        asked := asked + 1;
        if throttledNow && prio > 0 {
          return;
        }
      }
      var newData := queue.PopFirst(now);
      if newData.Nothing? {
        return;
      }
      var msg := newData.data;
      OneMore(data, sent, maxMsgLen, rest[0], sleeping, throttled, desired);
      assert live == sent + [rest[0]] + rest[1..];
      data := data + msg;
      sent := sent + [rest[0]];
      if |msg| > maxMsgLen {
        maxMsgLen := |data|;
      }
      if |data| + maxMsgLen > desired {
        return;
      }
    }
  }

  lemma NoDraws(throttled: nat -> bool)
    ensures Draws(throttled, 0) == 0
  {
  }

  lemma NextDraws(throttled: nat -> bool, n: nat)
    ensures Draws(throttled, n + 1) == Draws(throttled, n) + if throttled(Draws(throttled, n)) then 2 else 1
  {
  }

  lemma IsAllowed(e: Entry<Message>, n: nat, sleeping: bool, throttled: nat -> bool)
    ensures Allowed(e, n, sleeping, throttled)
            <==> if sleeping then e.priority <= -10
                 else e.priority <= 0 || !throttled(Draws(throttled, n)) || !throttled(Draws(throttled, n) + 1)
  {
  }

  // Another message of the estimated length would still fit.
  ghost predicate Room(data: seq<uint8>, sent: seq<Entry<Message>>, maxMsgLen: nat, desired: int) {
    && (sent != [] ==> |data| + maxMsgLen <= desired)
    && maxMsgLen == Estimate(sent)
  }

  lemma StartPacket(sleeping: bool, throttled: nat -> bool, desired: int)
    ensures Packet([], [], sleeping, throttled, desired) && Room([], [], 0, desired)
  {
  }

  lemma OneMore(
    data: seq<uint8>, sent: seq<Entry<Message>>, maxMsgLen: nat, e: Entry<Message>,
    sleeping: bool, throttled: nat -> bool, desired: int)
    requires Packet(data, sent, sleeping, throttled, desired) && Room(data, sent, maxMsgLen, desired)
    requires Allowed(e, |sent|, sleeping, throttled)
    ensures Packet(data + e.data, sent + [e], sleeping, throttled, desired)
    ensures var max := if |e.data| > maxMsgLen then |data + e.data| else maxMsgLen;
            && max == Estimate(sent + [e])
            && (|data + e.data| + max <= desired ==> Room(data + e.data, sent + [e], max, desired))
  {
    hide Allowed, Joined, PacketSize, Estimate;
    var more := sent + [e];
    assert more[..|sent|] == sent;
    JoinedSnoc(more);
    EstimateGrows(sent, e);
    SizeSnoc(data, sent, maxMsgLen, e, desired);
    assert forall i :: 0 <= i < |sent| ==> more[i] == sent[i];
  }

  // The estimate starts at 0, and a message longer than it replaces it by the length of the packet.
  lemma EstimateGrows(sent: seq<Entry<Message>>, e: Entry<Message>)
    ensures Estimate([]) == 0
    ensures Estimate(sent + [e]) == if |e.data| > Estimate(sent) then |Joined(sent)| + |e.data| else Estimate(sent)
  {
    hide Joined;
    assert (sent + [e])[..|sent|] == sent;
    JoinedSnoc(sent + [e]);
  }

  // It lies between the longest message of the packet and the packet itself.
  lemma {:induction false} EstimateBetween(sent: seq<Entry<Message>>, i: nat)
    requires i < |sent|
    ensures |sent[i].data| <= Estimate(sent) <= |Joined(sent)|
  {
    var n := |sent| - 1;
    if n > 0 {
      EstimateBetween(sent[..n], if i < n then i else 0);
    }
  }

  // So a packet is longer than desired only when its last message is longer than all before it, and
  // it ends for want of room only when it is more than half full.
  lemma PacketFilled(
    data: seq<uint8>, sent: seq<Entry<Message>>, rest: seq<Entry<Message>>, sleeping: bool, throttled: nat -> bool,
    desired: int)
    requires Packet(data, sent, sleeping, throttled, desired) && Stopped(data, sent, rest, sleeping, throttled, desired)
    ensures |data| > desired ==> forall j :: 0 <= j < |sent| - 1 ==> |sent[j].data| < |sent[|sent| - 1].data|
    ensures rest == [] || !Allowed(rest[0], |sent|, sleeping, throttled) || 2 * |data| > desired
  {
    hide Allowed, Joined, Estimate;
    if sent != [] {
      var n := |sent| - 1;
      EstimateBetween(sent, 0);
      JoinedSnoc(sent);
      forall j | 0 <= j < n ensures |data| > desired ==> |sent[j].data| < |sent[n].data| {
        EstimateBetween(sent[..n], j);
      }
    }
  }

  // Asleep only priorities of -10 or below leave, and one above waits. Awake an entry of priority 0 or below
  // never waits, and with every draw throttling none above leaves.
  lemma WhoLeaves(
    data: seq<uint8>, sent: seq<Entry<Message>>, rest: seq<Entry<Message>>, sleeping: bool, throttled: nat -> bool,
    desired: int)
    requires Packet(data, sent, sleeping, throttled, desired) && Stopped(data, sent, rest, sleeping, throttled, desired)
    ensures sleeping ==> forall i :: 0 <= i < |sent| ==> sent[i].priority <= -10
    ensures !sleeping && (forall n :: throttled(n)) ==> forall i :: 0 <= i < |sent| ==> sent[i].priority <= 0
    ensures rest != [] && rest[0].priority <= (if sleeping then -10 else 0) ==> sent != [] && 2 * |data| > desired
    ensures rest != [] && !sleeping && (forall n :: !throttled(n)) ==> sent != [] && 2 * |data| > desired
  {
    hide Joined, Estimate, Draws, PacketSize;
    PacketFilled(data, sent, rest, sleeping, throttled, desired);
    forall i | 0 <= i < |sent| ensures Allowed(sent[i], i, sleeping, throttled) {
    }
  }

  lemma SizeSnoc(data: seq<uint8>, sent: seq<Entry<Message>>, maxMsgLen: nat, e: Entry<Message>, desired: int)
    requires Room(data, sent, maxMsgLen, desired) && data == Joined(sent) && PacketSize(sent, desired)
    ensures PacketSize(sent + [e], desired)
  {
    hide Estimate, Joined;
    var more := sent + [e];
    forall n | 0 < n < |more| ensures |Joined(more[..n])| + Estimate(more[..n]) <= desired {
      assert more[..n] == sent[..n];
      assert n == |sent| ==> sent[..n] == sent;
    }
  }

  lemma JoinedSnoc(entries: seq<Entry<Message>>)
    requires entries != []
    ensures Joined(entries) == Joined(entries[..|entries| - 1]) + entries[|entries| - 1].data
  {
  }

  ghost predicate CarryFrames(sent: seq<Entry<Message>>, messages: seq<Message>) {
    |sent| == |messages| && forall i :: 0 <= i < |sent| ==> sent[i].data == Gdl90.Frame(messages[i])
  }

  lemma {:induction false} JoinedFrames(sent: seq<Entry<Message>>, messages: seq<Message>)
    requires CarryFrames(sent, messages)
    ensures Joined(sent) == Gdl90.Frames(messages)
  {
    if sent != [] {
      JoinedFrames(sent[..|sent| - 1], messages[..|messages| - 1]);
    }
  }

  // A packet built from frames is deframed to exactly the messages taken from the queue, in the
  // order of the queue, and leaves the receiver ready for the next packet.
  lemma PacketDeframes(r: Gdl90.Receiver, sent: seq<Entry<Message>>, messages: seq<Message>)
    requires Gdl90.BetweenFrames(r.state) && CarryFrames(sent, messages)
    ensures var after := Gdl90.Receive(r, Joined(sent));
            Gdl90.BetweenFrames(after.state) && after.delivered == r.delivered + Gdl90.Payloads(messages)
  {
    JoinedFrames(sent, messages);
    Gdl90.ReceiveFrames(r, messages);
  }
}
