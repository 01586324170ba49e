/**
 * The netlink request/reply machine (net/netlink_manager.cpp): sequence numbers, the handler table, the receive
 * loop over the messages of a datagram, and the wait loop around poll.
 *
 * A handler is the token of the vector it appends to; running it appends the packet. Datagrams, poll outcomes and
 * elapsed times are inputs.
 */
module NetlinkManager {
  import opened Bytes
  import opened Packet

  type Message = seq<Byte>

  const RECEIVE_BUFFER_SIZE := 8 * 1024
  const BROADCAST_SEQUENCE := 0
  const MAX_WAIT_MS := 4000

  // ----- sequence numbers -----

  const PERIOD := 0xFFFF_FFFF

  /** Increment with 32-bit wrap, skipping the broadcast number. */
  function NextSequence(n: U32): U32 {
    var m := (n + 1) % 0x1_0000_0000;
    if m == BROADCAST_SEQUENCE then m + 1 else m
  }

  /** The n-th number handed out by a fresh manager. */
  function NthSequence(n: nat): U32 {
    if n == 0 then 0 else NextSequence(NthSequence(n - 1))
  }

  lemma {:induction false} NthSequenceIs(n: nat)
    requires n >= 1
    ensures NthSequence(n) == 1 + (n - 1) % PERIOD
    ensures NthSequence(n) != BROADCAST_SEQUENCE
  {
    if n > 1 {
      NthSequenceIs(n - 1);
      ModSucc(n - 2);
      NextInPeriod((n - 2) % PERIOD);
    } else {
      assert NthSequence(0) == 0;
    }
  }

  lemma ModSucc(a: nat)
    ensures (a + 1) % PERIOD == if a % PERIOD == PERIOD - 1 then 0 else a % PERIOD + 1
  {
  }

  lemma NextInPeriod(k: nat)
    requires k < PERIOD
    ensures NextSequence(1 + k) == if k == PERIOD - 1 then 1 else 2 + k
  {
  }

  /** Any 2^32 - 1 consecutive numbers are pairwise distinct. */
  lemma SequencesDistinct(i: nat, j: nat)
    requires 1 <= i < j < i + PERIOD
    ensures NthSequence(i) != NthSequence(j)
  {
    ModDistinct(i - 1, j - 1);
    NthSequenceIs(i);
    NthSequenceIs(j);
  }

  lemma ModDistinct(a: nat, b: nat)
    requires a < b < a + PERIOD
    ensures a % PERIOD != b % PERIOD
  {
    var qa, qb := a / PERIOD, b / PERIOD;
    assert a == PERIOD * qa + a % PERIOD && b == PERIOD * qb + b % PERIOD;
  }

  // ----- one message -----

  datatype Net = Net(handlers: map<int, nat>, vectors: map<nat, seq<Message>>, broadcasts: seq<Message>)

  function VectorOf(net: Net, token: nat): seq<Message> {
    if token in net.vectors then net.vectors[token] else []
  }

  function Retire(net: Net, s: int): Net {
    net.(handlers := net.handlers - {s})
  }

  /** Run the handler of sequence number s. */
  function Deliver(net: Net, s: int, m: Message): Net
    requires s in net.handlers
  {
    var token := net.handlers[s];
    net.(vectors := net.vectors[token := VectorOf(net, token) + [m]])
  }

  /** The state after a message and whether the loop goes on to the next message of the datagram. */
  datatype Step = Step(net: Net, more: bool)

  function Handled(net: Net, m: Message): Step
    requires IsValidPacket(m)
  {
    var s, t := MsgSeq(m), MsgType(m);
    if s == BROADCAST_SEQUENCE then Step(net.(broadcasts := net.broadcasts + [m]), true)
    else if s !in net.handlers then Step(net, false)
    else if t == NLMSG_DONE || t == NLMSG_NOOP || t == NLMSG_OVERRUN then Step(Retire(net, s), false)
    else Step(if IsMulti(m) then Deliver(net, s, m) else Retire(Deliver(net, s, m), s), true)
  }

  // ----- one datagram -----

  /** Every message that the loop can reach ends inside the datagram: what the kernel's framing promises. */
  predicate Framed(d: seq<Byte>) {
    |d| < NLMSG_HDRLEN || MsgLen(d) < NLMSG_HDRLEN || (MsgLen(d) <= |d| && Framed(d[MsgLen(d)..]))
  }

  function Receive(net: Net, d: seq<Byte>): Net
    decreases |d|
  {
    if |d| < NLMSG_HDRLEN || !(NLMSG_HDRLEN <= MsgLen(d) <= |d|) then net else
    var n := MsgLen(d);
    if !IsValidPacket(d[..n]) then net else
    var step := Handled(net, d[..n]);
    if step.more then Receive(step.net, d[n..]) else step.net
  }

  /**
   * The datagram lies at the front of a buffer whose rest holds old bytes. A message that claims to be longer than
   * its datagram is completed from them.
   */
  function ReceiveIn(net: Net, d: seq<Byte>, rest: seq<Byte>): Net
    decreases |d|
  {
    if |d| < NLMSG_HDRLEN || !(NLMSG_HDRLEN <= MsgLen(d) <= |d| + |rest|) then net else
    var n := MsgLen(d);
    var m := (d + rest)[..n];
    if !IsValidPacket(m) then net else
    var step := Handled(net, m);
    if step.more && n <= |d| then ReceiveIn(step.net, d[n..], rest) else step.net
  }

  /** The messages that the loop can find. */
  function MessagesIn(d: seq<Byte>, rest: seq<Byte>): seq<Message>
    decreases |d|
  {
    if |d| < NLMSG_HDRLEN || !(NLMSG_HDRLEN <= MsgLen(d) <= |d| + |rest|) then [] else
    var n := MsgLen(d);
    [(d + rest)[..n]] + if n <= |d| then MessagesIn(d[n..], rest) else []
  }

  /** Every message that the loop can reach ends inside the buffer; beyond it the code would read other memory. */
  predicate InBuffer(d: seq<Byte>, rest: seq<Byte>)
    decreases |d|
  {
    |d| < NLMSG_HDRLEN || MsgLen(d) < NLMSG_HDRLEN ||
    (MsgLen(d) <= |d| + |rest| && (MsgLen(d) <= |d| ==> InBuffer(d[MsgLen(d)..], rest)))
  }

  /** The old bytes do not matter for a datagram as the kernel frames it. */
  lemma {:induction false} WithinDatagram(net: Net, d: seq<Byte>, rest: seq<Byte>)
    requires Framed(d)
    ensures InBuffer(d, rest) && ReceiveIn(net, d, rest) == Receive(net, d)
    decreases |d|
  {
    if |d| >= NLMSG_HDRLEN && MsgLen(d) >= NLMSG_HDRLEN {
      var n := MsgLen(d);
      var m := d[..n];
      assert (d + rest)[..n] == m;
      WithinDatagram(if IsValidPacket(m) then Handled(net, m).net else net, d[n..], rest);
    }
  }

  function ReceiveAll(net: Net, datagrams: seq<seq<Byte>>): Net
    decreases |datagrams|
  {
    if datagrams == [] then net else ReceiveAll(Receive(net, datagrams[0]), datagrams[1..])
  }

  // ----- multipart replies -----

  /** A message whose length field is its length. */
  predicate Whole(m: Message) {
    IsValidPacket(m) && MsgLen(m) == |m|
  }

  predicate IsPart(m: Message, s: U32) {
    && Whole(m) && MsgSeq(m) == s && IsMulti(m)
    && MsgType(m) != NLMSG_DONE && MsgType(m) != NLMSG_NOOP && MsgType(m) != NLMSG_OVERRUN
  }

  predicate IsDone(m: Message, s: U32) {
    Whole(m) && MsgSeq(m) == s && MsgType(m) == NLMSG_DONE
  }

  function DeliverAll(net: Net, s: int, ms: seq<Message>): (r: Net)
    requires s in net.handlers
    ensures r.handlers == net.handlers
    decreases |ms|
  {
    if ms == [] then net else DeliverAll(Deliver(net, s, ms[0]), s, ms[1..])
  }

  lemma {:induction false} DeliverAllIs(net: Net, s: int, ms: seq<Message>)
    requires s in net.handlers
    ensures ms == [] || DeliverAll(net, s, ms) ==
            net.(vectors := net.vectors[net.handlers[s] := VectorOf(net, net.handlers[s]) + ms])
    ensures VectorOf(DeliverAll(net, s, ms), net.handlers[s]) == VectorOf(net, net.handlers[s]) + ms
    decreases |ms|
  {
    if ms != [] {
      var next := Deliver(net, s, ms[0]);
      DeliverAllIs(next, s, ms[1..]);
      var token := net.handlers[s];
      assert VectorOf(net, token) + ms == VectorOf(next, token) + ms[1..];
      assert net.vectors[token := VectorOf(next, token)][token := VectorOf(net, token) + ms]
          == net.vectors[token := VectorOf(net, token) + ms];
      if ms[1..] == [] {
        assert ms == [ms[0]];
      }
    }
  }

  lemma {:induction false} DeliverAllAppend(net: Net, s: int, a: seq<Message>, b: seq<Message>)
    requires s in net.handlers
    ensures DeliverAll(net, s, a + b) == DeliverAll(DeliverAll(net, s, a), s, b)
    decreases |a|
  {
    if a == [] {
      assert a + b == b;
    } else {
      assert (a + b)[1..] == a[1..] + b;
      DeliverAllAppend(Deliver(net, s, a[0]), s, a[1..], b);
    }
  }

  lemma MessageFirst(m: Message, rest: seq<Byte>)
    requires Whole(m)
    ensures var d := m + rest; |d| >= NLMSG_HDRLEN && MsgLen(d) == |m| && d[..|m|] == m && d[|m|..] == rest
  {
    var d := m + rest;
    assert d[..|m|] == m;
    assert d[0] == m[0] && d[1] == m[1] && d[2] == m[2] && d[3] == m[3];
  }

  lemma {:induction false} ReceiveParts(net: Net, s: U32, parts: seq<Message>, rest: seq<Byte>)
    requires s != BROADCAST_SEQUENCE && s in net.handlers && forall m :: m in parts ==> IsPart(m, s)
    ensures Receive(net, Flatten(parts) + rest) == Receive(DeliverAll(net, s, parts), rest)
    decreases |parts|
  {
    if parts == [] {
      assert Flatten(parts) + rest == rest;
    } else {
      var tail := Flatten(parts[1..]) + rest;
      assert Flatten(parts) + rest == parts[0] + tail;
      assert IsPart(parts[0], s);
      MessageFirst(parts[0], tail);
      ReceiveParts(Deliver(net, s, parts[0]), s, parts[1..], rest);
    }
  }

  lemma ReceiveDone(net: Net, s: U32, done: Message, rest: seq<Byte>)
    requires s != BROADCAST_SEQUENCE && s in net.handlers && IsDone(done, s)
    ensures Receive(net, done + rest) == Retire(net, s)
  {
    MessageFirst(done, rest);
  }

  /** A grouping of messages into datagrams. */
  function Datagrams(groups: seq<seq<Message>>): (ds: seq<seq<Byte>>)
    ensures |ds| == |groups|
    ensures forall i :: 0 <= i < |groups| ==> ds[i] == Flatten(groups[i])
  {
    seq(|groups|, i requires 0 <= i < |groups| => Flatten(groups[i]))
  }

  lemma {:induction false} EmptyGroups(net: Net, groups: seq<seq<Message>>)
    requires Flatten(groups) == []
    ensures ReceiveAll(net, Datagrams(groups)) == net
  {
    if groups != [] {
      assert groups[0] == [] && Flatten(groups[1..]) == [];
      assert Datagrams(groups)[1..] == Datagrams(groups[1..]);
      EmptyGroups(net, groups[1..]);
    }
  }

  /** The datagram that a group starting the reply brings in: some parts, or all that is left and the end marker. */
  lemma ReceiveGroup(net: Net, s: U32, group: seq<Message>, later: seq<Message>, parts: seq<Message>, done: Message)
    requires s != BROADCAST_SEQUENCE && s in net.handlers
    requires (forall m :: m in parts ==> IsPart(m, s)) && IsDone(done, s)
    requires group + later == parts + [done]
    ensures later == [] ==> Receive(net, Flatten(group)) == Retire(DeliverAll(net, s, parts), s)
    ensures later != [] ==>
              && group <= parts && later == parts[|group|..] + [done]
              && Receive(net, Flatten(group)) == DeliverAll(net, s, group)
  {
    if later == [] {
      assert group == parts + [done];
      FlattenAppend(parts, [done]);
      assert Flatten([done]) == done + Flatten([]) == done + [];
      ReceiveParts(net, s, parts, done + []);
      ReceiveDone(DeliverAll(net, s, parts), s, done, []);
    } else {
      assert |group| <= |parts|;
      assert group == (group + later)[..|group|] == parts[..|group|];
      assert later == (group + later)[|group|..] == parts[|group|..] + [done];
      ReceiveParts(net, s, group, []);
      assert Flatten(group) + [] == Flatten(group);
    }
  }

  lemma {:induction false} MultipartDelivered(net: Net, s: U32, parts: seq<Message>, done: Message,
                                              groups: seq<seq<Message>>)
    requires s != BROADCAST_SEQUENCE && s in net.handlers
    requires (forall m :: m in parts ==> IsPart(m, s)) && IsDone(done, s)
    requires Flatten(groups) == parts + [done]
    ensures ReceiveAll(net, Datagrams(groups)) == Retire(DeliverAll(net, s, parts), s)
    decreases |groups|
  {
    var group, later := groups[0], Flatten(groups[1..]);
    assert Datagrams(groups)[1..] == Datagrams(groups[1..]);
    ReceiveGroup(net, s, group, later, parts, done);
    if later == [] {
      EmptyGroups(Retire(DeliverAll(net, s, parts), s), groups[1..]);
    } else {
      var rest := parts[|group|..];
      MultipartDelivered(DeliverAll(net, s, group), s, rest, done, groups[1..]);
      DeliverAllAppend(net, s, group, rest);
      assert group + rest == parts;
    }
  }

  /** The reply to s is complete: its vector has grown by the parts, its handler is gone, nothing else has changed. */
  ghost predicate Collected(net: Net, after: Net, s: U32, parts: seq<Message>)
    requires s in net.handlers
  {
    var token := net.handlers[s];
    && after.handlers == net.handlers - {s}
    && VectorOf(after, token) == VectorOf(net, token) + parts
    && (forall t :: t != token ==> VectorOf(after, t) == VectorOf(net, t))
    && after.broadcasts == net.broadcasts
  }

  lemma DeliveredIsCollected(net: Net, s: U32, parts: seq<Message>)
    requires s in net.handlers
    ensures Collected(net, Retire(DeliverAll(net, s, parts), s), s, parts)
  {
    DeliverAllIs(net, s, parts);
    if parts == [] {
      assert VectorOf(net, net.handlers[s]) + parts == VectorOf(net, net.handlers[s]);
    }
  }

  /**
   * However a multipart reply is grouped into datagrams, its parts are collected in order, its handler is retired
   * by the end marker, and every other handler and vector is as before.
   */
  lemma MultipartCollected(net: Net, s: U32, parts: seq<Message>, done: Message, groups: seq<seq<Message>>)
    requires s != BROADCAST_SEQUENCE && s in net.handlers
    requires (forall m :: m in parts ==> IsPart(m, s)) && IsDone(done, s)
    requires Flatten(groups) == parts + [done]
    ensures Collected(net, ReceiveAll(net, Datagrams(groups)), s, parts)
  {
    MultipartDelivered(net, s, parts, done, groups);
    DeliveredIsCollected(net, s, parts);
  }

  // ----- any messages, any grouping -----

  predicate AllWhole(ms: seq<Message>) {
    forall i :: 0 <= i < |ms| ==> Whole(ms[i])
  }

  /** Handle every message. */
  function HandledAll(net: Net, ms: seq<Message>): Net
    requires AllWhole(ms)
    decreases |ms|
  {
    if ms == [] then net else HandledAll(Handled(net, ms[0]).net, ms[1..])
  }

  /** Handle messages up to the first that ends its datagram; `more` tells that there was none. */
  function HandledUntil(net: Net, ms: seq<Message>): Step
    requires AllWhole(ms)
    decreases |ms|
  {
    if ms == [] then Step(net, true) else
    var step := Handled(net, ms[0]);
    if step.more then HandledUntil(step.net, ms[1..]) else step
  }

  /** Nobody waits for the message, or it is the end of a reply: the loop looks no further. */
  predicate EndsDatagram(net: Net, m: Message)
    requires Whole(m)
  {
    && MsgSeq(m) != BROADCAST_SEQUENCE
    && (MsgSeq(m) in net.handlers ==>
          MsgType(m) == NLMSG_DONE || MsgType(m) == NLMSG_NOOP || MsgType(m) == NLMSG_OVERRUN)
  }

  /** The messages behind the first one that ends the datagram. */
  function Dropped(net: Net, ms: seq<Message>): (r: seq<Message>)
    requires AllWhole(ms)
    ensures AllWhole(r)
    decreases |ms|
  {
    if ms == [] then []
    else if EndsDatagram(net, ms[0]) then ms[1..]
    else Dropped(Handled(net, ms[0]).net, ms[1..])
  }

  /** No broadcast, and nothing that a handler waits for. */
  predicate Unheard(net: Net, ms: seq<Message>)
    requires AllWhole(ms)
  {
    forall i :: 0 <= i < |ms| ==> MsgSeq(ms[i]) != BROADCAST_SEQUENCE && MsgSeq(ms[i]) !in net.handlers
  }

  /** The receive loop is the fold over the messages of its datagram, cut at the first that ends it. */
  lemma {:induction false} ReceiveIsFold(net: Net, ms: seq<Message>)
    requires AllWhole(ms)
    ensures Receive(net, Flatten(ms)) == HandledUntil(net, ms).net
    decreases |ms|
  {
    if ms != [] {
      var rest := Flatten(ms[1..]);
      assert Whole(ms[0]) && Flatten(ms) == ms[0] + rest;
      MessageFirst(ms[0], rest);
      ReceiveIsFold(Handled(net, ms[0]).net, ms[1..]);
    }
  }

  /** Handlers only go, vectors and broadcasts only grow. */
  ghost predicate Advances(a: Net, b: Net) {
    && b.handlers.Keys <= a.handlers.Keys
    && (forall t :: |VectorOf(a, t)| <= |VectorOf(b, t)|)
    && |a.broadcasts| <= |b.broadcasts|
  }

  lemma {:induction false} HandledAdvances(net: Net, ms: seq<Message>)
    requires AllWhole(ms)
    ensures Advances(net, HandledAll(net, ms))
    decreases |ms|
  {
    if ms != [] {
      var next := Handled(net, ms[0]).net;
      assert Advances(net, next);
      HandledAdvances(next, ms[1..]);
    }
  }

  /** A message that is heard leaves a mark that later messages do not remove. */
  lemma HeardForGood(net: Net, m: Message, after: Net)
    requires Whole(m) && (MsgSeq(m) == BROADCAST_SEQUENCE || MsgSeq(m) in net.handlers)
    requires Advances(Handled(net, m).net, after)
    ensures after != net
  {
    var s, next := MsgSeq(m), Handled(net, m).net;
    if s != BROADCAST_SEQUENCE && s in next.handlers {
      var token := net.handlers[s];
      assert |VectorOf(net, token)| < |VectorOf(next, token)| <= |VectorOf(after, token)|;
    }
  }

  lemma {:induction false} NoEffectIffUnheard(net: Net, ms: seq<Message>)
    requires AllWhole(ms)
    ensures HandledAll(net, ms) == net <==> Unheard(net, ms)
    decreases |ms|
  {
    if ms != [] {
      var m, rest := ms[0], ms[1..];
      if MsgSeq(m) == BROADCAST_SEQUENCE || MsgSeq(m) in net.handlers {
        HandledAdvances(Handled(net, m).net, rest);
        HeardForGood(net, m, HandledAll(net, ms));
      } else {
        NoEffectIffUnheard(net, rest);
        assert forall i :: 1 <= i < |ms| ==> ms[i] == rest[i - 1];
      }
    }
  }

  lemma {:induction false} HandledAllIsRest(net: Net, ms: seq<Message>)
    requires AllWhole(ms)
    ensures HandledAll(net, ms) == HandledAll(HandledUntil(net, ms).net, Dropped(net, ms))
    decreases |ms|
  {
    if ms != [] && !EndsDatagram(net, ms[0]) {
      HandledAllIsRest(Handled(net, ms[0]).net, ms[1..]);
    }
  }

  /** Nothing that a datagram drops would have been heard. */
  predicate DropsHarmless(net: Net, ms: seq<Message>)
    requires AllWhole(ms)
  {
    Unheard(HandledUntil(net, ms).net, Dropped(net, ms))
  }

  /** A datagram has the effect of all its messages exactly when nobody would have heard those it drops. */
  lemma DatagramIsFoldIff(net: Net, ms: seq<Message>)
    requires AllWhole(ms)
    ensures Receive(net, Flatten(ms)) == HandledAll(net, ms) <==> DropsHarmless(net, ms)
  {
    ReceiveIsFold(net, ms);
    HandledAllIsRest(net, ms);
    NoEffectIffUnheard(HandledUntil(net, ms).net, Dropped(net, ms));
  }

  lemma {:induction false} HandledAllAppend(net: Net, a: seq<Message>, b: seq<Message>)
    requires AllWhole(a) && AllWhole(b)
    ensures AllWhole(a + b) && HandledAll(net, a + b) == HandledAll(HandledAll(net, a), b)
    decreases |a|
  {
    if a == [] {
      assert a + b == b;
    } else {
      assert (a + b)[0] == a[0] && (a + b)[1..] == a[1..] + b;
      HandledAllAppend(Handled(net, a[0]).net, a[1..], b);
    }
  }

  predicate AllGroupsWhole(groups: seq<seq<Message>>) {
    forall i :: 0 <= i < |groups| ==> AllWhole(groups[i])
  }

  lemma {:induction false} FlatWhole(groups: seq<seq<Message>>)
    requires AllGroupsWhole(groups)
    ensures AllWhole(Flatten(groups))
  {
    if groups != [] {
      FlatWhole(groups[1..]);
    }
  }

  /** Every datagram, when its turn comes, drops only what nobody would have heard. */
  predicate GroupsComplete(net: Net, groups: seq<seq<Message>>)
    requires AllGroupsWhole(groups)
    decreases |groups|
  {
    groups == [] ||
    (DropsHarmless(net, groups[0]) && GroupsComplete(HandledAll(net, groups[0]), groups[1..]))
  }

  /** The first k datagrams have had the effect of their messages one after the other. */
  ghost predicate InStepAt(net: Net, groups: seq<seq<Message>>, k: nat)
    requires AllGroupsWhole(groups) && k <= |groups|
  {
    AllWhole(Flatten(groups[..k])) && ReceiveAll(net, Datagrams(groups[..k])) == HandledAll(net, Flatten(groups[..k]))
  }

  lemma InStepFirst(net: Net, groups: seq<seq<Message>>)
    requires AllGroupsWhole(groups) && groups != []
    ensures InStepAt(net, groups, 1) <==> DropsHarmless(net, groups[0])
  {
    var g := groups[0];
    assert groups[..1] == [g];
    assert Flatten([g]) == g + Flatten([g][1..]) == g;
    assert Datagrams([g]) == [Flatten(g)];
    ReceiveOne(net, Flatten(g));
    DatagramIsFoldIff(net, g);
  }

  lemma InStepLater(net: Net, groups: seq<seq<Message>>, k: nat)
    requires AllGroupsWhole(groups) && k < |groups| && DropsHarmless(net, groups[0])
    ensures InStepAt(net, groups, k + 1) <==> InStepAt(HandledAll(net, groups[0]), groups[1..], k)
  {
    var g, rest := groups[0], groups[1..][..k];
    FlatWhole(rest);
    assert groups[..k + 1] == [g] + rest;
    FlattenCons(g, rest);
    HandledAllAppend(net, g, Flatten(rest));
    assert Datagrams([g] + rest) == [Flatten(g)] + Datagrams(rest);
    DatagramIsFoldIff(net, g);
  }

  /** After each datagram the state is that of the messages so far exactly when all drop only what is unheard. */
  lemma {:induction false} GroupingIff(net: Net, groups: seq<seq<Message>>)
    requires AllGroupsWhole(groups)
    ensures (forall k :: 0 <= k <= |groups| ==> InStepAt(net, groups, k)) <==> GroupsComplete(net, groups)
    decreases |groups|
  {
    assert InStepAt(net, groups, 0);
    if groups != [] {
      var next, rest := HandledAll(net, groups[0]), groups[1..];
      InStepFirst(net, groups);
      GroupingIff(next, rest);
      if DropsHarmless(net, groups[0]) {
        forall k | 0 <= k < |groups| ensures InStepAt(net, groups, k + 1) <==> InStepAt(next, rest, k) {
          InStepLater(net, groups, k);
        }
        ShiftedSteps(net, groups, next, rest);
      }
    }
  }

  lemma ShiftedSteps(net: Net, groups: seq<seq<Message>>, next: Net, rest: seq<seq<Message>>)
    requires AllGroupsWhole(groups) && AllGroupsWhole(rest) && |groups| == |rest| + 1
    requires InStepAt(net, groups, 0)
    requires forall k :: 0 <= k < |groups| ==> (InStepAt(net, groups, k + 1) <==> InStepAt(next, rest, k))
    ensures (forall k :: 0 <= k <= |groups| ==> InStepAt(net, groups, k))
            <==> (forall k :: 0 <= k <= |rest| ==> InStepAt(next, rest, k))
  {
    if forall k :: 0 <= k <= |groups| ==> InStepAt(net, groups, k) {
      forall k | 0 <= k <= |rest| ensures InStepAt(next, rest, k) {
        assert InStepAt(net, groups, k + 1);
      }
    }
    if forall k :: 0 <= k <= |rest| ==> InStepAt(next, rest, k) {
      forall k | 0 <= k <= |groups| ensures InStepAt(net, groups, k) {
        if k > 0 {
          assert InStepAt(next, rest, k - 1);
          assert InStepAt(net, groups, (k - 1) + 1);
        }
      }
    }
  }

  /** Two such groupings of the same messages, whatever they are replies to, have the same effect. */
  lemma GroupingDoesNotMatter(net: Net, a: seq<seq<Message>>, b: seq<seq<Message>>)
    requires AllGroupsWhole(a) && AllGroupsWhole(b) && Flatten(a) == Flatten(b)
    requires GroupsComplete(net, a) && GroupsComplete(net, b)
    ensures ReceiveAll(net, Datagrams(a)) == ReceiveAll(net, Datagrams(b))
  {
    GroupingIff(net, a);
    GroupingIff(net, b);
    assert InStepAt(net, a, |a|) && InStepAt(net, b, |b|);
    assert a[..|a|] == a && b[..|b|] == b;
  }

  /** After an end marker, or a message that nobody waits for, the rest of the datagram has no effect whatever it is. */
  lemma {:induction false} RestIsDropped(net: Net, ms: seq<Message>, rest: seq<Byte>)
    requires AllWhole(ms) && !HandledUntil(net, ms).more
    ensures Receive(net, Flatten(ms) + rest) == Receive(net, Flatten(ms)) == HandledUntil(net, ms).net
    decreases |ms|
  {
    var tail := Flatten(ms[1..]);
    assert Whole(ms[0]) && Flatten(ms) == ms[0] + tail && Flatten(ms) + rest == ms[0] + (tail + rest);
    MessageFirst(ms[0], tail + rest);
    MessageFirst(ms[0], tail);
    if Handled(net, ms[0]).more {
      RestIsDropped(Handled(net, ms[0]).net, ms[1..], rest);
    }
  }

  /** The end marker of a multipart reply: a bare netlink header. */
  function DoneMessage(s: U32): (m: Message)
    ensures |m| == NLMSG_HDRLEN
  {
    U32Bytes(NLMSG_HDRLEN) + U16Bytes(NLMSG_DONE) + U16Bytes(NLM_F_MULTI) + U32Bytes(s) + U32Bytes(0)
  }

  lemma DoneMessageIsDone(s: U32)
    ensures IsDone(DoneMessage(s), s)
  {
    var m := DoneMessage(s);
    assert m[0..4] == U32Bytes(NLMSG_HDRLEN) && m[4..6] == U16Bytes(NLMSG_DONE) && m[8..12] == U32Bytes(s);
    U32At(m, 0, NLMSG_HDRLEN);
    U16At(m, 4, NLMSG_DONE);
    U32At(m, 8, s);
  }

  /**
   * So grouping does matter once replies mix: two end markers retire two handlers when they come in two datagrams,
   * and only the first when they share one.
   */
  lemma SharedDatagramLosesMessage()
    ensures var net, first, second := Net(map[1 := 10, 2 := 20], map[], []), DoneMessage(1), DoneMessage(2);
            && ReceiveAll(net, [first, second]).handlers == map[]
            && ReceiveAll(net, [first + second]).handlers == map[2 := 20]
  {
    var net, first, second := Net(map[1 := 10, 2 := 20], map[], []), DoneMessage(1), DoneMessage(2);
    DoneMessageIsDone(1);
    DoneMessageIsDone(2);
    ReceiveDone(net, 1, first, second);
    ReceiveOnly(net, 1, first);
    ReceiveOnly(Retire(net, 1), 2, second);
    ReceiveTwo(net, first, second);
    ReceiveOne(net, first + second);
    assert Retire(net, 1).handlers == map[2 := 20];
  }

  lemma ReceiveOne(net: Net, d: seq<Byte>)
    ensures ReceiveAll(net, [d]) == Receive(net, d)
  {
    assert ReceiveAll(Receive(net, d), [d][1..]) == Receive(net, d);
  }

  lemma ReceiveTwo(net: Net, d: seq<Byte>, e: seq<Byte>)
    ensures ReceiveAll(net, [d, e]) == Receive(Receive(net, d), e)
  {
    assert [d, e][1..] == [e];
    ReceiveOne(Receive(net, d), e);
  }

  lemma ReceiveOnly(net: Net, s: U32, done: Message)
    requires s != BROADCAST_SEQUENCE && s in net.handlers && IsDone(done, s)
    ensures Receive(net, done) == Retire(net, s)
  {
    assert done + [] == done;
    ReceiveDone(net, s, done, []);
  }

  // ----- waiting for a reply -----

  /**
   * One round of the wait loop: poll fails, or a datagram is read, the rest of the buffer is whatever it was, and
   * handling the datagram takes some milliseconds.
   */
  datatype Poll = TimedOut | Failed | Ready(datagram: seq<Byte>, rest: seq<Byte>, elapsedMs: nat)

  datatype Outcome = Outcome(net: Net, ok: bool)

  /** Silence after the last datagram makes poll time out. */
  function Wait(net: Net, s: U32, polls: seq<Poll>, time: int): Outcome
    decreases |polls|
  {
    if time <= 0 then Outcome(Retire(net, s), false)
    else if s !in net.handlers then Outcome(net, true)
    else if polls == [] || !polls[0].Ready? then Outcome(Retire(net, s), false)
    else Wait(ReceiveIn(net, polls[0].datagram, polls[0].rest), s, polls[1..], time - polls[0].elapsedMs)
  }

  function Exchange(net: Net, s: U32, token: nat, polls: seq<Poll>): Outcome {
    Wait(net.(handlers := net.handlers[s := token]), s, polls, MAX_WAIT_MS)
  }

  /** Whatever arrives, fails or times out, no handler is left behind. */
  lemma {:induction false} WaitRetires(net: Net, s: U32, polls: seq<Poll>, time: int)
    ensures s !in Wait(net, s, polls, time).net.handlers
    decreases |polls|
  {
    if time > 0 && s in net.handlers && polls != [] && polls[0].Ready? {
      WaitRetires(ReceiveIn(net, polls[0].datagram, polls[0].rest), s, polls[1..], time - polls[0].elapsedMs);
    }
  }

  /** Only the handler of s appends to this vector. */
  ghost predicate OwnedBy(net: Net, s: int, token: nat) {
    forall k :: k in net.handlers && net.handlers[k] == token ==> k == s
  }

  /** `token` grew by whole packets of sequence s that arrived, in arrival order. */
  ghost predicate Grew(before: Net, after: Net, s: U32, token: nat, arrived: seq<Message>) {
    var was, now := VectorOf(before, token), VectorOf(after, token);
    && was <= now
    && IsSubsequence(now[|was|..], arrived)
    && forall m :: m in now[|was|..] ==> Whole(m) && MsgSeq(m) == s
  }

  lemma GrewTwice(a: Net, b: Net, c: Net, s: U32, token: nat, first: seq<Message>, second: seq<Message>)
    requires Grew(a, b, s, token, first) && Grew(b, c, s, token, second)
    ensures Grew(a, c, s, token, first + second)
  {
    var x, y, z := VectorOf(a, token), VectorOf(b, token), VectorOf(c, token);
    assert z[|x|..] == y[|x|..] + z[|y|..];
    SubsequenceAppend(y[|x|..], first, z[|y|..], second);
  }

  lemma HandledGrows(net: Net, m: Message, s: U32, token: nat)
    requires Whole(m) && OwnedBy(net, s, token)
    ensures Grew(net, Handled(net, m).net, s, token, [m]) && OwnedBy(Handled(net, m).net, s, token)
  {
    var was, now := VectorOf(net, token), VectorOf(Handled(net, m).net, token);
    assert now == was || now == was + [m];
    assert now[|was|..] == [] || now[|was|..] == [m];
    assert [m][1..] == [];
  }

  lemma {:induction false} ReceiveGrows(net: Net, d: seq<Byte>, rest: seq<Byte>, s: U32, token: nat)
    requires OwnedBy(net, s, token)
    ensures Grew(net, ReceiveIn(net, d, rest), s, token, MessagesIn(d, rest))
    ensures OwnedBy(ReceiveIn(net, d, rest), s, token)
    decreases |d|
  {
    if |d| >= NLMSG_HDRLEN && NLMSG_HDRLEN <= MsgLen(d) <= |d| + |rest| && IsValidPacket((d + rest)[..MsgLen(d)]) {
      var n := MsgLen(d);
      var m := (d + rest)[..n];
      var later := if n <= |d| then MessagesIn(d[n..], rest) else [];
      assert m[0] == d[0] && m[1] == d[1] && m[2] == d[2] && m[3] == d[3];
      HandledGrows(net, m, s, token);
      var step := Handled(net, m);
      if step.more && n <= |d| {
        ReceiveGrows(step.net, d[n..], rest, s, token);
        GrewTwice(net, step.net, ReceiveIn(net, d, rest), s, token, [m], later);
      } else {
        Stays(step.net, s, token, later);
        GrewTwice(net, step.net, step.net, s, token, [m], later);
      }
    } else {
      Stays(net, s, token, MessagesIn(d, rest));
    }
  }

  lemma Stays(net: Net, s: U32, token: nat, arrived: seq<Message>)
    ensures Grew(net, net, s, token, arrived)
  {
    assert VectorOf(net, token)[|VectorOf(net, token)|..] == [];
  }

  function Arrived(polls: seq<Poll>): seq<Message> {
    if polls == [] then [] else
    (if polls[0].Ready? then MessagesIn(polls[0].datagram, polls[0].rest) else []) + Arrived(polls[1..])
  }

  /** The reply vector receives only packets of the request's own sequence number, in arrival order. */
  lemma {:induction false} WaitCollects(net: Net, s: U32, token: nat, polls: seq<Poll>, time: int)
    requires OwnedBy(net, s, token)
    ensures Grew(net, Wait(net, s, polls, time).net, s, token, Arrived(polls))
    decreases |polls|
  {
    if time > 0 && s in net.handlers && polls != [] && polls[0].Ready? {
      var datagram, rest := polls[0].datagram, polls[0].rest;
      var next := ReceiveIn(net, datagram, rest);
      ReceiveGrows(net, datagram, rest, s, token);
      WaitCollects(next, s, token, polls[1..], time - polls[0].elapsedMs);
      GrewTwice(net, next, Wait(net, s, polls, time).net, s, token, MessagesIn(datagram, rest), Arrived(polls[1..]));
    } else {
      Stays(net, s, token, Arrived(polls));
      assert VectorOf(Retire(net, s), token) == VectorOf(net, token);
    }
  }

  function Elapsed(polls: seq<Poll>): nat {
    if polls == [] then 0 else (if polls[0].Ready? then polls[0].elapsedMs else 0) + Elapsed(polls[1..])
  }

  lemma {:induction false} FramedMessages(ms: seq<Message>)
    requires AllWhole(ms)
    ensures Framed(Flatten(ms))
  {
    if ms != [] {
      FramedMessages(ms[1..]);
      assert Whole(ms[0]) && Flatten(ms) == ms[0] + Flatten(ms[1..]);
      MessageFirst(ms[0], Flatten(ms[1..]));
    }
  }

  lemma GroupFramed(s: U32, group: seq<Message>, later: seq<Message>, parts: seq<Message>, done: Message)
    requires (forall m :: m in parts ==> IsPart(m, s)) && IsDone(done, s) && group + later == parts + [done]
    ensures Framed(Flatten(group))
  {
    forall i | 0 <= i < |group| ensures Whole(group[i]) {
      assert group[i] == (group + later)[i] == (parts + [done])[i];
      assert i < |parts| ==> parts[i] in parts;
    }
    FramedMessages(group);
  }

  /** A multipart reply, and polls that bring it in some grouping. */
  ghost predicate Brings(s: U32, parts: seq<Message>, done: Message, groups: seq<seq<Message>>, polls: seq<Poll>) {
    && (forall m :: m in parts ==> IsPart(m, s)) && IsDone(done, s)
    && Flatten(groups) == parts + [done]
    && |polls| == |groups|
    && forall i :: 0 <= i < |polls| ==> polls[i].Ready? && polls[i].datagram == Flatten(groups[i])
  }

  /** What one round of the wait does to such a reply. */
  lemma BringsRound(net: Net, s: U32, parts: seq<Message>, done: Message, groups: seq<seq<Message>>, polls: seq<Poll>)
    requires s != BROADCAST_SEQUENCE && s in net.handlers && Brings(s, parts, done, groups, polls)
    ensures groups != [] && polls != []
    ensures var group, later := groups[0], Flatten(groups[1..]);
            var next := ReceiveIn(net, polls[0].datagram, polls[0].rest);
            if later == [] then next == Retire(DeliverAll(net, s, parts), s)
            else && group <= parts && next == DeliverAll(net, s, group)
                 && Brings(s, parts[|group|..], done, groups[1..], polls[1..])
                 && DeliverAll(net, s, parts) == DeliverAll(next, s, parts[|group|..])
  {
    var group, later := groups[0], Flatten(groups[1..]);
    ReceiveGroup(net, s, group, later, parts, done);
    GroupFramed(s, group, later, parts, done);
    WithinDatagram(net, Flatten(group), polls[0].rest);
    if later != [] {
      var rest := parts[|group|..];
      DeliverAllAppend(net, s, group, rest);
      assert group + rest == parts;
    }
  }

  lemma {:induction false} WaitDelivers(net: Net, s: U32, parts: seq<Message>, done: Message,
                                        groups: seq<seq<Message>>, polls: seq<Poll>, time: int)
    requires s != BROADCAST_SEQUENCE && s in net.handlers && Brings(s, parts, done, groups, polls)
    requires Elapsed(polls) < time
    ensures Wait(net, s, polls, time) == Outcome(Retire(DeliverAll(net, s, parts), s), true)
    decreases |groups|
  {
    BringsRound(net, s, parts, done, groups, polls);
    if Flatten(groups[1..]) != [] {
      var rest, time' := parts[|groups[0]|..], time - polls[0].elapsedMs;
      WaitDelivers(DeliverAll(net, s, groups[0]), s, rest, done, groups[1..], polls[1..], time');
    }
  }

  lemma {:induction false} LastGroupShows(groups: seq<seq<Message>>)
    requires |groups| > 1 && groups[|groups| - 1] != []
    ensures Flatten(groups[1..]) != []
  {
    if |groups| > 2 {
      LastGroupShows(groups[1..]);
    } else {
      assert groups[1..] == [groups[1]];
      FlattenCons(groups[1], []);
    }
  }

  /** When the last datagram carries the end of the reply, time decides, and it is handled even if that is late. */
  lemma {:induction false} WaitLate(net: Net, s: U32, parts: seq<Message>, done: Message,
                                    groups: seq<seq<Message>>, polls: seq<Poll>, time: int)
    requires s != BROADCAST_SEQUENCE && s in net.handlers && Brings(s, parts, done, groups, polls)
    requires groups != [] && groups[|groups| - 1] != []
    ensures Wait(net, s, polls, time).ok <==> Elapsed(polls) < time
    ensures Elapsed(polls[..|polls| - 1]) < time ==>
              Wait(net, s, polls, time).net == Retire(DeliverAll(net, s, parts), s)
    decreases |groups|
  {
    BringsRound(net, s, parts, done, groups, polls);
    if |groups| > 1 {
      LastGroupShows(groups);
      var rest, time' := parts[|groups[0]|..], time - polls[0].elapsedMs;
      WaitLate(DeliverAll(net, s, groups[0]), s, rest, done, groups[1..], polls[1..], time');
      assert polls[..|polls| - 1][1..] == polls[1..][..|polls| - 2];
    } else {
      assert groups[1..] == [] && polls[1..] == [] && polls[..0] == [];
      RetireTwice(DeliverAll(net, s, parts), s);
    }
  }

  lemma RetireTwice(net: Net, s: int)
    ensures Retire(Retire(net, s), s) == Retire(net, s)
  {
    assert net.handlers - {s} - {s} == net.handlers - {s};
  }

  /**
   * A multipart reply in any grouping is returned complete, with success, when it arrives in time. When its end
   * comes in the last datagram the call succeeds exactly in that case; if only the handling of the last datagram took
   * too long the reply is complete and yet reported as failed.
   */
  lemma WaitMultipart(net: Net, s: U32, parts: seq<Message>, done: Message,
                      groups: seq<seq<Message>>, polls: seq<Poll>, time: int)
    requires s != BROADCAST_SEQUENCE && s in net.handlers && Brings(s, parts, done, groups, polls)
    ensures groups != []
    ensures Elapsed(polls) < time ==>
              Wait(net, s, polls, time).ok && Collected(net, Wait(net, s, polls, time).net, s, parts)
    ensures groups[|groups| - 1] != [] ==>
              && (Wait(net, s, polls, time).ok <==> Elapsed(polls) < time)
              && (Elapsed(polls[..|polls| - 1]) < time ==>
                    Collected(net, Wait(net, s, polls, time).net, s, parts))
  {
    BringsRound(net, s, parts, done, groups, polls);
    DeliveredIsCollected(net, s, parts);
    if Elapsed(polls) < time {
      WaitDelivers(net, s, parts, done, groups, polls, time);
    }
    if groups[|groups| - 1] != [] {
      WaitLate(net, s, parts, done, groups, polls, time);
    }
  }

  // ----- what each kind of message does, read off its header -----

  /** The length field is right, and generic messages and errors have room for what follows the netlink header. */
  predicate Complete(m: Message) {
    && |m| >= 16 && GetU32(m, 0) == |m|
    && (GetU16(m, 4) >= 16 || GetU16(m, 4) == 2 ==> |m| >= 20)
  }

  lemma CompleteIsWhole(m: Message)
    ensures Complete(m) <==> Whole(m)
  {
  }

  /** Bit 1 of the flags marks a part of a longer reply. */
  lemma MultiBit(m: Message)
    requires |m| >= 16
    ensures IsMulti(m) <==> BitSet(GetU16(m, 6), 1)
  {
    var f := GetU16(m, 6);
    assert BitSet(f, 1) == BitSet(f / 2, 0);
  }

  /** A broadcast is kept, whoever waits for what, and the datagram goes on. */
  lemma BroadcastHeard(net: Net, m: Message, rest: seq<Byte>)
    requires Complete(m) && GetU32(m, 8) == 0
    ensures Receive(net, m + rest) == Receive(net.(broadcasts := net.broadcasts + [m]), rest)
  {
    CompleteIsWhole(m);
    MessageFirst(m, rest);
  }

  /** Nobody waits for it: it and the rest of the datagram are lost. */
  lemma UnknownStops(net: Net, m: Message, rest: seq<Byte>)
    requires Complete(m) && GetU32(m, 8) != 0 && GetU32(m, 8) !in net.handlers
    ensures Receive(net, m + rest) == net
  {
    CompleteIsWhole(m);
    MessageFirst(m, rest);
  }

  /** NOOP (1), DONE (3) and OVERRUN (4) retire the handler and are not delivered; the rest of the datagram is lost. */
  lemma EndRetires(net: Net, m: Message, rest: seq<Byte>)
    requires Complete(m) && GetU32(m, 8) != 0 && GetU32(m, 8) in net.handlers
    requires GetU16(m, 4) == 1 || GetU16(m, 4) == 3 || GetU16(m, 4) == 4
    ensures Receive(net, m + rest) == net.(handlers := net.handlers - {GetU32(m, 8)})
  {
    CompleteIsWhole(m);
    MessageFirst(m, rest);
  }

  /** Any other message that somebody waits for. */
  predicate IsReply(net: Net, m: Message, s: U32) {
    && Complete(m) && GetU32(m, 8) == s && s != 0 && s in net.handlers
    && GetU16(m, 4) != 1 && GetU16(m, 4) != 3 && GetU16(m, 4) != 4
  }

  /** A reply on its own is delivered and retires its handler, and the datagram goes on. */
  lemma ReplyCollected(net: Net, m: Message, s: U32, rest: seq<Byte>)
    requires IsReply(net, m, s) && !BitSet(GetU16(m, 6), 1)
    ensures Collected(net, Receive(net, m), s, [m])
    ensures Receive(net, m + rest) == Receive(Receive(net, m), rest)
  {
    CompleteIsWhole(m);
    MultiBit(m);
    MessageFirst(m, rest);
    AloneInDatagram(net, m);
    assert DeliverAll(net, s, [m]) == DeliverAll(Deliver(net, s, m), s, [m][1..]);
    DeliveredIsCollected(net, s, [m]);
  }

  /** A part of a longer reply is delivered and its handler keeps waiting. */
  lemma PartCollected(net: Net, m: Message, s: U32, rest: seq<Byte>)
    requires IsReply(net, m, s) && BitSet(GetU16(m, 6), 1)
    ensures var after, token := Receive(net, m), net.handlers[s];
            && after.handlers == net.handlers && VectorOf(after, token) == VectorOf(net, token) + [m]
            && (forall t :: t != token ==> VectorOf(after, t) == VectorOf(net, t))
            && after.broadcasts == net.broadcasts
    ensures Receive(net, m + rest) == Receive(Receive(net, m), rest)
  {
    CompleteIsWhole(m);
    MultiBit(m);
    MessageFirst(m, rest);
    AloneInDatagram(net, m);
  }

  lemma AloneInDatagram(net: Net, m: Message)
    requires Whole(m)
    ensures Receive(net, m) == Handled(net, m).net
  {
    MessageFirst(m, []);
    assert m + [] == m;
    assert Receive(Handled(net, m).net, []) == Handled(net, m).net;
  }

  /** What is too short for its kind is dropped with the rest of the datagram. */
  lemma IncompleteIgnored(net: Net, d: seq<Byte>)
    requires |d| < 16 || GetU32(d, 0) < 16 || (GetU32(d, 0) < 20 && (GetU16(d, 4) >= 16 || GetU16(d, 4) == 2))
    ensures Receive(net, d) == net
  {
    if |d| >= 16 && 16 <= GetU32(d, 0) <= |d| {
      var n := GetU32(d, 0);
      var m := d[..n];
      assert MsgType(m) == MsgType(d);
    }
  }

  /** A message longer than its datagram is completed from the bytes behind it and is the last one handled. */
  lemma OverrunCompleted(net: Net, d: seq<Byte>, rest: seq<Byte>)
    requires |d| >= 16 && |d| < GetU32(d, 0) <= |d| + |rest|
    ensures ReceiveIn(net, d, rest) == Receive(net, (d + rest)[..GetU32(d, 0)])
  {
    var n := GetU32(d, 0);
    var m := (d + rest)[..n];
    assert m[0] == d[0] && m[1] == d[1] && m[2] == d[2] && m[3] == d[3];
    assert MsgLen(m) == n && m[..n] == m && m[n..] == [];
    if IsValidPacket(m) {
      AloneInDatagram(net, m);
    }
  }

  // ----- the outcome of a request -----

  predicate AllReady(polls: seq<Poll>) {
    forall i :: 0 <= i < |polls| ==> polls[i].Ready?
  }

  function ReceivedAll(net: Net, polls: seq<Poll>): Net
    requires AllReady(polls)
    decreases |polls|
  {
    if polls == [] then net else ReceivedAll(ReceiveIn(net, polls[0].datagram, polls[0].rest), polls[1..])
  }

  /** The first k reads retire the handler before the time is up. */
  ghost predicate AnsweredBy(net: Net, s: U32, polls: seq<Poll>, time: int, k: nat) {
    && k <= |polls| && AllReady(polls[..k]) && Elapsed(polls[..k]) < time
    && s !in ReceivedAll(net, polls[..k]).handlers
  }

  lemma AnsweredLater(net: Net, s: U32, polls: seq<Poll>, time: int, k: nat)
    requires polls != [] && polls[0].Ready? && k < |polls|
    ensures AnsweredBy(net, s, polls, time, k + 1) <==>
            AnsweredBy(ReceiveIn(net, polls[0].datagram, polls[0].rest), s, polls[1..], time - polls[0].elapsedMs, k)
  {
    var now, later := polls[..k + 1], polls[1..][..k];
    assert now[0] == polls[0] && now[1..] == later;
    assert AllReady(now) <==> AllReady(later) by {
      assert forall i :: 0 <= i < |later| ==> later[i] == now[i + 1];
    }
  }

  lemma NotAnswered(net: Net, s: U32, polls: seq<Poll>, time: int, k: nat)
    requires time <= 0 || (s in net.handlers && (polls == [] || !polls[0].Ready?))
    ensures !AnsweredBy(net, s, polls, time, k)
  {
    if 0 < k <= |polls| {
      assert polls[..k][0] == polls[0];
    }
  }

  /** The call succeeds exactly when some first reads, none of them failed, retire the handler before the time is up. */
  lemma {:induction false} WaitOkIff(net: Net, s: U32, polls: seq<Poll>, time: int)
    ensures Wait(net, s, polls, time).ok <==> exists k: nat :: AnsweredBy(net, s, polls, time, k)
    decreases |polls|
  {
    assert polls[..0] == [];
    if time > 0 && s !in net.handlers {
      assert AnsweredBy(net, s, polls, time, 0);
    } else if time > 0 && polls != [] && polls[0].Ready? {
      var next, time' := ReceiveIn(net, polls[0].datagram, polls[0].rest), time - polls[0].elapsedMs;
      WaitOkIff(next, s, polls[1..], time');
      if k: nat :| AnsweredBy(next, s, polls[1..], time', k) {
        AnsweredLater(net, s, polls, time, k);
      }
      if k: nat :| AnsweredBy(net, s, polls, time, k) {
        assert k > 0;
        AnsweredLater(net, s, polls, time, k - 1);
      }
    } else {
      forall k: nat ensures !AnsweredBy(net, s, polls, time, k) {
        NotAnswered(net, s, polls, time, k);
      }
    }
  }

  /** The wait goes on after k reads: none failed, the time is not up and the reply is not complete. */
  ghost predicate StillWaiting(net: Net, s: U32, polls: seq<Poll>, time: int, k: nat) {
    && k <= |polls| && AllReady(polls[..k]) && Elapsed(polls[..k]) < time
    && s in ReceivedAll(net, polls[..k]).handlers
  }

  lemma WaitingLater(net: Net, s: U32, polls: seq<Poll>, time: int, k: nat)
    requires polls != [] && polls[0].Ready? && k < |polls|
    ensures StillWaiting(net, s, polls, time, k + 1) <==>
            StillWaiting(ReceiveIn(net, polls[0].datagram, polls[0].rest), s, polls[1..], time - polls[0].elapsedMs, k)
    ensures AllReady(polls[1..][..k]) ==>
              && AllReady(polls[..k + 1])
              && ReceivedAll(net, polls[..k + 1])
                 == ReceivedAll(ReceiveIn(net, polls[0].datagram, polls[0].rest), polls[1..][..k])
  {
    var now, later := polls[..k + 1], polls[1..][..k];
    assert now[0] == polls[0] && now[1..] == later;
    assert AllReady(now) <==> AllReady(later) by {
      assert forall i :: 0 <= i < |later| ==> later[i] == now[i + 1];
    }
  }

  /**
   * The wait stops after the first k reads that leave it nothing to wait for, no time, or no further read; its effect
   * is that of those reads and the loss of its own handler, and nothing else.
   */
  lemma {:induction false} WaitStops(net: Net, s: U32, polls: seq<Poll>, time: int) returns (k: nat)
    ensures k <= |polls| && AllReady(polls[..k])
    ensures var after := ReceivedAll(net, polls[..k]);
            Wait(net, s, polls, time).net == after.(handlers := after.handlers - {s})
    ensures forall j :: 0 <= j < k ==> StillWaiting(net, s, polls, time, j)
    ensures StillWaiting(net, s, polls, time, k) ==> k == |polls| || !polls[k].Ready?
    decreases |polls|
  {
    k := 0;
    assert polls[..0] == [];
    if time > 0 && s in net.handlers && polls != [] && polls[0].Ready? {
      var next, time' := ReceiveIn(net, polls[0].datagram, polls[0].rest), time - polls[0].elapsedMs;
      var later := WaitStops(next, s, polls[1..], time');
      k := later + 1;
      WaitingLater(net, s, polls, time, later);
      forall j | 0 <= j < k ensures StillWaiting(net, s, polls, time, j) {
        if j > 0 {
          WaitingLater(net, s, polls, time, j - 1);
        }
      }
    } else {
      assert s !in net.handlers ==> net.handlers - {s} == net.handlers;
    }
  }

  lemma WaitOver(net: Net, s: U32, polls: seq<Poll>, time: int)
    requires time > 0 && s !in net.handlers
    ensures Wait(net, s, polls, time) == Outcome(net, true)
  {
  }

  /** A request answered by one message: the message is what the caller gets. */
  lemma SingleReply(net: Net, s: U32, token: nat, m: Message, rest: seq<Byte>, elapsed: nat, later: seq<Poll>)
    requires Complete(m) && GetU32(m, 8) == s != 0 && elapsed < 4000
    requires GetU16(m, 4) != 1 && GetU16(m, 4) != 3 && GetU16(m, 4) != 4 && !BitSet(GetU16(m, 6), 1)
    ensures var e := Exchange(net, s, token, [Ready(m, rest, elapsed)] + later);
            e.ok && VectorOf(e.net, token) == VectorOf(net, token) + [m] && e.net.handlers == net.handlers - {s}
  {
    var asked := net.(handlers := net.handlers[s := token]);
    var polls := [Ready(m, rest, elapsed)] + later;
    assert polls[1..] == later;
    CompleteIsWhole(m);
    assert Flatten([m]) == m + Flatten([m][1..]) == m;
    FramedMessages([m]);
    WithinDatagram(asked, m, rest);
    ReplyCollected(asked, m, s, []);
    var next := ReceiveIn(asked, m, rest);
    assert s in asked.handlers && asked.handlers[s] == token && s !in next.handlers;
    assert Exchange(net, s, token, polls) == Wait(asked, s, polls, 4000) == Wait(next, s, later, 4000 - elapsed);
    WaitOver(next, s, later, 4000 - elapsed);
    assert net.handlers[s := token] - {s} == net.handlers - {s};
  }

  /** With a vector of its own, such a reply acknowledges exactly when it is an error message with code 0. */
  lemma SingleAck(net: Net, s: U32, token: nat, m: Message, rest: seq<Byte>, elapsed: nat, later: seq<Poll>)
    requires Complete(m) && GetU32(m, 8) == s != 0 && elapsed < 4000 && token !in net.vectors
    requires GetU16(m, 4) != 1 && GetU16(m, 4) != 3 && GetU16(m, 4) != 4 && !BitSet(GetU16(m, 6), 1)
    ensures var e := Exchange(net, s, token, [Ready(m, rest, elapsed)] + later);
            && e.ok && VectorOf(e.net, token) == [m]
            && (IsAck(m) <==> GetU16(m, 4) == 2 && m[16] == 0 && m[17] == 0 && m[18] == 0 && m[19] == 0)
  {
    SingleReply(net, s, token, m, rest, elapsed, later);
    assert VectorOf(net, token) + [m] == [m];
  }

  // ----- the code -----

  class NetlinkManager {
    var sequenceNumber: U32
    var handlers: map<int, nat>
    var vectors: map<nat, seq<Message>>
    var broadcasts: seq<Message>

    ghost function View(): Net
      reads this
    {
      Net(handlers, vectors, broadcasts)
    }

    constructor ()
      ensures sequenceNumber == NthSequence(0) && View() == Net(map[], map[], [])
    {
      sequenceNumber, handlers, vectors, broadcasts := 0, map[], map[], [];
    }

    method GetSequenceNumber() returns (n: U32)
      modifies this`sequenceNumber
      ensures n == sequenceNumber == NextSequence(old(sequenceNumber)) != BROADCAST_SEQUENCE
    {
      sequenceNumber := (sequenceNumber + 1) % 0x1_0000_0000;
      if sequenceNumber == BROADCAST_SEQUENCE {
        sequenceNumber := sequenceNumber + 1;
      }
      return sequenceNumber;
    }

    /** What the loop does with one message; false means the rest of the datagram is dropped. */
    method HandleMessage(m: Message) returns (more: bool)
      requires IsValidPacket(m)
      modifies this`handlers, this`vectors, this`broadcasts
      ensures Step(View(), more) == Handled(old(View()), m)
    {
      var s := MsgSeq(m);
      if s == BROADCAST_SEQUENCE {
        broadcasts := broadcasts + [m];
        return true;
      }
      if s !in handlers {
        return false;
      }
      var messageType := MsgType(m);
      if messageType == NLMSG_DONE || messageType == NLMSG_NOOP {
        handlers := handlers - {s};
        return false;
      }
      if messageType == NLMSG_OVERRUN {
        handlers := handlers - {s};
        return false;
      }
      var token := handlers[s];
      vectors := vectors[token := (if token in vectors then vectors[token] else []) + [m]];
      if !IsMulti(m) {
        handlers := handlers - {s};
      }
      return true;
    }

    /** `rest` is what lies in the buffer behind the datagram. */
    method ReceivePacketAndRunHandler(datagram: seq<Byte>, rest: seq<Byte>)
      requires Held(datagram, rest)
      modifies this`handlers, this`vectors, this`broadcasts
      ensures View() == ReceiveIn(old(View()), datagram, rest)
    {
      var buffer := datagram + rest;
      var ptr, len := 0, |datagram|;
      ghost var goal, left := ReceiveIn(View(), datagram, rest), datagram;  // left is what lies at and after ptr
      while ptr < len
        invariant ptr <= len ==> left == datagram[ptr..] && InBuffer(left, rest)
        invariant ptr <= len ==> goal == ReceiveIn(View(), left, rest)
        invariant ptr > len ==> goal == View()
        decreases len - ptr
      {
        if ptr + NLMSG_HDRLEN > len {
          return;
        }
        SameHeader(datagram, rest, ptr);
        var size := MsgLen(buffer[ptr..]);
        if size < NLMSG_HDRLEN {  // too short to be a valid packet
          return;
        }
        SameMessage(datagram, rest, ptr, size);
        var packet := buffer[ptr..ptr + size];
        ptr := ptr + size;
        if !IsValidPacket(packet) {
          return;
        }
        var more := HandleMessage(packet);
        if !more {
          return;
        }
        left := if ptr <= len then left[size..] else [];
      }
    }

    /** Send a request and collect its replies into the vector named by `token`. */
    method SendMessageAndGetResponses(request: Message, sent: bool, token: nat, polls: seq<Poll>) returns (ok: bool)
      requires |request| >= NLMSG_HDRLEN
      requires forall p :: p in polls && p.Ready? ==> Held(p.datagram, p.rest)
      modifies this`handlers, this`vectors, this`broadcasts
      ensures !sent ==> !ok && View() == old(View())
      ensures sent ==> Outcome(View(), ok) == Exchange(old(View()), MsgSeq(request), token, polls)
      ensures sent ==> MsgSeq(request) !in handlers
      ensures sent && OwnedBy(old(View()), MsgSeq(request), token) ==>
                Grew(old(View()), View(), MsgSeq(request), token, Arrived(polls))
    {
      if !sent {
        return false;
      }
      var s := MsgSeq(request);
      handlers := handlers[s := token];
      WaitRetires(View(), s, polls, MAX_WAIT_MS);
      if OwnedBy(View(), s, token) {
        WaitCollects(View(), s, token, polls, MAX_WAIT_MS);
      }
      ok := WaitForReply(s, polls);
    }

    /** The poll loop. */
    method WaitForReply(s: U32, polls: seq<Poll>) returns (ok: bool)
      requires forall p :: p in polls && p.Ready? ==> Held(p.datagram, p.rest)
      modifies this`handlers, this`vectors, this`broadcasts
      ensures Outcome(View(), ok) == Wait(old(View()), s, polls, MAX_WAIT_MS)
    {
      var timeRemaining := MAX_WAIT_MS;
      var i := 0;
      assert polls[0..] == polls;
      while timeRemaining > 0 && s in handlers
        invariant i <= |polls|
        invariant Wait(old(View()), s, polls, MAX_WAIT_MS) == Wait(View(), s, polls[i..], timeRemaining)
        decreases |polls| - i
      {
        if i == |polls| || !polls[i].Ready? {  // time-out or poll error
          handlers := handlers - {s};
          return false;
        }
        assert polls[i] in polls && polls[i..][1..] == polls[i + 1..];
        ReceivePacketAndRunHandler(polls[i].datagram, polls[i].rest);
        timeRemaining := timeRemaining - polls[i].elapsedMs;
        i := i + 1;
      }
      if timeRemaining <= 0 {
        handlers := handlers - {s};
        return false;
      }
      return true;
    }

    method SendMessageAndGetSingleResponseOrError(request: Message, sent: bool, token: nat, polls: seq<Poll>)
      returns (response: Option<Message>)
      requires |request| >= NLMSG_HDRLEN
      requires token !in vectors && forall k :: k in handlers ==> handlers[k] != token
      requires forall p :: p in polls && p.Ready? ==> Held(p.datagram, p.rest)
      modifies this`handlers, this`vectors, this`broadcasts
      ensures var e := Exchange(old(View()), MsgSeq(request), token, polls);
              response == if sent && e.ok && |VectorOf(e.net, token)| == 1 then Some(VectorOf(e.net, token)[0])
                          else None
      ensures response.Some? ==>
                Whole(response.value) && MsgSeq(response.value) == MsgSeq(request)
                && IsSubsequence([response.value], Arrived(polls))
    {
      var ok := SendMessageAndGetResponses(request, sent, token, polls);
      var vector := if token in vectors then vectors[token] else [];
      if !ok || |vector| != 1 {
        return None;
      }
      assert vector[0..] == vector == [vector[0]];
      return Some(vector[0]);
    }

    /** True exactly when the exchange succeeds with one reply and that reply acknowledges. */
    method SendMessageAndGetAck(request: Message, sent: bool, token: nat, polls: seq<Poll>) returns (acked: bool)
      requires |request| >= NLMSG_HDRLEN
      requires token !in vectors && forall k :: k in handlers ==> handlers[k] != token
      requires forall p :: p in polls && p.Ready? ==> Held(p.datagram, p.rest)
      modifies this`handlers, this`vectors, this`broadcasts
      ensures var e := Exchange(old(View()), MsgSeq(request), token, polls);
              acked <==> sent && e.ok && exists m :: VectorOf(e.net, token) == [m] && IsAck(m)
    {
      var response := SendMessageAndGetSingleResponseOrError(request, sent, token, polls);
      if response.None? {
        return false;
      }
      ghost var e := Exchange(old(View()), MsgSeq(request), token, polls);
      assert VectorOf(e.net, token) == [response.value];
      if MsgType(response.value) != NLMSG_ERROR {
        return false;
      }
      return ErrorCode(response.value) == 0;
    }
  }

  /** A read that fills the receive buffer from its start. */
  predicate Held(datagram: seq<Byte>, rest: seq<Byte>) {
    |datagram| + |rest| == RECEIVE_BUFFER_SIZE && InBuffer(datagram, rest)
  }

  lemma SameHeader(d: seq<Byte>, rest: seq<Byte>, ptr: nat)
    requires ptr + NLMSG_HDRLEN <= |d|
    ensures MsgLen((d + rest)[ptr..]) == MsgLen(d[ptr..])
  {
    assert (d + rest)[ptr..] == d[ptr..] + rest;
  }

  lemma SameMessage(d: seq<Byte>, rest: seq<Byte>, ptr: nat, size: nat)
    requires ptr <= |d| && ptr + size <= |d| + |rest|
    ensures (d + rest)[ptr..ptr + size] == (d[ptr..] + rest)[..size]
    ensures ptr + size <= |d| ==> d[ptr..][size..] == d[ptr + size..]
  {
  }

  predicate IsAck(m: Message) {
    |m| >= HDRLEN && MsgType(m) == NLMSG_ERROR && ErrorCode(m) == 0
  }
}
