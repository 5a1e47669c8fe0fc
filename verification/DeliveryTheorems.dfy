/** What ticketed delivery guarantees over every run of the two endpoints. */
module DeliveryTheorems {
  import opened Bytes
  import opened Packets
  import opened DeliveryProtocol

  /** Queued packets ask for tickets; either nothing is current and every queued id is 0, or the head is current and
      it alone carries an id. */
  ghost predicate SenderWindow(e: Endpoint) {
    && e.Valid()
    && (forall i :: 0 <= i < |e.queue| ==>
          e.queue[i].packetType.NeedsTicket? &&
          if i == 0 && e.hasCurrent then 1 <= e.queue[i].packetId < PACKET_ID_LIMIT
          else e.queue[i].packetId == PACKET_ID_EMPTY)
  }

  /** The packets list places `from`, `from + 1`, ... of the enqueue order. */
  ghost predicate InOrder(packets: seq<Packet>, from: nat, accepted: seq<ByteArray>) {
    && from + |packets| <= |accepted|
    && forall i :: 0 <= i < |packets| ==>
         packets[i].packetType.NeedsTicket? && packets[i].serial == from + i && packets[i].payload == accepted[from + i]
  }

  /** The queue is what was accepted and has not left yet. */
  ghost predicate QueueIsTail(me: Half) {
    && me.end.useQueue
    && |me.gone| + |me.end.queue| == |me.end.accepted|
    && InOrder(me.gone, 0, me.end.accepted)
    && InOrder(me.end.queue, |me.gone|, me.end.accepted)
  }

  /** Ids name packets: the network holds one packet per id, none newer than the queue head. */
  ghost predicate NetworkKnown(me: Half, inbox: set<Packet>) {
    && me.end.counter == me.end.generated
    && (forall p :: p in inbox ==> 1 <= p.packetId <= me.end.counter)
    && (forall p :: p in inbox && p.packetType.NeedsTicket? ==>
          p.serial <= |me.gone| && p.serial < |me.end.accepted| && p.payload == me.end.accepted[p.serial])
    && (forall p, q :: p in inbox && q in inbox && p.packetId == q.packetId ==> p == q)
    && (me.end.hasCurrent ==>
          && me.end.queue != []
          && 1 <= me.end.queue[0].packetId <= me.end.counter
          && forall p :: p in inbox && p.packetId == me.end.queue[0].packetId ==> p == me.end.queue[0])
  }

  /** First receipts come in enqueue order and run at most one packet ahead of the acknowledged ones. */
  ghost predicate ReceiptsInOrder(me: Half, got: seq<Packet>) {
    && InOrder(got, 0, me.end.accepted)
    && |me.gone| <= |got| <= |me.gone| + 1
  }

  /** A ticket on its way back names a packet that the peer has processed. */
  ghost predicate TicketEarned(t: Packet, peer: Half) {
    && |t.payload| == 4
    && exists p :: p in peer.inbox && p.packetId == FromLe32(t.payload)
         && (p.packetType.NeedsTicket? ==> p.serial < |peer.got|)
  }

  ghost predicate TicketsEarned(me: Half, peer: Half) {
    forall t :: t in me.inbox && t.packetType.Ticket? ==> TicketEarned(t, peer)
  }

  /** What holds of the packets that flow from `me` to `peer`. */
  ghost predicate Flow(me: Half, peer: Half) {
    && SenderWindow(me.end)
    && QueueIsTail(me)
    && NetworkKnown(me, peer.inbox)
    && ReceiptsInOrder(me, peer.got)
    && TicketsEarned(me, peer)
  }

  ghost predicate Inv(s: System) {
    Flow(s.a, s.b) && Flow(s.b, s.a)
  }

  /** Neither side has drawn so many ids that the generator came round. */
  ghost predicate IdsFresh(s: System) {
    s.a.end.generated < PACKET_ID_LIMIT && s.b.end.generated < PACKET_ID_LIMIT
  }

  // ---------- the sender's own operations ----------

  /** A ticket can only match the head: the other packets carry id 0. */
  lemma {:induction false} SelectNone(queue: seq<Packet>, id: uint32)
    requires forall i :: 0 <= i < |queue| ==> queue[i].packetId != id
    ensures Select(queue, id, true) == [] && Select(queue, id, false) == queue
  {
    if queue != [] {
      SelectNone(queue[1..], id);
    }
  }

  lemma TicketMatchesHeadOnly(e: Endpoint, id: uint32)
    requires SenderWindow(e) && id != PACKET_ID_EMPTY
    ensures if e.hasCurrent && e.queue[0].packetId == id
            then Select(e.queue, id, true) == [e.queue[0]] && Select(e.queue, id, false) == e.queue[1..]
            else Select(e.queue, id, true) == [] && Select(e.queue, id, false) == e.queue
  {
    if e.hasCurrent && e.queue[0].packetId == id {
      SelectNone(e.queue[1..], id);
    } else {
      SelectNone(e.queue, id);
    }
  }

  /** Writing the current packet, for the first time or again. */
  lemma HeadSent(me: Half, peer: Half)
    requires Flow(me, peer) && me.end.hasCurrent
    ensures Flow(me, peer.(inbox := peer.inbox + {me.end.queue[0]}))
  {
    var peer' := peer.(inbox := peer.inbox + {me.end.queue[0]});
    assert me.end.queue[0].serial == |me.gone|;
    TicketsStayEarned(me, peer, peer');
  }

  lemma TicketsStayEarned(me: Half, peer: Half, peer': Half)
    requires TicketsEarned(me, peer) && peer.inbox <= peer'.inbox && |peer.got| <= |peer'.got|
    ensures TicketsEarned(me, peer')
  {
    forall t | t in me.inbox && t.packetType.Ticket?
      ensures TicketEarned(t, peer')
    {
      assert TicketEarned(t, peer);
    }
  }

  function Numbered(e: Endpoint): Endpoint
    requires e.Valid() && e.queue != []
  {
    var drawn := DrawId(e);
    drawn.(queue := [e.queue[0].(packetId := drawn.counter)] + e.queue[1..], hasCurrent := true)
  }

  /** Numbering the head makes it current under an id the network has never seen. */
  lemma HeadNumbered(me: Half, peer: Half)
    requires Flow(me, peer) && !me.end.hasCurrent && me.end.queue != [] && me.end.generated + 1 < PACKET_ID_LIMIT
    ensures Flow(me.(end := Numbered(me.end)), peer)
  {
    var me' := me.(end := Numbered(me.end));
    assert InOrder(me'.end.queue, |me.gone|, me.end.accepted);
    assert TicketsEarned(me', peer);
  }

  /** Clocks, the connection and the expected id of the other direction do not matter to the flow. */
  lemma FlowIgnoresTheRest(me: Half, peer: Half, connected: bool, lastSent: int, expectedId: int)
    requires Flow(me, peer)
    ensures Flow(me.(end := me.end.(connected := connected, lastSent := lastSent, expectedId := expectedId)), peer)
  {
    var me' := me.(end := me.end.(connected := connected, lastSent := lastSent, expectedId := expectedId));
    assert SenderWindow(me'.end);
    assert QueueIsTail(me');
    assert NetworkKnown(me', peer.inbox);
    assert TicketsEarned(me', peer);
  }

  lemma HeadTransmitted(me: Half, peer: Half, now: int)
    requires Flow(me, peer) && me.end.hasCurrent
    ensures var out := Transmit(me.end, me.end.queue[0], now);
      Flow(me.(end := out.endpoint), peer.(inbox := peer.inbox + Posted(out.sent)))
  {
    if me.end.connected {
      var out := Transmit(me.end, me.end.queue[0], now);
      HeadSent(me, peer);
      var peer' := peer.(inbox := peer.inbox + {me.end.queue[0]});
      FlowIgnoresTheRest(me, peer', true, now, me.end.expectedId);
      assert Posted(out.sent) == {me.end.queue[0]};
    } else {
      NothingSent(peer);
    }
  }

  lemma NothingSent(peer: Half)
    ensures peer.(inbox := peer.inbox + Posted([])) == peer
  {
    assert peer.inbox + Posted([]) == peer.inbox;
  }

  /** processQueue draws at most one id, for the head, and writes nothing but the head. */
  lemma ProcessQueueKeepsFlow(me: Half, peer: Half, now: int)
    requires Flow(me, peer) && ProcessQueue(me.end, now).endpoint.generated < PACKET_ID_LIMIT
    ensures var out := ProcessQueue(me.end, now);
      Flow(me.(end := out.endpoint), peer.(inbox := peer.inbox + Posted(out.sent)))
  {
    NothingSent(peer);
    if me.end.hasCurrent {
      HeadTransmitted(me, peer, now);
    } else if me.end.queue != [] {
      HeadNumbered(me, peer);
      HeadTransmitted(me.(end := Numbered(me.end)), peer, now);
    }
  }

  /** A ticket in this side's inbox that matches its head proves that the peer processed the head. */
  lemma MatchingTicketWasEarned(me: Half, peer: Half, t: Packet)
    requires Flow(me, peer) && t in me.inbox && t.packetType.Ticket?
    ensures |t.payload| == 4 && FromLe32(t.payload) != PACKET_ID_EMPTY
    ensures me.end.hasCurrent && me.end.queue[0].packetId == FromLe32(t.payload) ==>
              |peer.got| == |me.gone| + 1 && peer.got[|me.gone|].serial == me.end.queue[0].serial
  {
    assert TicketEarned(t, peer);
  }

  /** Dropping a head that the peer has processed keeps the flow. */
  lemma HeadAcknowledged(me: Half, peer: Half)
    requires Flow(me, peer) && me.end.queue != [] && |peer.got| == |me.gone| + 1
    ensures Flow(me.(end := me.end.(queue := me.end.queue[1..], hasCurrent := false),
             gone := me.gone + [me.end.queue[0]]), peer)
  {
    var me' := me.(end := me.end.(queue := me.end.queue[1..], hasCurrent := false),
               gone := me.gone + [me.end.queue[0]]);
    assert InOrder(me'.gone, 0, me.end.accepted);
    assert InOrder(me'.end.queue, |me'.gone|, me.end.accepted);
    assert SenderWindow(me'.end);
    assert NetworkKnown(me', peer.inbox);
    assert TicketsEarned(me', peer);
  }

  /** Enqueueing a frame appends it to the enqueue order and to the queue. */
  lemma FrameQueued(me: Half, peer: Half, packet: Packet)
    requires Flow(me, peer)
    requires packet == Packet(NeedsTicket, PACKET_ID_EMPTY, packet.payload, |me.end.accepted|)
    ensures Flow(me.(end := me.end.(queue := me.end.queue + [packet],
                                    accepted := me.end.accepted + [packet.payload])), peer)
  {
    var me' := me.(end := me.end.(queue := me.end.queue + [packet], accepted := me.end.accepted + [packet.payload]));
    assert InOrder(me'.gone, 0, me'.end.accepted);
    assert InOrder(me'.end.queue, |me'.gone|, me'.end.accepted);
    assert InOrder(peer.got, 0, me'.end.accepted);
    assert SenderWindow(me'.end);
    assert NetworkKnown(me', peer.inbox);
    assert TicketsEarned(me', peer);
  }

  /** A frame or a ticket sent past the queue takes a fresh id. */
  lemma DirectTransmitted(me: Half, peer: Half, p: Packet, now: int)
    requires Flow(me, peer) && me.end.generated + 1 < PACKET_ID_LIMIT
    requires p.packetId == DrawId(me.end).counter && !p.packetType.NeedsTicket?
    ensures var out := Transmit(DrawId(me.end), p, now);
      Flow(me.(end := out.endpoint), peer.(inbox := peer.inbox + Posted(out.sent)))
  {
    var out := Transmit(DrawId(me.end), p, now);
    var me' := me.(end := out.endpoint);
    var peer' := peer.(inbox := peer.inbox + Posted(out.sent));
    assert peer'.inbox == peer.inbox || peer'.inbox == peer.inbox + {p};
    assert QueueIsTail(me');
    assert NetworkKnown(me', peer'.inbox);
    TicketsStayEarned(me, peer, peer');
  }

  lemma QueueReset(me: Half, peer: Half)
    requires Flow(me, peer)
    ensures Flow(me.(end := ResetQueue(me.end).endpoint), peer)
  {
    var me' := me.(end := ResetQueue(me.end).endpoint);
    assert InOrder(me'.end.queue, |me'.gone|, me'.end.accepted);
    assert SenderWindow(me'.end);
    assert TicketsEarned(me', peer);
  }

  /** The acting side and its peer after an operation, receipts aside. */
  ghost function Mine(me: Half, out: Outcome): Half {
    me.(end := out.endpoint, gone := me.gone + out.removed)
  }

  ghost function Peers(peer: Half, out: Outcome): Half {
    peer.(inbox := peer.inbox + Posted(out.sent))
  }

  lemma NothingHappened(me: Half, peer: Half, out: Outcome)
    requires out.sent == [] && out.removed == []
    ensures Mine(me, out) == me.(end := out.endpoint) && Peers(peer, out) == peer
  {
    NothingSent(peer);
    assert me.gone + [] == me.gone;
  }

  lemma ApplyTicketKeepsFlow(me: Half, peer: Half, id: uint32, now: int)
    requires Flow(me, peer) && id != PACKET_ID_EMPTY
    requires me.end.hasCurrent && me.end.queue[0].packetId == id ==> |peer.got| == |me.gone| + 1
    requires ApplyTicket(me.end, id, now).endpoint.generated < PACKET_ID_LIMIT
    ensures Flow(Mine(me, ApplyTicket(me.end, id, now)), Peers(peer, ApplyTicket(me.end, id, now)))
  {
    TicketMatchesHeadOnly(me.end, id);
    if me.end.hasCurrent && me.end.queue[0].packetId == id {
      HeadAcknowledged(me, peer);
      var dropped := me.end.(queue := me.end.queue[1..], hasCurrent := false);
      ProcessQueueKeepsFlow(me.(end := dropped, gone := me.gone + [me.end.queue[0]]), peer, now);
    } else {
      NothingHappened(me, peer, ApplyTicket(me.end, id, now));
    }
  }

  lemma ReceiveTicketKeepsFlow(me: Half, peer: Half, t: Packet, now: int)
    requires Flow(me, peer) && t in me.inbox && t.packetType.Ticket?
    requires Receive(me.end, t, now).endpoint.generated < PACKET_ID_LIMIT
    ensures Flow(Mine(me, Receive(me.end, t, now)), Peers(peer, Receive(me.end, t, now)))
  {
    MatchingTicketWasEarned(me, peer, t);
    var id := FromLe32(t.payload);
    assert FromLe32(t.payload[..4]) == id by {
      assert t.payload[..4] == t.payload;
    }
    var e1 := me.end.(expectedId := IdAfter(t.packetId));
    FlowIgnoresTheRest(me, peer, me.end.connected, me.end.lastSent, t.packetId + 1);
    assert Receive(me.end, t, now) == ApplyTicket(e1, id, now);
    ApplyTicketKeepsFlow(me.(end := e1), peer, id, now);
  }

  lemma ReceiveDataKeepsFlow(me: Half, peer: Half, p: Packet, now: int)
    requires Flow(me, peer) && p in me.inbox && !p.packetType.Ticket?
    requires Receive(me.end, p, now).endpoint.generated < PACKET_ID_LIMIT
    ensures Flow(Mine(me, Receive(me.end, p, now)), Peers(peer, Receive(me.end, p, now)))
  {
    var me1 := me.(end := me.end.(expectedId := IdAfter(p.packetId)));
    FlowIgnoresTheRest(me, peer, me.end.connected, me.end.lastSent, p.packetId + 1);
    if p.packetId == PACKET_ID_EMPTY {
      NothingHappened(me, peer, Receive(me.end, p, now));
    } else {
      DirectTransmitted(me1, peer, Packet(Ticket, DrawId(me1.end).counter, Le32(p.packetId), 0), now);
      assert me.gone + [] == me.gone;
    }
  }

  lemma SendFrameKeepsFlow(me: Half, peer: Half, needsTicket: bool, payload: ByteArray, now: int)
    requires Flow(me, peer) && SendFrame(me.end, needsTicket, payload, now).endpoint.generated < PACKET_ID_LIMIT
    ensures var out := SendFrame(me.end, needsTicket, payload, now); Flow(Mine(me, out), Peers(peer, out))
  {
    assert me.gone + [] == me.gone;
    if needsTicket {
      var packet := Packet(NeedsTicket, PACKET_ID_EMPTY, payload, |me.end.accepted|);
      var queued := me.end.(queue := me.end.queue + [packet], accepted := me.end.accepted + [payload]);
      FrameQueued(me, peer, packet);
      ProcessQueueKeepsFlow(me.(end := queued), peer, now);
    } else {
      DirectTransmitted(me, peer, Packet(WithoutTicket, DrawId(me.end).counter, payload, 0), now);
    }
  }

  lemma PerformKeepsFlow(me: Half, peer: Half, action: Action)
    requires Flow(me, peer) && CanAct(me, action)
    requires Perform(me.end, action).endpoint.generated < PACKET_ID_LIMIT
    ensures Flow(Mine(me, Perform(me.end, action)), Peers(peer, Perform(me.end, action)))
  {
    match action {
      case Send(needsTicket, payload, now) => SendFrameKeepsFlow(me, peer, needsTicket, payload, now);
      case Deliver(p, now) =>
        if p.packetType.Ticket? {
          ReceiveTicketKeepsFlow(me, peer, p, now);
        } else {
          ReceiveDataKeepsFlow(me, peer, p, now);
        }
      case Tick(now) =>
        ProcessQueueKeepsFlow(me, peer, now);
        assert me.gone + [] == me.gone;
      case Reset =>
        QueueReset(me, peer);
        NothingHappened(me, peer, ResetQueue(me.end));
      case Up(now) =>
        FlowIgnoresTheRest(me, peer, true, now, -1);
        NothingHappened(me, peer, Connect(me.end, now));
      case Down =>
        FlowIgnoresTheRest(me, peer, false, me.end.lastSent, me.end.expectedId);
        NothingHappened(me, peer, Disconnect(me.end));
    }
  }

  /** The acting side keeps the flow of its own packets. */
  lemma SenderKeepsFlow(me: Half, peer: Half, action: Action)
    requires Flow(me, peer) && CanAct(me, action)
    requires Perform(me.end, action).endpoint.generated < PACKET_ID_LIMIT
    ensures Flow(StepMine(me, action), StepPeer(me, peer, action))
  {
    PerformKeepsFlow(me, peer, action);
    GotOfSenderIsFree(Mine(me, Perform(me.end, action)), StepMine(me, action), StepPeer(me, peer, action));
  }

  lemma GotOfSenderIsFree(me: Half, me': Half, peer: Half)
    requires Flow(me, peer) && me' == me.(got := me'.got)
    ensures Flow(me', peer)
  {
    assert QueueIsTail(me') && NetworkKnown(me', peer.inbox) && TicketsEarned(me', peer);
  }

  /** Tickets are written only in answer to a data packet, and they carry its id. */
  lemma TicketsAnswer(me: Half, peer: Half, action: Action)
    requires Flow(me, peer)
    ensures forall t :: t in Perform(me.end, action).sent && t.packetType.Ticket? ==>
      action.Deliver? && !action.packet.packetType.Ticket? && t.payload == Le32(action.packet.packetId)
  {
    if action.Deliver? && action.packet.packetType.Ticket? && |action.packet.payload| >= 4 {
      TicketMatchesOnlyQueued(me.end, FromLe32(action.packet.payload[..4]));
    }
  }

  lemma {:induction false} SelectedAreQueued(queue: seq<Packet>, id: uint32, carrying: bool)
    requires forall i :: 0 <= i < |queue| ==> queue[i].packetType.NeedsTicket?
    ensures forall p :: p in Select(queue, id, carrying) ==> p.packetType.NeedsTicket?
  {
    if queue != [] {
      SelectedAreQueued(queue[1..], id, carrying);
    }
  }

  lemma TicketMatchesOnlyQueued(e: Endpoint, id: uint32)
    requires forall i :: 0 <= i < |e.queue| ==> e.queue[i].packetType.NeedsTicket?
    ensures forall p :: p in Select(e.queue, id, false) ==> p.packetType.NeedsTicket?
  {
    SelectedAreQueued(e.queue, id, false);
  }

  lemma SeenMeansBelow(got: seq<Packet>, accepted: seq<ByteArray>, serial: nat)
    requires InOrder(got, 0, accepted)
    ensures Seen(got, serial) <==> serial < |got|
  {
    if serial < |got| {
      assert got[serial].serial == serial;
    }
  }

  /** A packet received for the first time is the next one in enqueue order. */
  lemma FirstReceiptIsNext(sender: Half, receiver: Half, p: Packet)
    requires Flow(sender, receiver) && p in receiver.inbox && FirstReceipt(receiver.got, p)
    ensures p.serial == |receiver.got| == |sender.gone|
    ensures ReceiptsInOrder(sender, receiver.got + [p])
  {
    SeenMeansBelow(receiver.got, sender.end.accepted, p.serial);
  }

  /** The acting side, as a receiver, keeps the flow of its peer's packets. */
  lemma ReceiverKeepsFlow(me: Half, peer: Half, action: Action)
    requires Flow(me, peer) && Flow(peer, me) && CanAct(me, action)
    ensures Flow(StepPeer(me, peer, action), StepMine(me, action))
  {
    var out := Perform(me.end, action);
    var me' := StepMine(me, action);
    var peer' := StepPeer(me, peer, action);
    if action.Deliver? && FirstReceipt(me.got, action.packet) {
      FirstReceiptIsNext(peer, me, action.packet);
    }
    assert ReceiptsInOrder(peer', me'.got);
    TicketsAnswer(me, peer, action);
    forall t | t in peer'.inbox && t.packetType.Ticket?
      ensures TicketEarned(t, me')
    {
      if t in peer.inbox {
        assert TicketEarned(t, me);
      } else {
        var p := action.packet;
        Le32RoundTrip(p.packetId);
        assert p in me'.inbox;
      }
    }
  }

  // ---------- every run ----------

  lemma StepKeepsInv(s: System, m: Move)
    requires Inv(s) && Enabled(s, m) && IdsFresh(Step(s, m))
    ensures Inv(Step(s, m))
  {
    var (me, peer) := if m.atA then (s.a, s.b) else (s.b, s.a);
    SenderKeepsFlow(me, peer, m.action);
    ReceiverKeepsFlow(me, peer, m.action);
  }

  lemma PerformDrawsIds(e: Endpoint, action: Action)
    requires e.Valid()
    ensures e.generated <= Perform(e, action).endpoint.generated
  {
  }

  lemma StartKeepsInv()
    ensures Inv(Start())
  {
    var half := Start().a;
    assert SenderWindow(half.end) && QueueIsTail(half) && NetworkKnown(half, {}) && TicketsEarned(half, half);
  }

  lemma {:induction false} InvOnEveryRun(moves: seq<Move>)
    ensures Run(moves).Some? && IdsFresh(Run(moves).value) ==> Inv(Run(moves).value)
  {
    if moves == [] {
      StartKeepsInv();
    } else if Run(moves).Some? && IdsFresh(Run(moves).value) {
      var before, last := moves[..|moves| - 1], moves[|moves| - 1];
      var s := Run(before).value;
      PerformDrawsIds(if last.atA then s.a.end else s.b.end, last.action);
      InvOnEveryRun(before);
      StepKeepsInv(s, last);
    }
  }

  function Payloads(packets: seq<Packet>): seq<ByteArray> {
    seq(|packets|, i requires 0 <= i < |packets| => packets[i].payload)
  }

  function Side(s: System, atA: bool): Half {
    if atA then s.a else s.b
  }

  /** The half that acts in a move, and the other one. */
  function Actor(s: System, m: Move): Half {
    Side(s, m.atA)
  }

  function Other(s: System, m: Move): Half {
    Side(s, !m.atA)
  }

  /** What an operation removes: at most the head, on the word of a ticket for a packet the peer has processed. */
  ghost predicate RemovedOnEarnedTicket(me: Half, peer: Half, action: Action)
    requires me.end.Valid()
  {
    var removed := Perform(me.end, action).removed;
    removed != [] ==>
      && me.end.hasCurrent && removed == [me.end.queue[0]]
      && action.Deliver? && action.packet.packetType.Ticket?
      && action.packet.payload == Le32(me.end.queue[0].packetId)
      && exists i :: 0 <= i < |peer.got|
           && peer.got[i].serial == removed[0].serial && peer.got[i].payload == removed[0].payload
  }

  lemma FlowRemovesOnEarnedTicket(me: Half, peer: Half, action: Action)
    requires Flow(me, peer) && CanAct(me, action)
    ensures RemovedOnEarnedTicket(me, peer, action)
  {
    if action.Deliver? && action.packet.packetType.Ticket? {
      var t := action.packet;
      MatchingTicketWasEarned(me, peer, t);
      var id := FromLe32(t.payload);
      assert FromLe32(t.payload[..4]) == id by {
        assert t.payload[..4] == t.payload;
      }
      TicketMatchesHeadOnly(me.end, id);
      assert Le32(id) == t.payload by {
        Le32Inverse(t.payload);
      }
    }
  }

  /** The id a ticket names, when its payload is long enough for one. */
  function NamedId(t: Packet): uint32
    requires |t.payload| >= 4
  {
    FromLe32(t.payload[..4])
  }

  predicate Carried(queue: seq<Packet>, id: uint32) {
    exists i :: 0 <= i < |queue| && queue[i].packetId == id
  }

  lemma {:induction false} SelectEmptyIffNotCarried(queue: seq<Packet>, id: uint32)
    ensures Select(queue, id, true) == [] <==> !Carried(queue, id)
  {
    if queue == [] {
    } else if queue[0].packetId == id {
      assert Carried(queue, id);
    } else {
      SelectEmptyIffNotCarried(queue[1..], id);
      if Carried(queue, id) {
        var i :| 0 <= i < |queue| && queue[i].packetId == id;
        assert queue[1..][i - 1].packetId == id;
      }
    }
  }

  /** In any state at all, a ticket changes nothing but the expected id when its payload is shorter than an id, and
      otherwise iff no queued packet carries the id it names; it removes the packets that carry it, in order. */
  lemma {:induction false} StaleTicketChangesNothing(e: Endpoint, t: Packet, now: int)
    requires e.Valid() && t.packetType.Ticket?
    ensures var out := Receive(e, t, now);
      if |t.payload| < 4 then out == Outcome(e.(expectedId := IdAfter(t.packetId)), [], [])
      else
        && out.removed == Select(e.queue, NamedId(t), true)
        && (out.removed == [] <==> !Carried(e.queue, NamedId(t)))
        && (out.removed == [] ==> out == Outcome(e.(expectedId := IdAfter(t.packetId)), [], []))
  {
    if |t.payload| >= 4 {
      SelectEmptyIffNotCarried(e.queue, NamedId(t));
    }
  }

  /** The id 0 is carried by every packet that is not current, so a ticket that names it removes exactly these,
      sent or not. Only because no side of the protocol writes such a ticket are they safe. */
  lemma {:induction false} ZeroTicketRemovesAllButCurrent(e: Endpoint, t: Packet, now: int)
    requires SenderWindow(e) && t.packetType.Ticket? && |t.payload| >= 4 && NamedId(t) == PACKET_ID_EMPTY
    ensures Receive(e, t, now).removed == if e.hasCurrent then e.queue[1..] else e.queue
  {
    StaleTicketChangesNothing(e, t, now);
    if e.hasCurrent {
      AllCarry(e.queue[1..], PACKET_ID_EMPTY);
    } else {
      AllCarry(e.queue, PACKET_ID_EMPTY);
    }
  }

  lemma {:induction false} AllCarry(queue: seq<Packet>, id: uint32)
    requires forall i :: 0 <= i < |queue| ==> queue[i].packetId == id
    ensures Select(queue, id, true) == queue
  {
    if queue != [] {
      AllCarry(queue[1..], id);
    }
  }

  /** In a reachable state every ticket on its way names an id other than 0. */
  lemma {:induction false} NoZeroTicketsUnderway(moves: seq<Move>, t: Packet)
    ensures Run(moves).Some? && t in Run(moves).value.a.inbox + Run(moves).value.b.inbox && t.packetType.Ticket?
      ==> |t.payload| == 4 && NamedId(t) != PACKET_ID_EMPTY
  {
    hide Run;
    if Run(moves).Some? {
      WindowOnEveryRun(moves);
      assert |t.payload| == 4 ==> t.payload[..4] == t.payload;
    }
  }

  /** No false acknowledgement: whatever a move removes from the acting side's queue is its head, the move delivers a
      ticket that carries the head's id, and the peer has processed that very packet before. */
  lemma {:induction false} NoFalseAcknowledgement(moves: seq<Move>, m: Move)
    requires Run(moves).Some? && Enabled(Run(moves).value, m) && IdsFresh(Run(moves).value)
    ensures RemovedOnEarnedTicket(Actor(Run(moves).value, m), Other(Run(moves).value, m), m.action)
  {
    InvOnEveryRun(moves);
    FlowRemovesOnEarnedTicket(Actor(Run(moves).value, m), Other(Run(moves).value, m), m.action);
  }

  /** In-order first receipt: the first receipts at either side are a prefix of what its peer enqueued, and they
      number the acknowledged packets or one more. */
  lemma {:induction false} FirstReceiptsInOrder(moves: seq<Move>)
    ensures Run(moves).Some? && IdsFresh(Run(moves).value) ==>
      var s := Run(moves).value;
      && Payloads(s.b.got) <= s.a.end.accepted && |s.a.gone| <= |s.b.got| <= |s.a.gone| + 1
      && Payloads(s.a.got) <= s.b.end.accepted && |s.b.gone| <= |s.a.got| <= |s.b.gone| + 1
  {
    InvOnEveryRun(moves);
  }

  lemma QueueIsWhatRemains(me: Half)
    requires QueueIsTail(me)
    ensures Payloads(me.gone + me.end.queue) == me.end.accepted
  {
    var packets := Payloads(me.gone + me.end.queue);
    forall i | 0 <= i < |packets| ensures packets[i] == me.end.accepted[i] {
      if i >= |me.gone| {
        assert packets[i] == me.end.queue[i - |me.gone|].payload;
      }
    }
  }

  // ---------- what holds without any bound on the ids ----------

  /** No packet is written under id 0, and every ticket names an id other than 0. */
  ghost predicate WellNumbered(p: Packet) {
    && p.packetId != PACKET_ID_EMPTY
    && (p.packetType.Ticket? ==> |p.payload| == 4 && FromLe32(p.payload) != PACKET_ID_EMPTY)
  }

  ghost predicate WindowInv(me: Half) {
    SenderWindow(me.end) && forall p :: p in me.inbox ==> WellNumbered(p)
  }

  lemma ProcessQueueKeepsWindow(e: Endpoint, now: int)
    requires SenderWindow(e)
    ensures var out := ProcessQueue(e, now);
      SenderWindow(out.endpoint) && out.removed == []
      && forall p :: p in out.sent ==> p == out.endpoint.queue[0] && out.endpoint.hasCurrent
  {
  }

  ghost predicate WindowOutcome(e: Endpoint, out: Outcome) {
    && SenderWindow(out.endpoint)
    && (forall p :: p in out.sent ==> WellNumbered(p))
    && (out.removed == [] || (e.hasCurrent && e.queue != [] && out.removed == [e.queue[0]]))
  }

  lemma ReceiveTicketKeepsWindow(e: Endpoint, t: Packet, now: int)
    requires SenderWindow(e) && t.packetType.Ticket? && WellNumbered(t)
    ensures WindowOutcome(e, Receive(e, t, now))
  {
    var id := FromLe32(t.payload);
    assert FromLe32(t.payload[..4]) == id by {
      assert t.payload[..4] == t.payload;
    }
    var e1 := e.(expectedId := IdAfter(t.packetId));
    assert Receive(e, t, now) == ApplyTicket(e1, id, now);
    TicketMatchesHeadOnly(e1, id);
    if e1.hasCurrent && e1.queue[0].packetId == id {
      ProcessQueueKeepsWindow(e1.(queue := e1.queue[1..], hasCurrent := false), now);
    }
  }

  lemma SendFrameKeepsWindow(e: Endpoint, needsTicket: bool, payload: ByteArray, now: int)
    requires SenderWindow(e)
    ensures WindowOutcome(e, SendFrame(e, needsTicket, payload, now))
  {
    if e.useQueue && needsTicket {
      var packet := Packet(NeedsTicket, PACKET_ID_EMPTY, payload, |e.accepted|);
      ProcessQueueKeepsWindow(e.(queue := e.queue + [packet], accepted := e.accepted + [payload]), now);
    }
  }

  /** Any operation keeps the window, writes only numbered packets, and drops at most the head. */
  lemma PerformKeepsWindow(e: Endpoint, action: Action)
    requires SenderWindow(e) && (action.Deliver? ==> WellNumbered(action.packet))
    ensures WindowOutcome(e, Perform(e, action))
  {
    match action {
      case Send(needsTicket, payload, now) => SendFrameKeepsWindow(e, needsTicket, payload, now);
      case Deliver(p, now) =>
        if p.packetType.Ticket? {
          ReceiveTicketKeepsWindow(e, p, now);
        } else {
          Le32RoundTrip(p.packetId);
        }
      case Tick(now) => ProcessQueueKeepsWindow(e, now);
      case Reset =>
      case Up(_) =>
      case Down =>
    }
  }

  ghost predicate Window(s: System) {
    WindowInv(s.a) && WindowInv(s.b)
  }

  /** The sender window holds on every run, however many ids were drawn; so a move removes at most the head. */
  lemma {:induction false} WindowOnEveryRun(moves: seq<Move>)
    requires Run(moves).Some?
    ensures Window(Run(moves).value)
  {
    if moves != [] {
      var before, last := moves[..|moves| - 1], moves[|moves| - 1];
      var s := Run(before).value;
      WindowOnEveryRun(before);
      PerformKeepsWindow(Actor(s, last).end, last.action);
    }
  }

  lemma {:induction false} TicketRemovesAtMostTheHead(moves: seq<Move>, m: Move)
    requires Run(moves).Some? && Enabled(Run(moves).value, m)
    ensures var me := Actor(Run(moves).value, m);
      var removed := Perform(me.end, m.action).removed;
      removed == [] || (me.end.hasCurrent && removed == [me.end.queue[0]])
  {
    WindowOnEveryRun(moves);
    PerformKeepsWindow(Actor(Run(moves).value, m).end, m.action);
  }

  /** The guards of the model never get in the way: only delivering an unsent packet is impossible. */
  lemma {:induction false} OnlyUnsentPacketsAreRefused(moves: seq<Move>, m: Move)
    requires Run(moves).Some?
    ensures Run(moves + [m]).Some? <==> CanAct(Actor(Run(moves).value, m), m.action)
  {
    WindowOnEveryRun(moves);
    assert (moves + [m])[..|moves|] == moves;
  }

  lemma ProcessQueueKeepsTail(me: Half, now: int)
    requires SenderWindow(me.end) && QueueIsTail(me)
    ensures QueueIsTail(me.(end := ProcessQueue(me.end, now).endpoint))
  {
  }

  lemma ProcessQueueRemovesNothing(e: Endpoint, now: int)
    requires e.Valid()
    ensures ProcessQueue(e, now).removed == []
  {
  }

  lemma TicketKeepsTail(me: Half, t: Packet, now: int)
    requires SenderWindow(me.end) && QueueIsTail(me) && t.packetType.Ticket? && WellNumbered(t)
    ensures var out := Receive(me.end, t, now); QueueIsTail(me.(end := out.endpoint, gone := me.gone + out.removed))
  {
    hide Select, ProcessQueue, FromLe32;
    var id := FromLe32(t.payload);
    assert t.payload[..4] == t.payload;
    var e := me.end.(expectedId := IdAfter(t.packetId));
    TicketMatchesHeadOnly(e, id);
    ProcessQueueRemovesNothing(e.(queue := Select(e.queue, id, false), hasCurrent := false), now);
    if e.hasCurrent && e.queue[0].packetId == id {
      var rest := me.(end := e.(queue := e.queue[1..], hasCurrent := false), gone := me.gone + [e.queue[0]]);
      assert QueueIsTail(rest);
      ProcessQueueKeepsTail(rest, now);
    } else {
      assert me.gone + [] == me.gone;
    }
  }

  lemma SendKeepsTail(me: Half, needsTicket: bool, payload: ByteArray, now: int)
    requires SenderWindow(me.end) && QueueIsTail(me)
    ensures var out := SendFrame(me.end, needsTicket, payload, now);
      QueueIsTail(me.(end := out.endpoint, gone := me.gone + out.removed))
  {
    var e := me.end;
    if e.useQueue && needsTicket {
      var packet := Packet(NeedsTicket, PACKET_ID_EMPTY, payload, |e.accepted|);
      var longer := me.(end := e.(queue := e.queue + [packet], accepted := e.accepted + [payload]));
      assert QueueIsTail(longer);
      ProcessQueueKeepsTail(longer, now);
    }
    assert me.gone + [] == me.gone;
  }

  lemma StepKeepsTail(me: Half, action: Action)
    requires SenderWindow(me.end) && QueueIsTail(me) && (action.Deliver? ==> WellNumbered(action.packet))
    ensures QueueIsTail(StepMine(me, action))
  {
    assert me.gone + [] == me.gone;
    match action {
      case Send(needsTicket, payload, now) => SendKeepsTail(me, needsTicket, payload, now);
      case Deliver(p, now) =>
        if p.packetType.Ticket? {
          TicketKeepsTail(me, p, now);
        }
      case Tick(now) => ProcessQueueKeepsTail(me, now);
      case Reset =>
      case Up(_) =>
      case Down =>
    }
  }

  lemma {:induction false} TailsOnEveryRun(moves: seq<Move>)
    ensures Run(moves).Some? ==> QueueIsTail(Run(moves).value.a) && QueueIsTail(Run(moves).value.b)
  {
    if moves != [] && Run(moves).Some? {
      var before, last := moves[..|moves| - 1], moves[|moves| - 1];
      var s := Run(before).value;
      TailsOnEveryRun(before);
      WindowOnEveryRun(before);
      StepKeepsTail(Actor(s, last), last.action);
    }
  }

  /** Nothing is lost, however many ids were drawn: what left a queue followed by what is in it is what was enqueued. */
  lemma {:induction false} NothingLost(moves: seq<Move>)
    ensures Run(moves).Some? ==>
      var s := Run(moves).value;
      && Payloads(s.a.gone + s.a.end.queue) == s.a.end.accepted
      && Payloads(s.b.gone + s.b.end.queue) == s.b.end.accepted
  {
    TailsOnEveryRun(moves);
    if Run(moves).Some? {
      QueueIsWhatRemains(Run(moves).value.a);
      QueueIsWhatRemains(Run(moves).value.b);
    }
  }
}
