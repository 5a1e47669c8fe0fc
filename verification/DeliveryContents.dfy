/** What the endpoints write (Threads/ThreadDataFrames.cpp, Frames/DataFramesPackets.cpp): every packet of every
    run, with its contents, told by the moves and not by the operations. */
module DeliveryContents {
  import opened Bytes
  import opened Packets
  import opened DeliveryProtocol
  import opened DeliveryTheorems
  import opened DeliveryLimits
  import opened DeliveryPacing

  // ---------- one operation ----------

  /** Only connecting and disconnecting change whether a side is connected; a side that is not writes nothing; and
      whatever is written, of whatever kind, is the last transmission from then on, as connecting is. */
  lemma {:induction false} TransmissionsAreTimed(e: Endpoint, action: Action)
    requires e.Valid()
    ensures var out := Perform(e, action);
      && (out.endpoint.connected <==> action.Up? || (e.connected && !action.Down?))
      && (out.sent != [] ==> e.connected && |out.sent| == 1 && !action.Reset? && !action.Up? && !action.Down?
                             && out.endpoint.lastSent == action.now)
      && (out.sent == [] ==> out.endpoint.lastSent == if action.Up? then action.now else e.lastSent)
  {
    hide Select;
  }

  /** A frame that does not wait for a ticket in a queue, because it needs none or because there is no queue, is one
      packet with its own bytes, of the type it asks for, under the next id; nothing is queued. */
  lemma {:induction false} SentAtOnceAsItIs(e: Endpoint, needsTicket: bool, payload: ByteArray, now: int)
    requires e.Valid() && (needsTicket ==> !e.useQueue)
    ensures var out := SendFrame(e, needsTicket, payload, now);
      && out.endpoint.queue == e.queue && out.endpoint.hasCurrent == e.hasCurrent && out.removed == []
      && out.endpoint.counter == NextId(e.counter)
      && |out.sent| == (if e.connected then 1 else 0)
      && forall p <- out.sent ::
           p.payload == payload && p.packetId == NextId(e.counter)
           && (p.packetType.NeedsTicket? <==> needsTicket) && (p.packetType.WithoutTicket? <==> !needsTicket)
  {
  }

  // ---------- everything a side wrote ----------

  /** The packets a side wrote in a run, in order, each as often as it was written. */
  function Outbox(moves: seq<Move>, atA: bool): seq<Packet> {
    if moves == [] then []
    else
      var before, last := moves[..|moves| - 1], moves[|moves| - 1];
      Outbox(before, atA) + Written(before, last, atA)
  }

  function OfType(packets: seq<Packet>, t: PacketType): (some: seq<Packet>)
    ensures forall p <- some :: p in packets && p.packetType == t
  {
    if packets == [] then []
    else (if packets[0].packetType == t then [packets[0]] else []) + OfType(packets[1..], t)
  }

  lemma {:induction false} OfTypeAppend(a: seq<Packet>, b: seq<Packet>, t: PacketType)
    ensures OfType(a + b, t) == OfType(a, t) + OfType(b, t)
  {
    if a == [] {
      assert a + b == b;
    } else {
      assert (a + b)[1..] == a[1..] + b;
      OfTypeAppend(a[1..], b, t);
    }
  }

  /** What a move says that its side should write: the payload of a frame without ticket, if it is sent while connected,
      and the id of a data packet delivered then. */
  function Direct(action: Action, connected: bool): seq<ByteArray> {
    if action.Send? && !action.needsTicket && connected then [action.payload] else []
  }

  function Heard(action: Action, connected: bool): seq<uint32> {
    if action.Deliver? && !action.packet.packetType.Ticket? && connected then [action.packet.packetId] else []
  }

  function DirectPayloads(moves: seq<Move>, atA: bool): seq<ByteArray> {
    if moves == [] then []
    else
      var before, last := moves[..|moves| - 1], moves[|moves| - 1];
      DirectPayloads(before, atA) + if last.atA == atA then Direct(last.action, IsConnected(before, atA)) else []
  }

  function HeardIds(moves: seq<Move>, atA: bool): seq<uint32> {
    if moves == [] then []
    else
      var before, last := moves[..|moves| - 1], moves[|moves| - 1];
      HeardIds(before, atA) + if last.atA == atA then Heard(last.action, IsConnected(before, atA)) else []
  }

  /** Whether the last of its moves that connected or disconnected a side connected it. */
  predicate IsConnected(moves: seq<Move>, atA: bool) {
    moves != [] &&
    var before, last := moves[..|moves| - 1], moves[|moves| - 1];
    if last.atA == atA && last.action.Up? then true
    else if last.atA == atA && last.action.Down? then false
    else IsConnected(before, atA)
  }

  function AsTickets(ids: seq<uint32>): seq<ByteArray> {
    seq(|ids|, i requires 0 <= i < |ids| => Le32(ids[i]))
  }

  lemma SendWrites(e: Endpoint, needsTicket: bool, payload: ByteArray, now: int)
    requires SenderWindow(e)
    ensures var sent := SendFrame(e, needsTicket, payload, now).sent;
      && Payloads(OfType(sent, Ticket)) == []
      && Payloads(OfType(sent, WithoutTicket)) == if !needsTicket && e.connected then [payload] else []
  {
    hide ProcessQueue, OfType, Payloads;
    var sent := SendFrame(e, needsTicket, payload, now).sent;
    NothingOfType();
    if needsTicket && e.useQueue {
      var packet := Packet(NeedsTicket, PACKET_ID_EMPTY, payload, |e.accepted|);
      var longer := e.(queue := e.queue + [packet], accepted := e.accepted + [payload]);
      ProcessQueueKeepsWindow(longer, now);
      OnlyQueuedKind(sent);
    } else {
      SentAtOnceAsItIs(e, needsTicket, payload, now);
      OneKind(sent);
      if sent != [] {
        PayloadOfOne(sent[0]);
        assert [sent[0]] == sent;
      }
    }
  }

  lemma PayloadOfOne(p: Packet)
    ensures Payloads([p]) == [p.payload]
  {
  }

  lemma DeliverWrites(e: Endpoint, p: Packet, now: int)
    requires SenderWindow(e) && WellNumbered(p)
    ensures var sent := Receive(e, p, now).sent;
      && Payloads(OfType(sent, WithoutTicket)) == []
      && Payloads(OfType(sent, Ticket)) == if !p.packetType.Ticket? && e.connected then [Le32(p.packetId)] else []
  {
    hide ApplyTicket, OfType, Payloads, Le32, FromLe32;
    var sent := Receive(e, p, now).sent;
    NothingOfType();
    if p.packetType.Ticket? {
      TicketWritesQueuedKind(e, p, now);
      OnlyQueuedKind(sent);
    } else {
      OneKind(sent);
      if sent != [] {
        PayloadOfOne(sent[0]);
        assert [sent[0]] == sent;
      }
    }
  }

  /** What one operation writes of the two kinds that are not queued. */
  lemma WrittenByType(me: Half, action: Action)
    requires WindowInv(me) && CanAct(me, action)
    ensures var sent := Perform(me.end, action).sent;
      && Payloads(OfType(sent, WithoutTicket)) == Direct(action, me.end.connected)
      && Payloads(OfType(sent, Ticket)) == AsTickets(Heard(action, me.end.connected))
  {
    hide Le32, SendFrame, Receive, ProcessQueue, OfType, Payloads, AsTickets;
    NothingOfType();
    match action {
      case Send(needsTicket, payload, now) => SendWrites(me.end, needsTicket, payload, now);
      case Deliver(p, now) =>
        DeliverWrites(me.end, p, now);
        OneTicket(p.packetId);
      case Tick(now) =>
        ProcessQueueKeepsWindow(me.end, now);
        OnlyQueuedKind(Perform(me.end, action).sent);
      case Reset =>
      case Up(_) =>
      case Down =>
    }
  }

  lemma OneTicket(id: uint32)
    ensures AsTickets([id]) == [Le32(id)]
  {
  }

  lemma {:induction false} OnlyQueuedKind(sent: seq<Packet>)
    requires forall p <- sent :: p.packetType.NeedsTicket?
    ensures OfType(sent, WithoutTicket) == [] && OfType(sent, Ticket) == [] && OfType(sent, NeedsTicket) == sent
  {
    if sent != [] {
      OnlyQueuedKind(sent[1..]);
    }
  }

  lemma OneKind(sent: seq<Packet>)
    requires |sent| <= 1
    ensures forall t :: OfType(sent, t) == if sent != [] && sent[0].packetType == t then sent else []
  {
    if sent != [] {
      assert sent[1..] == [] && [sent[0]] == sent;
    }
  }

  lemma TicketWritesQueuedKind(e: Endpoint, t: Packet, now: int)
    requires SenderWindow(e) && t.packetType.Ticket? && WellNumbered(t)
    ensures forall p <- Receive(e, t, now).sent :: p.packetType.NeedsTicket?
  {
    hide FromLe32;
    var id := FromLe32(t.payload);
    assert t.payload[..4] == t.payload;
    var e1 := e.(expectedId := IdAfter(t.packetId));
    TicketMatchesHeadOnly(e1, id);
    if e1.hasCurrent && e1.queue[0].packetId == id {
      ProcessQueueKeepsWindow(e1.(queue := e1.queue[1..], hasCurrent := false), now);
    }
  }

  lemma PayloadsAppend(a: seq<Packet>, b: seq<Packet>)
    ensures Payloads(a + b) == Payloads(a) + Payloads(b)
  {
  }

  lemma AsTicketsAppend(a: seq<uint32>, b: seq<uint32>)
    ensures AsTickets(a + b) == AsTickets(a) + AsTickets(b)
  {
    hide Le32;
  }

  lemma {:induction false} ConnectedAsMoved(moves: seq<Move>, atA: bool)
    ensures Run(moves).Some? ==> Side(Run(moves).value, atA).end.connected == IsConnected(moves, atA)
  {
    hide Perform;
    if moves != [] && Run(moves).Some? {
      var before, last := moves[..|moves| - 1], moves[|moves| - 1];
      ConnectedAsMoved(before, atA);
      TransmissionsAreTimed(Actor(Run(before).value, last).end, last.action);
    }
  }

  /** What was ever written towards a side is what its peer wrote. */
  lemma {:induction false} InboxIsOutbox(moves: seq<Move>, atA: bool)
    ensures Run(moves).Some? ==>
      forall p :: p in Side(Run(moves).value, !atA).inbox <==> p in Outbox(moves, atA)
  {
    hide Perform;
    if moves != [] && Run(moves).Some? {
      InboxIsOutbox(moves[..|moves| - 1], atA);
    }
  }

  /** In every run: the frames sent without ticket while connected are written, one packet each, with exactly their
      bytes, in the order of sending; and exactly the data packets delivered while connected are answered, each time
      and in that order, with a ticket that carries their id. */
  lemma {:induction false} WrittenAsMoved(moves: seq<Move>, atA: bool)
    ensures Run(moves).Some? ==>
      && Payloads(OfType(Outbox(moves, atA), WithoutTicket)) == DirectPayloads(moves, atA)
      && Payloads(OfType(Outbox(moves, atA), Ticket)) == AsTickets(HeardIds(moves, atA))
  {
    hide Perform, OfType, AsTickets, Payloads, Direct, Heard;
    if moves == [] {
      NothingOfType();
    } else if Run(moves).Some? {
      var before, last := moves[..|moves| - 1], moves[|moves| - 1];
      var s := Run(before).value;
      WrittenAsMoved(before, atA);
      WindowOnEveryRun(before);
      ConnectedAsMoved(before, atA);
      var (sent, connected) := (Written(before, last, atA), IsConnected(before, atA));
      OfTypeAppend(Outbox(before, atA), sent, WithoutTicket);
      OfTypeAppend(Outbox(before, atA), sent, Ticket);
      PayloadsAppend(OfType(Outbox(before, atA), WithoutTicket), OfType(sent, WithoutTicket));
      PayloadsAppend(OfType(Outbox(before, atA), Ticket), OfType(sent, Ticket));
      AsTicketsAppend(HeardIds(before, atA), if last.atA == atA then Heard(last.action, connected) else []);
      NothingOfType();
      if last.atA == atA {
        WrittenByType(Side(s, atA), last.action);
      }
    }
  }

  lemma NothingOfType()
    ensures forall t :: OfType([], t) == []
    ensures Payloads([]) == [] && AsTickets([]) == []
  {
  }

  ghost predicate Ascending(packets: seq<Packet>) {
    forall i, j :: 0 <= i < j < |packets| ==> packets[i].packetId < packets[j].packetId
  }

  /** While the ids are fresh, no two of them go under the same id. */
  lemma {:induction false} DirectIdsAscend(moves: seq<Move>, atA: bool)
    ensures Run(moves).Some? && IdsFresh(Run(moves).value) ==> Ascending(OfType(Outbox(moves, atA), WithoutTicket))
  {
    hide Perform, OfType, Inv, Written, Run;
    if moves == [] {
      NothingOfType();
    } else if Run(moves).Some? && IdsFresh(Run(moves).value) {
      var before, last := moves[..|moves| - 1], moves[|moves| - 1];
      assert moves == before + [last];
      FreshBefore(before, last);
      DirectIdsAscend(before, atA);
      InboxIsOutbox(before, atA);
      OfTypeAppend(Outbox(before, atA), Written(before, last, atA), WithoutTicket);
      DirectIsNext(before, last, atA);
    }
  }

  lemma FreshBefore(moves: seq<Move>, m: Move)
    requires Run(moves + [m]).Some? && IdsFresh(Run(moves + [m]).value)
    ensures Run(moves).Some? && IdsFresh(Run(moves).value)
  {
    hide Perform;
    assert (moves + [m])[..|moves|] == moves;
    PerformDrawsIds(Actor(Run(moves).value, m).end, m.action);
  }

  /** A move writes at most one packet without ticket, under an id behind all that are in the network. */
  lemma DirectIsNext(moves: seq<Move>, m: Move, atA: bool)
    requires Run(moves + [m]).Some? && IdsFresh(Run(moves + [m]).value)
    ensures Run(moves).Some?
    ensures var direct := OfType(Written(moves, m, atA), WithoutTicket);
      |direct| <= 1
      && forall p, q :: p in direct && q in Side(Run(moves).value, !atA).inbox ==> q.packetId < p.packetId
  {
    hide Perform, OfType, SenderWindow, QueueIsTail, ReceiptsInOrder, TicketsEarned;
    FreshBefore(moves, m);
    assert (moves + [m])[..|moves|] == moves;
    InvOnEveryRun(moves);
    WindowOnEveryRun(moves);
    NothingOfType();
    if m.atA == atA {
      DirectIsFresh(Side(Run(moves).value, atA), m.action);
    }
  }

  lemma DirectIsFresh(me: Half, action: Action)
    requires WindowInv(me) && CanAct(me, action) && Perform(me.end, action).endpoint.generated < PACKET_ID_LIMIT
    requires me.end.counter == me.end.generated
    ensures var direct := OfType(Perform(me.end, action).sent, WithoutTicket);
      |direct| <= 1 && forall p <- direct :: p.packetId == me.end.counter + 1
  {
    hide OfType, Select;
    TransmissionsAreTimed(me.end, action);
    var sent := Perform(me.end, action).sent;
    OneKind(sent);
    if action.Deliver? && action.packet.packetType.Ticket? {
      TicketWritesQueuedKind(me.end, action.packet, action.now);
    }
  }

  // ---------- the next packet of a queue ----------

  /** The queue without the packet that left it, and with one that has come. */
  function WaitingAfter(e: Endpoint, action: Action): seq<Packet>
    requires e.Valid()
  {
    if Perform(e, action).removed != [] && e.queue != [] then e.queue[1..]
    else if action.Send? && action.needsTicket && e.useQueue
    then e.queue + [Packet(NeedsTicket, PACKET_ID_EMPTY, action.payload, |e.accepted|)]
    else e.queue
  }

  /** A packet becomes current: there was none, or the one there was has left. */
  predicate BecomesCurrent(e: Endpoint, action: Action)
    requires e.Valid()
  {
    var out := Perform(e, action);
    out.endpoint.hasCurrent && (!e.hasCurrent || out.removed != [])
  }

  /** It is numbered with the next id, and written at once if the side is connected. */
  ghost predicate StartsOff(e: Endpoint, action: Action)
    requires e.Valid()
  {
    var (out, waiting) := (Perform(e, action), WaitingAfter(e, action));
    && waiting != [] && out.endpoint.counter == NextId(e.counter)
    && out.endpoint.queue == [waiting[0].(packetId := NextId(e.counter))] + waiting[1..]
    && out.sent == if e.connected then [out.endpoint.queue[0]] else []
  }

  lemma ProcessQueueStartsOff(e: Endpoint, now: int)
    requires e.Valid() && !e.hasCurrent
    ensures var out := ProcessQueue(e, now);
      && (out.endpoint.hasCurrent <==> e.queue != [])
      && (e.queue == [] ==> out.sent == [] && out.endpoint.queue == [])
      && (e.queue != [] ==>
           && out.endpoint.counter == NextId(e.counter)
           && out.endpoint.queue == [e.queue[0].(packetId := NextId(e.counter))] + e.queue[1..]
           && out.sent == if e.connected then [out.endpoint.queue[0]] else [])
  {
  }

  /** Whenever a move comes to processQueue or takes a packet out of the queue, some packet is current afterwards unless
      the queue is empty, and one that has just become current is numbered and written by that very move. */
  lemma NextStartsOff(me: Half, action: Action)
    requires WindowInv(me) && me.end.useQueue && CanAct(me, action)
    ensures var out := Perform(me.end, action);
      && (TriesResend(action) || out.removed != [] ==> (out.endpoint.hasCurrent <==> out.endpoint.queue != []))
      && (BecomesCurrent(me.end, action) ==> StartsOff(me.end, action))
  {
    hide ProcessQueue, Select, FromLe32;
    var e := me.end;
    match action {
      case Send(needsTicket, payload, now) =>
        if needsTicket {
          var packet := Packet(NeedsTicket, PACKET_ID_EMPTY, payload, |e.accepted|);
          var longer := e.(queue := e.queue + [packet], accepted := e.accepted + [payload]);
          assert Perform(e, action) == ProcessQueue(longer, now);
          ProcessQueueRemovesNothing(longer, now);
          if e.hasCurrent {
            CurrentStays(longer, now);
          } else {
            ProcessQueueStartsOff(longer, now);
          }
        }
      case Deliver(p, now) =>
        if p.packetType.Ticket? {
          TicketStartsOff(e, p, now);
        }
      case Tick(now) =>
        ProcessQueueRemovesNothing(e, now);
        if e.hasCurrent {
          CurrentStays(e, now);
        } else {
          ProcessQueueStartsOff(e, now);
        }
      case Reset =>
      case Up(_) =>
      case Down =>
    }
  }

  lemma CurrentStays(e: Endpoint, now: int)
    requires e.Valid() && e.hasCurrent
    ensures var out := ProcessQueue(e, now); out.endpoint.hasCurrent && out.endpoint.queue == e.queue
  {
  }

  lemma TicketStartsOff(e: Endpoint, t: Packet, now: int)
    requires SenderWindow(e) && e.useQueue && t.packetType.Ticket? && WellNumbered(t)
    ensures var (out, action) := (Receive(e, t, now), Deliver(t, now));
      && (out.removed != [] ==> (out.endpoint.hasCurrent <==> out.endpoint.queue != []))
      && (BecomesCurrent(e, action) ==> StartsOff(e, action))
  {
    hide ProcessQueue, Select, FromLe32;
    var id := FromLe32(t.payload);
    assert t.payload[..4] == t.payload;
    var e1 := e.(expectedId := IdAfter(t.packetId));
    TicketMatchesHeadOnly(e1, id);
    if e1.hasCurrent && e1.queue[0].packetId == id {
      ProcessQueueStartsOff(e1.(queue := e1.queue[1..], hasCurrent := false), now);
    }
  }

  /** In every run: a packet that becomes current, because the one before it was acknowledged, because it was queued
      on an idle side or because the queue was reset, is numbered and, on a connected side, written by that very move;
      and no move that removes a packet or comes to processQueue leaves a queue without a current packet. */
  lemma {:induction false} NextIsWrittenAtOnce(moves: seq<Move>, m: Move)
    requires Run(moves).Some? && Enabled(Run(moves).value, m)
    ensures var (e, out) := (Actor(Run(moves).value, m).end, Perform(Actor(Run(moves).value, m).end, m.action));
      && (TriesResend(m.action) || out.removed != [] ==> (out.endpoint.hasCurrent <==> out.endpoint.queue != []))
      && (BecomesCurrent(e, m.action) ==> StartsOff(e, m.action))
  {
    hide Run, Perform, BecomesCurrent, StartsOff;
    WindowOnEveryRun(moves);
    TailsOnEveryRun(moves);
    NextStartsOff(Actor(Run(moves).value, m), m.action);
  }

  predicate NeverResets(moves: seq<Move>, atA: bool) {
    forall m <- moves :: m.atA == atA ==> !m.action.Reset?
  }

  lemma StaysBusy(e: Endpoint, action: Action)
    requires e.Valid() && !action.Reset? && !TriesResend(action) && Perform(e, action).removed == []
    ensures Perform(e, action).endpoint.hasCurrent == e.hasCurrent && Perform(e, action).endpoint.queue == e.queue
  {
  }

  /** In every run without resets, a queue has a current packet iff it is not empty. */
  lemma {:induction false} QueueIsNeverIdle(moves: seq<Move>, atA: bool)
    ensures Run(moves).Some? && NeverResets(moves, atA) ==>
      var e := Side(Run(moves).value, atA).end; e.hasCurrent <==> e.queue != []
  {
    hide Perform;
    if moves != [] && Run(moves).Some? && NeverResets(moves, atA) {
      var before, last := moves[..|moves| - 1], moves[|moves| - 1];
      assert last in moves && forall m <- before :: m in moves;
      QueueIsNeverIdle(before, atA);
      NextIsWrittenAtOnce(before, last);
      if last.atA == atA {
        var e := Side(Run(before).value, atA).end;
        if !TriesResend(last.action) && Perform(e, last.action).removed == [] {
          StaysBusy(e, last.action);
        }
      }
    }
  }

  // ---------- reset ----------

  /** In every run a reset leaves no current packet and all queued packets unnumbered, with their bytes; and the next
      processQueue, at whatever time, writes the first of them under the next id if the side is connected. */
  lemma {:induction false} ResetStartsOver(moves: seq<Move>, atA: bool, now: int)
    requires Run(moves).Some?
    ensures var reset := moves + [Move(atA, Reset)];
      && Run(reset).Some?
      && var (e, e') := (Side(Run(moves).value, atA).end, Side(Run(reset).value, atA).end);
      && !e'.hasCurrent && |e'.queue| == |e.queue|
      && (forall i :: 0 <= i < |e.queue| ==> e'.queue[i] == e.queue[i].(packetId := PACKET_ID_EMPTY))
      && Written(moves, Move(atA, Reset), atA) == []
      && Written(reset, Move(atA, Tick(now)), atA)
         == if e.connected && e.queue != [] then [e.queue[0].(packetId := NextId(e.counter))] else []
  {
    hide ProcessQueue;
    var m := Move(atA, Reset);
    OnlyUnsentPacketsAreRefused(moves, m);
    assert (moves + [m])[..|moves|] == moves;
    WindowOnEveryRun(moves + [m]);
    TailsOnEveryRun(moves + [m]);
    ProcessQueueStartsOff(Side(Run(moves + [m]).value, atA).end, now);
  }

  // ---------- gaps in the ids ----------

  /** The id of the last packet a side received since it last connected. */
  function LastHeard(moves: seq<Move>, atA: bool): Option<uint32> {
    if moves == [] then None
    else
      var before, last := moves[..|moves| - 1], moves[|moves| - 1];
      if last.atA == atA && last.action.Up? then None
      else if last.atA == atA && last.action.Deliver? then Some(last.action.packet.packetId)
      else LastHeard(before, atA)
  }

  lemma ExpectedAfter(e: Endpoint, action: Action)
    requires e.Valid()
    ensures Perform(e, action).endpoint.expectedId ==
      if action.Up? then -1
      else if action.Deliver? then (action.packet.packetId + 1) % 0x1_0000_0000
      else e.expectedId
  {
    hide Select;
  }

  /** In every run a received packet is reported as a gap iff another one was received since connecting and its id
      is not the one before plus 1, in 32 bits. */
  lemma {:induction false} GapIffIdsJump(moves: seq<Move>, atA: bool, p: Packet)
    ensures Run(moves).Some? ==>
      (Gap(Side(Run(moves).value, atA).end, p)
       <==> LastHeard(moves, atA).Some? && p.packetId != (LastHeard(moves, atA).value + 1) % 0x1_0000_0000)
  {
    ExpectedAsHeard(moves, atA);
  }

  lemma {:induction false} ExpectedAsHeard(moves: seq<Move>, atA: bool)
    ensures Run(moves).Some? ==>
      Side(Run(moves).value, atA).end.expectedId
      == match LastHeard(moves, atA) case None => -1 case Some(id) => (id + 1) % 0x1_0000_0000
  {
    hide Perform;
    if moves != [] && Run(moves).Some? {
      var before, last := moves[..|moves| - 1], moves[|moves| - 1];
      ExpectedAsHeard(before, atA);
      ExpectedAfter(Actor(Run(before).value, last).end, last.action);
    }
  }
}
