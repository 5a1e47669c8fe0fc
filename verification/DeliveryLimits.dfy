/** What delivery does not guarantee, and that it never gets stuck: the id bound of DeliveryTheorems is tight, and a
    connected pair can always move the queue on. */
module DeliveryLimits {
  import opened Bytes
  import opened Packets
  import opened DeliveryProtocol
  import opened DeliveryTheorems

  /** A move that can be made extends a run; the two halves change as StepMine and StepPeer say. */
  lemma RunMove(moves: seq<Move>, m: Move) returns (moves': seq<Move>)
    requires Run(moves).Some? && CanAct(Actor(Run(moves).value, m), m.action)
    ensures moves' == moves + [m] && Run(moves').Some?
    ensures Side(Run(moves).value, m.atA).end.Valid()
    ensures Side(Run(moves').value, m.atA) == StepMine(Side(Run(moves).value, m.atA), m.action)
    ensures Side(Run(moves').value, !m.atA)
         == StepPeer(Side(Run(moves).value, m.atA), Side(Run(moves).value, !m.atA), m.action)
  {
    moves' := moves + [m];
    WindowOnEveryRun(moves);
    assert moves'[..|moves|] == moves;
  }

  // ---------- progress ----------

  /** The id under which the current head is on its way, or would be after the next processQueue. */
  lemma HeadIsWritten(e: Endpoint, now: int)
    requires SenderWindow(e) && e.useQueue && e.queue != [] && e.connected && e.lastSent + RESEND_DELAY < now
    ensures var out := ProcessQueue(e, now);
      && out.endpoint.hasCurrent && out.sent == [out.endpoint.queue[0]] && SenderWindow(out.endpoint)
      && out.endpoint.queue[0].serial == e.queue[0].serial
      && out.endpoint.connected && out.endpoint.useQueue
  {
  }

  /** A data packet is answered with a ticket that carries its id; the receiver's own queue stays. */
  lemma DataIsAnswered(e: Endpoint, p: Packet, now: int)
    requires e.Valid() && e.connected && !p.packetType.Ticket? && p.packetId != PACKET_ID_EMPTY
    ensures Receive(e, p, now).sent == [Packet(Ticket, NextId(e.counter), Le32(p.packetId), 0)]
    ensures Receive(e, p, now).removed == [] && SameQueue(e, Receive(e, p, now).endpoint)
  {
  }

  /** The ticket for the current packet removes it. */
  lemma TicketRemovesCurrent(e: Endpoint, t: Packet, now: int)
    requires SenderWindow(e) && e.useQueue && e.hasCurrent
    requires t.packetType.Ticket? && t.payload == Le32(e.queue[0].packetId)
    ensures var out := Receive(e, t, now);
      && out.removed == [e.queue[0]] && |out.endpoint.queue| == |e.queue| - 1
      && out.endpoint.connected == e.connected && out.endpoint.accepted == e.accepted
  {
    var e1 := e.(expectedId := IdAfter(t.packetId));
    assert t.payload[..4] == t.payload;
    Le32RoundTrip(e.queue[0].packetId);
    TicketMatchesHeadOnly(e1, e.queue[0].packetId);
    assert Receive(e, t, now) == ApplyTicket(e1, e.queue[0].packetId, now);
  }

  predicate SameQueue(e: Endpoint, e': Endpoint) {
    e'.connected == e.connected && e'.queue == e.queue && e'.accepted == e.accepted
  }

  /** The head of my queue has left it, acknowledged; the peer's queue is as it was. */
  ghost predicate HeadLeft(me: Half, me': Half, peer: Half, peer': Half)
    requires me.end.queue != []
  {
    && |me'.gone| == |me.gone| + 1 && me'.gone[|me.gone|].serial == me.end.queue[0].serial
    && |me'.end.queue| == |me.end.queue| - 1 && me'.end.accepted == me.end.accepted && me'.end.connected
    && SameQueue(peer.end, peer'.end)
  }

  /** Resend, deliver, deliver the ticket: seen from the two halves. */
  lemma HeadMakesItThere(me: Half, peer: Half, now: int) returns (head: Packet, ticket: Packet)
    requires SenderWindow(me.end) && me.end.useQueue && me.end.queue != [] && me.end.connected
    requires SenderWindow(peer.end) && peer.end.connected && me.end.lastSent + RESEND_DELAY < now
    ensures var me1, peer1 := StepMine(me, Tick(now)), StepPeer(me, peer, Tick(now));
      && me1.end.Valid() && peer1.end.Valid() && head in peer1.inbox
      && var me2, peer2 := StepPeer(peer1, me1, Deliver(head, now)), StepMine(peer1, Deliver(head, now));
      && me2.end.Valid() && ticket in me2.inbox
      && HeadLeft(me, StepMine(me2, Deliver(ticket, now)), peer, StepPeer(me2, peer2, Deliver(ticket, now)))
  {
    HeadIsWritten(me.end, now);
    var me1, peer1 := StepMine(me, Tick(now)), StepPeer(me, peer, Tick(now));
    head := me1.end.queue[0];
    DataIsAnswered(peer1.end, head, now);
    var me2 := StepPeer(peer1, me1, Deliver(head, now));
    ticket := Packet(Ticket, NextId(peer1.end.counter), Le32(head.packetId), 0);
    assert ticket in me2.inbox;
    TicketRemovesCurrent(me2.end, ticket, now);
    assert me1.gone == me.gone;
  }

  ghost predicate BothConnected(s: System) {
    s.a.end.connected && s.b.end.connected
  }

  /** In every reachable state with both sides connected, three moves suffice to get the head of a queue delivered and
      acknowledged: resend, deliver, deliver the ticket. */
  lemma {:induction false} HeadCanBeAcknowledged(moves: seq<Move>, atA: bool) returns (more: seq<Move>)
    requires Run(moves).Some? && BothConnected(Run(moves).value) && Side(Run(moves).value, atA).end.queue != []
    ensures |more| == 3 && Run(moves + more).Some?
    ensures var s, s' := Run(moves).value, Run(moves + more).value;
      HeadLeft(Side(s, atA), Side(s', atA), Side(s, !atA), Side(s', !atA))
  {
    hide Run, StepMine, StepPeer, SenderWindow, HeadLeft;
    WindowOnEveryRun(moves);
    TailsOnEveryRun(moves);
    var me, peer := Side(Run(moves).value, atA), Side(Run(moves).value, !atA);
    var now := me.end.lastSent + RESEND_DELAY + 1;
    var head, ticket := HeadMakesItThere(me, peer, now);
    var m1, m2, m3 := Move(atA, Tick(now)), Move(!atA, Deliver(head, now)), Move(atA, Deliver(ticket, now));
    var moves1 := RunMove(moves, m1);
    var moves2 := RunMove(moves1, m2);
    var moves3 := RunMove(moves2, m3);
    more := [m1, m2, m3];
    assert moves3 == moves + more;
  }

  /** One queue after the other: head by head. */
  lemma {:induction false} QueueCanBeEmptied(moves: seq<Move>, atA: bool) returns (more: seq<Move>)
    requires Run(moves).Some? && BothConnected(Run(moves).value)
    ensures |more| == 3 * |Side(Run(moves).value, atA).end.queue| && Run(moves + more).Some?
    ensures var s, s' := Run(moves).value, Run(moves + more).value;
      && BothConnected(s') && Side(s', atA).end.queue == [] && Side(s', atA).end.accepted == Side(s, atA).end.accepted
      && SameQueue(Side(s, !atA).end, Side(s', !atA).end)
    decreases |Side(Run(moves).value, atA).end.queue|
  {
    hide Run;
    if Side(Run(moves).value, atA).end.queue == [] {
      more := [];
      assert moves + more == moves;
    } else {
      var three := HeadCanBeAcknowledged(moves, atA);
      var rest := QueueCanBeEmptied(moves + three, atA);
      more := three + rest;
      assert moves + more == (moves + three) + rest;
    }
  }

  /** Connecting again changes neither queue. */
  lemma {:induction false} CanConnect(moves: seq<Move>) returns (more: seq<Move>)
    requires Run(moves).Some?
    ensures |more| == 2 && Run(moves + more).Some?
    ensures var s, s' := Run(moves).value, Run(moves + more).value;
      && BothConnected(s')
      && SameQueue(s.a.end.(connected := true), s'.a.end) && SameQueue(s.b.end.(connected := true), s'.b.end)
  {
    var moves1 := RunMove(moves, Move(true, Up(0)));
    var moves2 := RunMove(moves1, Move(false, Up(0)));
    more := [Move(true, Up(0)), Move(false, Up(0))];
    assert moves2 == moves + more;
    var s := Run(moves).value;
    assert s.a == Side(s, true) && s.b == Side(s, false);
  }

  /** Delivery never gets stuck: from every reachable state, whatever was lost on the way to it, some moves that queue
      nothing new bring both queues to an end, so that everything ever enqueued on either side is acknowledged; and
      unless the ids came round, the peer has then received exactly that, in order. */
  lemma {:induction false} EverythingCanStillArrive(moves: seq<Move>) returns (more: seq<Move>)
    requires Run(moves).Some?
    ensures var s := Run(moves).value;
      |more| == 2 + 3 * (|s.a.end.queue| + |s.b.end.queue|)
    ensures Run(moves + more).Some?
    ensures var s, s' := Run(moves).value, Run(moves + more).value;
      && s'.a.end.queue == [] && s'.b.end.queue == []
      && Payloads(s'.a.gone) == s'.a.end.accepted == s.a.end.accepted
      && Payloads(s'.b.gone) == s'.b.end.accepted == s.b.end.accepted
      && (IdsFresh(s') ==> Payloads(s'.b.got) == s.a.end.accepted && Payloads(s'.a.got) == s.b.end.accepted)
  {
    hide Run;
    var up := CanConnect(moves);
    var first := QueueCanBeEmptied(moves + up, true);
    var second := QueueCanBeEmptied(moves + up + first, false);
    more := up + first + second;
    assert moves + more == moves + up + first + second;
    NothingLost(moves + more);
    FirstReceiptsInOrder(moves + more);
    var s' := Run(moves + more).value;
    assert s'.a.gone + [] == s'.a.gone && s'.b.gone + [] == s'.b.gone;
  }

  // ---------- the bound on ids is tight ----------

  const FILLER := Move(true, Send(false, [], 0))

  /** Frames that need no ticket only draw ids. */
  lemma {:induction false} FillersDrawIds(moves: seq<Move>, n: nat)
    requires Run(moves).Some?
    requires var e := Run(moves).value.a.end; e.lastSent == 0 && e.counter + n < PACKET_ID_LIMIT
    ensures var s := Run(moves).value;
      var r := Run(moves + seq(n, _ => FILLER));
      r.Some? && r.value.a == s.a.(end := s.a.end.(counter := s.a.end.counter + n, generated := s.a.end.generated + n))
      && r.value.b.got == s.b.got && r.value.b.end == s.b.end
  {
    hide Run, StepMine, StepPeer;
    if n == 0 {
      assert moves + seq(0, _ => FILLER) == moves;
    } else {
      FillersDrawIds(moves, n - 1);
      var shorter := moves + seq(n - 1, _ => FILLER);
      WindowOnEveryRun(shorter);
      FillerStep(Side(Run(shorter).value, true), Side(Run(shorter).value, false));
      var longer := RunMove(shorter, FILLER);
      assert longer == moves + seq(n, _ => FILLER);
    }
  }

  lemma FillerStep(me: Half, peer: Half)
    requires me.end.Valid() && me.end.lastSent == 0 && me.end.counter + 1 < PACKET_ID_LIMIT
    ensures StepMine(me, FILLER.action)
         == me.(end := me.end.(counter := me.end.counter + 1, generated := me.end.generated + 1))
    ensures var peer' := StepPeer(me, peer, FILLER.action); peer'.got == peer.got && peer'.end == peer.end
  {
    assert me.gone + [] == me.gone;
  }

  /** The id after the largest one is 1 again. */
  lemma IdComesRound(e: Endpoint)
    requires e == Endpoint(true, true, [], false, PACKET_ID_LIMIT - 1, 0, 2, [[]], PACKET_ID_LIMIT - 1)
    ensures SendFrame(e, true, [], 0).endpoint
         == Endpoint(true, true, [Packet(NeedsTicket, 1, [], 1)], true, 1, 0, 2, [[], []], PACKET_ID_LIMIT)
    ensures SendFrame(e, true, [], 0).removed == []
  {
    var packet := Packet(NeedsTicket, PACKET_ID_EMPTY, [], 1);
    assert e.queue + [packet] == [packet];
    assert [packet.(packetId := 1)] + [packet][1..] == [Packet(NeedsTicket, 1, [], 1)];
    assert e.accepted + [[]] == [[], []];
  }

  /** A run after which the first id is in use again while its ticket is still in the network. */
  lemma FirstIdInUseAgain() returns (moves: seq<Move>)
    ensures Run(moves).Some?
    ensures Side(Run(moves).value, true).end
         == Endpoint(true, true, [Packet(NeedsTicket, 1, [], 1)], true, 1, 0, 2, [[], []], PACKET_ID_LIMIT)
    ensures Packet(Ticket, 1, Le32(1), 0) in Side(Run(moves).value, true).inbox
    ensures Side(Run(moves).value, false).got == [Packet(NeedsTicket, 1, [], 0)]
    ensures Side(Run(moves).value, false).end.generated == 1
  {
    var filled := AcknowledgeOneAndFill();
    IdComesRound(Side(Run(filled).value, true).end);
    moves := RunMove(filled, Move(true, Send(true, [], 0)));
  }

  lemma AcknowledgeOneAndFill() returns (moves: seq<Move>)
    ensures Run(moves).Some?
    ensures Side(Run(moves).value, true).end
         == Endpoint(true, true, [], false, PACKET_ID_LIMIT - 1, 0, 2, [[]], PACKET_ID_LIMIT - 1)
    ensures Packet(Ticket, 1, Le32(1), 0) in Side(Run(moves).value, true).inbox
    ensures Side(Run(moves).value, false).got == [Packet(NeedsTicket, 1, [], 0)]
    ensures Side(Run(moves).value, false).end.generated == 1
  {
    var opening := AcknowledgeOne();
    var fillers: nat :| fillers == PACKET_ID_LIMIT - 2;
    FillersDrawIds(opening, fillers);
    moves := opening + seq(fillers, _ => FILLER);
  }

  /** With one id more than NoFalseAcknowledgement allows, the generator comes round to an id whose ticket is still in
      the network, and that ticket removes a packet the peer has never seen. */
  lemma {:induction false} OneIdMoreBreaksIt() returns (moves: seq<Move>, m: Move)
    ensures m.atA && Run(moves).Some? && Enabled(Run(moves).value, m)
    ensures Run(moves).value.a.end.generated == PACKET_ID_LIMIT && Run(moves).value.b.end.generated == 1
    ensures var removed := Perform(Run(moves).value.a.end, m.action).removed;
      |removed| == 1 && !Seen(Run(moves).value.b.got, removed[0].serial)
  {
    moves := FirstIdInUseAgain();
    var ticket := Packet(Ticket, 1, Le32(1), 0);
    m := Move(true, Deliver(ticket, 0));
    WindowOnEveryRun(moves);
    StaleTicketStrikes(Side(Run(moves).value, true).end, ticket);
  }

  lemma StaleTicketStrikes(e: Endpoint, ticket: Packet)
    requires ticket == Packet(Ticket, 1, Le32(1), 0) && SenderWindow(e)
    requires e == Endpoint(true, true, [Packet(NeedsTicket, 1, [], 1)], true, 1, 0, 2, [[], []], PACKET_ID_LIMIT)
    ensures Receive(e, ticket, 0).removed == [Packet(NeedsTicket, 1, [], 1)]
  {
    TicketRemovesCurrent(e, ticket, 0);
  }

  const FIRST := Packet(NeedsTicket, 1, [], 0)

  /** Both sides have connected and the first packet is on its way. */
  function FirstSent(): System {
    System(Half(Endpoint(true, true, [FIRST], true, 1, 0, -1, [[]], 1), {}, [], []),
           Half(Endpoint(true, true, [], false, 0, 0, -1, [], 0), {FIRST}, [], []))
  }

  lemma SendFirst() returns (moves: seq<Move>)
    ensures Run(moves) == Some(FirstSent())
  {
    var m1, m2, m3 := Move(true, Up(0)), Move(false, Up(0)), Move(true, Send(true, [], 0));
    var moves1 := RunMove([], m1);
    var moves2 := RunMove(moves1, m2);
    moves := RunMove(moves2, m3);
    var s := Run(moves).value;
    assert Side(s, true) == FirstSent().a;
    assert Side(s, false) == FirstSent().b;
  }

  /** It makes its way there and back. */
  lemma AcknowledgeOne() returns (moves: seq<Move>)
    ensures Run(moves).Some?
    ensures var s := Run(moves).value;
      var ticket := Packet(Ticket, 1, Le32(1), 0);
      && s.a == Half(Endpoint(true, true, [], false, 1, 0, 2, [[]], 1), {ticket}, [], [FIRST])
      && s.b.got == [FIRST] && s.b.end.generated == 1
  {
    var ticket := Packet(Ticket, 1, Le32(1), 0);
    var sent := SendFirst();
    var answered := RunMove(sent, Move(false, Deliver(FIRST, 0)));
    var s := Run(answered).value;
    FirstIsAnswered(ticket);
    assert Side(s, true) == FirstSent().a.(inbox := {ticket});
    assert Side(s, false).got == [FIRST] && Side(s, false).end.generated == 1;
    moves := RunMove(answered, Move(true, Deliver(ticket, 0)));
    FirstIsAcknowledged(ticket);
  }

  lemma FirstIsAnswered(ticket: Packet)
    requires ticket == Packet(Ticket, 1, Le32(1), 0)
    ensures var (a, b) := (FirstSent().a, FirstSent().b);
      && StepPeer(b, a, Deliver(FIRST, 0)) == a.(inbox := {ticket})
      && StepMine(b, Deliver(FIRST, 0)).got == [FIRST] && StepMine(b, Deliver(FIRST, 0)).end.generated == 1
  {
    var b := FirstSent().b;
    assert Perform(b.end, Deliver(FIRST, 0)).sent == [ticket];
    assert Posted([ticket]) == {ticket};
    assert !Seen(b.got, 0);
    assert [] + [FIRST] == [FIRST];
  }

  lemma FirstIsAcknowledged(ticket: Packet)
    requires ticket == Packet(Ticket, 1, Le32(1), 0)
    ensures var a := FirstSent().a.(inbox := {ticket});
      StepMine(a, Deliver(ticket, 0)) == Half(Endpoint(true, true, [], false, 1, 0, 2, [[]], 1), {ticket}, [], [FIRST])
  {
    var a := FirstSent().a.(inbox := {ticket});
    var e := a.end.(expectedId := 2);
    Le32RoundTrip(1);
    assert ticket.payload[..4] == Le32(1);
    TicketMatchesHeadOnly(e, 1);
    assert Receive(a.end, ticket, 0) == ApplyTicket(e, 1, 0);
    assert [FIRST][1..] == [] && [] + [FIRST] == [FIRST];
  }
}
