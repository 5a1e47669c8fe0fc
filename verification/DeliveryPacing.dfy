/** Resends and the time of the last transmission (Threads/ThreadDataFrames.cpp): any transmission puts the next resend
    off, so a packet that was lost can wait for as long as there is other traffic. */
module DeliveryPacing {
  import opened Bytes
  import opened Packets
  import opened DeliveryProtocol
  import opened DeliveryTheorems
  import opened DeliveryLimits

  // ---------- one operation ----------

  /** The operations that come to processQueue with a current packet in place. */
  predicate TriesResend(action: Action) {
    action.Tick? || (action.Send? && action.needsTicket)
  }

  /** The current packet stays current: no reset, and no ticket for it. */
  predicate KeepsCurrent(e: Endpoint, action: Action)
    requires e.Valid()
  {
    !action.Reset? && Perform(e, action).removed == []
  }

  /** processQueue is come to more than 2000 ms after the last transmission of whatever kind. */
  predicate Due(e: Endpoint, action: Action) {
    e.connected && TriesResend(action) && e.lastSent + 2000 < action.now
  }

  /** While it stays current, an operation writes the current packet, and nothing else, when a resend is due, and
      otherwise no packet that needs a ticket. */
  lemma {:induction false} ResentIffDue(e: Endpoint, action: Action)
    requires SenderWindow(e) && e.hasCurrent && KeepsCurrent(e, action)
    ensures var out := Perform(e, action);
      && out.endpoint.hasCurrent && out.endpoint.queue != [] && out.endpoint.queue[0] == e.queue[0]
      && (Due(e, action) ==> out.sent == [e.queue[0]])
      && (e.queue[0] in out.sent <==> Due(e, action))
      && (!Due(e, action) ==> forall p <- out.sent :: !p.packetType.NeedsTicket?)
  {
    match action {
      case Send(needsTicket, payload, now) =>
        if needsTicket {
          var packet := Packet(NeedsTicket, PACKET_ID_EMPTY, payload, |e.accepted|);
          assert (e.queue + [packet])[0] == e.queue[0];
        }
      case Deliver(p, now) => DeliveredQuietly(e, p, now);
      case Tick(_) =>
      case Reset =>
      case Up(_) =>
      case Down =>
    }
  }

  lemma DeliveredQuietly(e: Endpoint, p: Packet, now: int)
    requires SenderWindow(e) && e.hasCurrent && Receive(e, p, now).removed == []
    ensures var out := Receive(e, p, now);
      && out.endpoint.hasCurrent && out.endpoint.queue == e.queue
      && forall s <- out.sent :: s.packetType.Ticket?
  {
    if p.packetType.Ticket? {
      StaleTicketChangesNothing(e, p, now);
    }
  }

  // ---------- runs ----------

  function OnlyTicketed(packets: seq<Packet>): seq<Packet> {
    if packets == [] then []
    else (if packets[0].packetType.NeedsTicket? then [packets[0]] else []) + OnlyTicketed(packets[1..])
  }

  /** What a side writes in a move that follows on a run. */
  function Written(moves: seq<Move>, m: Move, atA: bool): seq<Packet> {
    var s := Run(moves);
    if m.atA == atA && s.Some? && Side(s.value, atA).end.Valid() then Perform(Side(s.value, atA).end, m.action).sent
    else []
  }

  /** The packets that need a ticket which a side writes in the moves `more` after a run: in order, and each as often
      as it is written. */
  function TicketedWrites(moves: seq<Move>, more: seq<Move>, atA: bool): seq<Packet> {
    if more == [] then []
    else
      var before, last := more[..|more| - 1], more[|more| - 1];
      TicketedWrites(moves, before, atA) + OnlyTicketed(Written(moves + before, last, atA))
  }

  /** In these moves, the side does nothing that ends its current packet. */
  predicate KeptRun(moves: seq<Move>, more: seq<Move>, atA: bool) {
    more != [] ==>
      var before, last := more[..|more| - 1], more[|more| - 1];
      && KeptRun(moves, before, atA) && Run(moves + before).Some?
      && (last.atA == atA ==>
            var e := Side(Run(moves + before).value, atA).end; e.Valid() && KeepsCurrent(e, last.action))
  }

  predicate DueMove(moves: seq<Move>, m: Move, atA: bool) {
    m.atA == atA && Run(moves).Some? && Due(Side(Run(moves).value, atA).end, m.action)
  }

  /** How many of its moves come to processQueue when a resend is due. */
  function DueMoves(moves: seq<Move>, more: seq<Move>, atA: bool): nat {
    if more == [] then 0
    else
      var before, last := more[..|more| - 1], more[|more| - 1];
      DueMoves(moves, before, atA) + if DueMove(moves + before, last, atA) then 1 else 0
  }

  ghost predicate SameHead(me: Half, me': Half) {
    && me.end.hasCurrent && me'.end.hasCurrent && me.end.queue != [] && me'.end.queue != []
    && me'.end.queue[0] == me.end.queue[0] && me'.gone == me.gone
  }

  function Copies(p: Packet, n: nat): (s: seq<Packet>)
    ensures |s| == n && forall i :: 0 <= i < n ==> s[i] == p
  {
    seq(n, _ => p)
  }

  lemma {:induction false} NoneTicketed(packets: seq<Packet>)
    requires forall p <- packets :: !p.packetType.NeedsTicket?
    ensures OnlyTicketed(packets) == []
  {
    if packets != [] {
      NoneTicketed(packets[1..]);
    }
  }

  lemma OneTicketed(p: Packet)
    requires p.packetType.NeedsTicket?
    ensures OnlyTicketed([p]) == [p]
  {
    assert [p][1..] == [];
  }

  /** One move of the side itself. */
  lemma KeptStep(me: Half, action: Action)
    requires SenderWindow(me.end) && me.end.hasCurrent && KeepsCurrent(me.end, action)
    ensures SameHead(me, StepMine(me, action))
    ensures OnlyTicketed(Perform(me.end, action).sent) == if Due(me.end, action) then [me.end.queue[0]] else []
  {
    hide OnlyTicketed, Due;
    ResentIffDue(me.end, action);
    assert me.gone + [] == me.gone;
    if Due(me.end, action) {
      OneTicketed(me.end.queue[0]);
    } else {
      NoneTicketed(Perform(me.end, action).sent);
    }
  }

  /** And one of the other side, which changes nothing but what has arrived. */
  lemma PeersStep(peer: Half, me: Half, action: Action)
    requires peer.end.Valid()
    ensures StepPeer(peer, me, action).end == me.end && StepPeer(peer, me, action).gone == me.gone
  {
  }

  /** In every run after which a side keeps its current packet, with any traffic in both directions: the ticketed
      packets it writes are this packet alone, exactly once for every time that processQueue is come to more than
      2000 ms after the last transmission of whatever kind. */
  lemma {:induction false} ResentAsOftenAsDue(moves: seq<Move>, more: seq<Move>, atA: bool)
    requires Run(moves).Some? && Side(Run(moves).value, atA).end.hasCurrent
    ensures Side(Run(moves).value, atA).end.queue != []
    ensures KeptRun(moves, more, atA) && Run(moves + more).Some? ==>
      var me := Side(Run(moves).value, atA);
      && SameHead(me, Side(Run(moves + more).value, atA))
      && TicketedWrites(moves, more, atA) == Copies(me.end.queue[0], DueMoves(moves, more, atA))
  {
    hide StepMine, StepPeer, SenderWindow, KeepsCurrent, Due, OnlyTicketed;
    WindowOnEveryRun(moves);
    CurrentIsQueued(Side(Run(moves).value, atA).end);
    if more == [] {
      assert moves + more == moves;
    } else if KeptRun(moves, more, atA) && Run(moves + more).Some? {
      var before, last := more[..|more| - 1], more[|more| - 1];
      ResentAsOftenAsDue(moves, before, atA);
      assert (moves + more)[..|moves + more| - 1] == moves + before;
      WindowOnEveryRun(moves + before);
      var s := Run(moves + before).value;
      if last.atA == atA {
        KeptStep(Side(s, atA), last.action);
      } else {
        PeersStep(Side(s, !atA), Side(s, atA), last.action);
        NoneTicketed([]);
      }
    }
  }

  lemma CurrentIsQueued(e: Endpoint)
    requires SenderWindow(e) && e.hasCurrent
    ensures e.queue != [] && e.Valid()
  {
  }

  // ---------- a lost packet can starve ----------

  /** What a side does, if it is its move: nothing that ends the current packet, and nothing that could resend it comes
      later than 2000 ms after the last transmission. */
  predicate Quiet(e: Endpoint, action: Action) {
    && e.Valid() && KeepsCurrent(e, action)
    && (TriesResend(action) ==> action.now <= e.lastSent + 2000)
  }

  predicate QuietRun(moves: seq<Move>, more: seq<Move>, atA: bool) {
    more != [] ==>
      var before, last := more[..|more| - 1], more[|more| - 1];
      && QuietRun(moves, before, atA) && Run(moves + before).Some?
      && (last.atA == atA ==> Quiet(Side(Run(moves + before).value, atA).end, last.action))
  }

  lemma {:induction false} QuietIsNeverDue(moves: seq<Move>, more: seq<Move>, atA: bool)
    requires QuietRun(moves, more, atA)
    ensures KeptRun(moves, more, atA) && DueMoves(moves, more, atA) == 0
  {
    hide Run, KeepsCurrent;
    if more != [] {
      QuietIsNeverDue(moves, more[..|more| - 1], atA);
    }
  }

  /** In every run, as long as the current packet is not acknowledged and whatever could resend it comes within
      2000 ms of some transmission, no packet that needs a ticket is written, not one copy of the current one. */
  lemma {:induction false} NeverResentWhileQuiet(moves: seq<Move>, more: seq<Move>, atA: bool)
    requires Run(moves).Some? && Side(Run(moves).value, atA).end.hasCurrent
    ensures QuietRun(moves, more, atA) && Run(moves + more).Some? ==>
      && SameHead(Side(Run(moves).value, atA), Side(Run(moves + more).value, atA))
      && TicketedWrites(moves, more, atA) == []
  {
    hide Run, SameHead, QuietRun, KeptRun, TicketedWrites, DueMoves;
    ResentAsOftenAsDue(moves, more, atA);
    if QuietRun(moves, more, atA) {
      QuietIsNeverDue(moves, more, atA);
    }
  }

  /** Processing the queue right on time, and then a frame that needs no ticket. */
  function Round(atA: bool, now: int): seq<Move> {
    [Move(atA, Tick(now)), Move(atA, Send(false, [], now))]
  }

  /** One round every 2000 ms. */
  function Rounds(atA: bool, start: int, n: nat): (moves: seq<Move>)
    ensures |moves| == 2 * n
  {
    if n == 0 then [] else Rounds(atA, start, n - 1) + Round(atA, start + n * 2000)
  }

  lemma RoundIsQuiet(me: Half, peer: Half, now: int)
    requires SenderWindow(me.end) && me.end.hasCurrent && me.end.connected && now == me.end.lastSent + 2000
    ensures Quiet(me.end, Tick(now)) && StepMine(me, Tick(now)) == me && StepPeer(me, peer, Tick(now)) == peer
    ensures Quiet(me.end, Send(false, [], now))
    ensures var me' := StepMine(me, Send(false, [], now));
      && me'.end.lastSent == now && me'.end.connected && me'.end.hasCurrent && me'.end.queue == me.end.queue
      && StepPeer(me, peer, Send(false, [], now)).got == peer.got
  {
    NothingSent(peer);
    assert me.gone + [] == me.gone;
  }

  /** What a number of rounds leaves. */
  ghost predicate Waited(me: Half, peer: Half, me': Half, peer': Half, n: nat) {
    && me'.end.lastSent == me.end.lastSent + n * 2000 && me'.end.connected && me'.end.hasCurrent
    && me'.end.queue == me.end.queue && peer'.got == peer.got
  }

  lemma OneMoreRound(moves: seq<Move>, more: seq<Move>, atA: bool, now: int)
    requires Run(moves + more).Some? && QuietRun(moves, more, atA)
    requires var me := Side(Run(moves + more).value, atA).end;
      me.hasCurrent && me.connected && now == me.lastSent + 2000
    ensures var longer := more + Round(atA, now);
      && Run(moves + longer).Some? && QuietRun(moves, longer, atA)
      && var (s, s') := (Run(moves + more).value, Run(moves + longer).value);
      Waited(Side(s, atA), Side(s, !atA), Side(s', atA), Side(s', !atA), 1)
  {
    hide StepMine, StepPeer, SenderWindow, Quiet, Run;
    WindowOnEveryRun(moves + more);
    var s := Run(moves + more).value;
    RoundIsQuiet(Side(s, atA), Side(s, !atA), now);
    var (m1, m2) := (Round(atA, now)[0], Round(atA, now)[1]);
    var moves1 := RunMove(moves + more, m1);
    var moves2 := RunMove(moves1, m2);
    assert Round(atA, now) == [m1, m2];
    assert moves1 == moves + (more + [m1]) && moves2 == moves + (more + [m1, m2]);
    assert (more + [m1])[..|more|] == more && (more + [m1, m2])[..|more| + 1] == more + [m1];
  }

  lemma {:induction false} RoundsAreQuiet(moves: seq<Move>, atA: bool, n: nat)
    requires Run(moves).Some?
    requires var me := Side(Run(moves).value, atA).end; me.hasCurrent && me.connected
    ensures var more := Rounds(atA, Side(Run(moves).value, atA).end.lastSent, n);
      && Run(moves + more).Some? && QuietRun(moves, more, atA)
      && var (s, s') := (Run(moves).value, Run(moves + more).value);
      Waited(Side(s, atA), Side(s, !atA), Side(s', atA), Side(s', !atA), n)
  {
    hide Run, QuietRun, Round;
    if n == 0 {
      assert moves + [] == moves;
      NoMovesAreQuiet(moves, atA);
    } else {
      RoundsAreQuiet(moves, atA, n - 1);
      var start := Side(Run(moves).value, atA).end.lastSent;
      OneMoreRound(moves, Rounds(atA, start, n - 1), atA, start + n * 2000);
    }
  }

  lemma NoMovesAreQuiet(moves: seq<Move>, atA: bool)
    ensures QuietRun(moves, [], atA)
  {
  }

  /** From every reachable state of a connected side with a current packet, for any number of rounds, the queue is
      processed every 2000 ms, a frame that needs no ticket follows each time, and the current packet is not written
      once: if its one copy was lost, it starves. */
  lemma {:induction false} LostPacketCanStarve(moves: seq<Move>, atA: bool, n: nat)
    requires Run(moves).Some?
    requires var me := Side(Run(moves).value, atA).end; me.hasCurrent && me.connected
    ensures var more := Rounds(atA, Side(Run(moves).value, atA).end.lastSent, n);
      && Run(moves + more).Some? && TicketedWrites(moves, more, atA) == []
      && var (s, s') := (Run(moves).value, Run(moves + more).value);
      && SameHead(Side(s, atA), Side(s', atA))
      && Waited(Side(s, atA), Side(s, !atA), Side(s', atA), Side(s', !atA), n)
  {
    hide Run, QuietRun, Rounds, TicketedWrites, SameHead, Waited;
    RoundsAreQuiet(moves, atA, n);
    NeverResentWhileQuiet(moves, Rounds(atA, Side(Run(moves).value, atA).end.lastSent, n), atA);
  }
}
