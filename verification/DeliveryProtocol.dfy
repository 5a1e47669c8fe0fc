/** Ticketed stop-and-wait delivery on values: what one endpoint does (Threads/ThreadDataFrames.cpp), and two
    endpoints over a network that loses, repeats and reorders packets. */
module DeliveryProtocol {
  import opened Bytes
  import opened Packets

  const PACKET_ID_EMPTY: uint32 := 0
  const PACKET_ID_LIMIT: uint32 := 0x1FFF_FFFF
  const RESEND_DELAY := 2000

  /** A packet as sendPacket writes it. `serial` is history: the place of a queued packet in its sender's enqueue
      order. No operation looks at it. */
  datatype Packet = Packet(packetType: PacketType, packetId: uint32, payload: ByteArray, serial: nat)

  /** The state of one endpoint. The current packet, when there is one, is the head of the queue.
      `accepted` (the payloads enqueued) and `generated` (how many ids were drawn) are history. */
  datatype Endpoint = Endpoint(
    useQueue: bool, connected: bool, queue: seq<Packet>, hasCurrent: bool,
    counter: uint32, lastSent: int, expectedId: int,
    accepted: seq<ByteArray>, generated: nat)
  {
    predicate Valid() {
      && (hasCurrent ==> queue != [])
      && (!useQueue ==> queue == [])
      && counter < PACKET_ID_LIMIT
    }
  }

  /** What an operation leaves: the new state, the packets it wrote and the packets it dropped from the queue. */
  datatype Outcome = Outcome(endpoint: Endpoint, sent: seq<Packet>, removed: seq<Packet>)

  function Initial(useQueue: bool): Endpoint {
    Endpoint(useQueue, false, [], false, 0, 0, -1, [], 0)
  }

  // ---------- packet ids ----------

  function NextId(counter: uint32): uint32
    requires counter < PACKET_ID_LIMIT
  {
    if counter + 1 >= PACKET_ID_LIMIT then 1 else counter + 1
  }

  /** The id expected after a packet: 32-bit arithmetic. */
  function IdAfter(id: uint32): uint32 {
    (id + 1) % 0x1_0000_0000
  }

  function DrawId(e: Endpoint): Endpoint
    requires e.counter < PACKET_ID_LIMIT
  {
    e.(counter := NextId(e.counter), generated := e.generated + 1)
  }

  // ---------- operations of an endpoint ----------

  function Transmit(e: Endpoint, p: Packet, now: int): Outcome {
    if e.connected then Outcome(e.(lastSent := now), [p], []) else Outcome(e, [], [])
  }

  function ProcessQueue(e: Endpoint, now: int): Outcome
    requires e.Valid()
  {
    if !e.useQueue then Outcome(e, [], [])
    else if e.hasCurrent then
      if e.lastSent + RESEND_DELAY < now then Transmit(e, e.queue[0], now) else Outcome(e, [], [])
    else if e.queue == [] then Outcome(e, [], [])
    else
      var drawn := DrawId(e);
      var head := e.queue[0].(packetId := drawn.counter);
      Transmit(drawn.(queue := [head] + e.queue[1..], hasCurrent := true), head, now)
  }

  /** The packets of a queue that do (not) carry an id, in queue order. */
  function Select(queue: seq<Packet>, id: uint32, carrying: bool): seq<Packet> {
    if queue == [] then []
    else (if (queue[0].packetId == id) == carrying then [queue[0]] else []) + Select(queue[1..], id, carrying)
  }

  function ApplyTicket(e: Endpoint, id: uint32, now: int): Outcome
    requires e.Valid()
  {
    var removed := Select(e.queue, id, true);
    if !e.useQueue || removed == [] then Outcome(e, [], [])
    else
      ProcessQueue(e.(queue := Select(e.queue, id, false), hasCurrent := false), now).(removed := removed)
  }

  function SendFrame(e: Endpoint, needsTicket: bool, payload: ByteArray, now: int): Outcome
    requires e.Valid()
  {
    var packetType := if needsTicket then NeedsTicket else WithoutTicket;
    if e.useQueue && needsTicket then
      var packet := Packet(packetType, PACKET_ID_EMPTY, payload, |e.accepted|);
      ProcessQueue(e.(queue := e.queue + [packet], accepted := e.accepted + [payload]), now)
    else
      var drawn := DrawId(e);
      Transmit(drawn, Packet(packetType, drawn.counter, payload, 0), now)
  }

  function ClearIds(queue: seq<Packet>): seq<Packet> {
    seq(|queue|, i requires 0 <= i < |queue| => queue[i].(packetId := PACKET_ID_EMPTY))
  }

  function ResetQueue(e: Endpoint): Outcome {
    Outcome(e.(hasCurrent := false, queue := ClearIds(e.queue)), [], [])
  }

  /** Another id than the one expected, when one is. */
  predicate Gap(e: Endpoint, p: Packet) {
    e.expectedId >= 0 && e.expectedId != p.packetId
  }

  function Receive(e: Endpoint, p: Packet, now: int): Outcome
    requires e.Valid()
  {
    var e1 := e.(expectedId := IdAfter(p.packetId));
    if p.packetType.Ticket? then
      if |p.payload| < 4 then Outcome(e1, [], []) else ApplyTicket(e1, FromLe32(p.payload[..4]), now)
    else if p.packetId == PACKET_ID_EMPTY then Outcome(e1, [], [])
    else
      var drawn := DrawId(e1);
      Transmit(drawn, Packet(Ticket, drawn.counter, Le32(p.packetId), 0), now)
  }

  function Connect(e: Endpoint, now: int): Outcome {
    Outcome(e.(connected := true, lastSent := now, expectedId := -1), [], [])
  }

  function Disconnect(e: Endpoint): Outcome {
    Outcome(e.(connected := false), [], [])
  }

  // ---------- two endpoints and the network ----------

  datatype Action =
    | Send(needsTicket: bool, payload: ByteArray, now: int)
    | Deliver(packet: Packet, now: int)
    | Tick(now: int)
    | Reset
    | Up(now: int)
    | Down

  /** One side of the system. `inbox` holds every packet ever written towards this side: the network may deliver any
      of them at any time, any number of times, or never. `got` lists the first receipts of ticketed packets,
      `gone` the packets that left this side's queue. */
  datatype Half = Half(end: Endpoint, inbox: set<Packet>, got: seq<Packet>, gone: seq<Packet>)

  datatype System = System(a: Half, b: Half)

  predicate CanAct(me: Half, action: Action) {
    action.Deliver? ==> action.packet in me.inbox
  }

  function Perform(e: Endpoint, action: Action): Outcome
    requires e.Valid()
  {
    match action
    case Send(needsTicket, payload, now) => SendFrame(e, needsTicket, payload, now)
    case Deliver(packet, now) => Receive(e, packet, now)
    case Tick(now) => ProcessQueue(e, now)
    case Reset => ResetQueue(e)
    case Up(now) => Connect(e, now)
    case Down => Disconnect(e)
  }

  predicate Seen(got: seq<Packet>, serial: nat) {
    exists i :: 0 <= i < |got| && got[i].serial == serial
  }

  predicate FirstReceipt(got: seq<Packet>, p: Packet) {
    p.packetType.NeedsTicket? && !Seen(got, p.serial)
  }

  function StepMine(me: Half, action: Action): Half
    requires me.end.Valid()
  {
    var out := Perform(me.end, action);
    Half(out.endpoint, me.inbox,
         if action.Deliver? && FirstReceipt(me.got, action.packet) then me.got + [action.packet] else me.got,
         me.gone + out.removed)
  }

  function Posted(sent: seq<Packet>): set<Packet> {
    set p | p in sent
  }

  function StepPeer(me: Half, peer: Half, action: Action): Half
    requires me.end.Valid()
  {
    peer.(inbox := peer.inbox + Posted(Perform(me.end, action).sent))
  }

  datatype Move = Move(atA: bool, action: Action)

  predicate Enabled(s: System, m: Move) {
    s.a.end.Valid() && s.b.end.Valid() && CanAct(if m.atA then s.a else s.b, m.action)
  }

  function Step(s: System, m: Move): System
    requires Enabled(s, m)
  {
    if m.atA then System(StepMine(s.a, m.action), StepPeer(s.a, s.b, m.action))
    else System(StepPeer(s.b, s.a, m.action), StepMine(s.b, m.action))
  }

  /** Two endpoints with queues, nothing sent yet. */
  function Start(): System {
    var half := Half(Initial(true), {}, [], []);
    System(half, half)
  }

  /** The state after a run of moves; None when a move delivers a packet that was never sent. */
  function Run(moves: seq<Move>): Option<System> {
    if moves == [] then Some(Start())
    else
      var before := Run(moves[..|moves| - 1]);
      var last := moves[|moves| - 1];
      if before.Some? && Enabled(before.value, last) then Some(Step(before.value, last)) else None
  }
}
