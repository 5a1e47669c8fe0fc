/** What a handler's operations come to, told by the flags and states alone, and what becomes of its sockets
    (Threads/HandlerBase.cpp, Threads/HandlerTcpSocket.cpp, Threads/ThreadHandler.cpp). */
module ConnectionOutcomes {
  import opened Bytes
  import opened ByteChannel
  import opened Connections

  // ---------- poll events ----------

  /** A pending connect that the event shows to have failed; errors and hang-ups come first. */
  predicate Refused(c: Connection, e: Poll) {
    !e.error && !e.hangup && e.writable && c.state == Connecting && !e.ready
  }

  /** What is told on an event for one's own socket. */
  function SignalsOf(c: Connection, e: Poll): seq<Signal> {
    (if e.error then [Failed, Changed(c.state, Disconnected)] else [])
    + if e.hangup then [Readable] + if e.error then [] else [Changed(c.state, Disconnected)]
      else if Refused(c, e) then [Failed, Changed(Connecting, Disconnected)]
      else
        (if e.writable && !e.error && c.state == Connecting
         then [Changed(Connecting, ConnectionState.Connected)] else [])
        + (if e.writable then [Writable] else []) + (if e.readable then [Readable] else [])
  }

  lemma EventStates(c: Connection, e: Poll)
    requires AtRest(c) && c.descriptor != INVALID && e.fd == c.descriptor
    ensures var (after, taken) := Process(c, e);
      && (after.state == Disconnected <==> e.error || e.hangup || Refused(c, e))
      && (after.state == ConnectionState.Connected <==>
            !e.error && !e.hangup && (c.state == ConnectionState.Connected || (e.writable && e.ready)))
      && (after.state == Disconnected ==> after.descriptor == INVALID && after.closed == c.closed + [c.descriptor])
      && (after.state != Disconnected ==> after.descriptor == c.descriptor && after.closed == c.closed)
      && (taken <==> !Refused(c, e))
  {
  }

  /** Closing a socket, and the log behind it. */
  lemma ClosedOnce(c: Connection)
    requires AtRest(c)
    ensures c.descriptor != INVALID ==>
      Close(c) == c.(state := Disconnected, descriptor := INVALID, closed := c.closed + [c.descriptor],
                     log := c.log + [Changed(c.state, Disconnected)])
    ensures c.descriptor == INVALID ==> Close(c) == c
  {
  }

  lemma SignalsWithoutError(c: Connection, e: Poll)
    requires AtRest(c) && c.descriptor != INVALID && e.fd == c.descriptor && !e.error
    ensures Process(c, e).0.log == c.log + SignalsOf(c, e)
  {
    hide Close;
    if e.hangup {
      ClosedOnce(Say(c, Readable));
      assert c.log + [Readable] + [Changed(c.state, Disconnected)]
          == c.log + ([Readable] + [Changed(c.state, Disconnected)]);
    } else if Refused(c, e) {
      ClosedOnce(Say(c, Failed));
      assert c.log + [Failed] + [Changed(Connecting, Disconnected)]
          == c.log + [Failed, Changed(Connecting, Disconnected)];
    } else {
      var connects := e.writable && c.state == Connecting;
      SignalsInTurn(c.log, connects, e.writable, e.readable);
      assert SignalsOf(c, e) == (if connects then [Changed(Connecting, ConnectionState.Connected)] else [])
        + (if e.writable then [Writable] else []) + (if e.readable then [Readable] else []);
    }
  }

  lemma SignalsInTurn(log: seq<Signal>, connects: bool, writable: bool, readable: bool)
    ensures var c1 := if connects then log + [Changed(Connecting, ConnectionState.Connected)] else log;
      var c2 := if writable then c1 + [Writable] else c1;
      var c3 := if readable then c2 + [Readable] else c2;
      c3 == log + ((if connects then [Changed(Connecting, ConnectionState.Connected)] else [])
                   + (if writable then [Writable] else []) + (if readable then [Readable] else []))
  {
  }

  lemma SignalsAfterError(c: Connection, e: Poll)
    requires AtRest(c) && c.descriptor != INVALID && e.fd == c.descriptor && e.error
    ensures Process(c, e).0.log == c.log + SignalsOf(c, e)
  {
    hide Close;
    var first := [Failed, Changed(c.state, Disconnected)];
    ClosedOnce(Say(c, Failed));
    var c1 := Close(Say(c, Failed));
    assert c1.log == c.log + first;
    if e.hangup {
      ClosedOnce(Say(c1, Readable));
      assert c.log + first + [Readable] == c.log + (first + ([Readable] + []));
    } else {
      SignalsInTurn(c1.log, false, e.writable, e.readable);
      var last := [] + (if e.writable then [Writable] else []) + (if e.readable then [Readable] else []);
      assert SignalsOf(c, e) == first + last;
      assert c.log + first + last == c.log + (first + last);
    }
  }

  lemma EventSignals(c: Connection, e: Poll)
    requires AtRest(c) && c.descriptor != INVALID && e.fd == c.descriptor
    ensures Process(c, e).0.log == c.log + SignalsOf(c, e)
  {
    hide Process, SignalsOf;
    if e.error {
      SignalsAfterError(c, e);
    } else {
      SignalsWithoutError(c, e);
    }
  }

  /** An event for one's own socket: an error, a hang-up or a refused connect closes it, once; a connect that is ready
      connects it; nothing else changes state or socket. The listeners are told of errors, of what can be read and
      written and of the changes of state, in that order; and only a refused connect is not taken. An event for any
      other socket changes nothing and is not taken. */
  lemma {:induction false} EventOutcome(c: Connection, e: Poll)
    requires AtRest(c)
    ensures var (after, taken) := Process(c, e);
      if c.descriptor == INVALID || e.fd != c.descriptor then after == c && !taken
      else
        && (after.state == Disconnected <==> e.error || e.hangup || Refused(c, e))
        && (after.state == ConnectionState.Connected <==>
              !e.error && !e.hangup && (c.state == ConnectionState.Connected || (e.writable && e.ready)))
        && (after.state == Disconnected ==> after.descriptor == INVALID && after.closed == c.closed + [c.descriptor])
        && (after.state != Disconnected ==> after.descriptor == c.descriptor && after.closed == c.closed)
        && after.log == c.log + SignalsOf(c, e)
        && (taken <==> !Refused(c, e))
  {
    if c.descriptor != INVALID && e.fd == c.descriptor {
      hide Process, SignalsOf, Refused;
      EventStates(c, e);
      EventSignals(c, e);
    }
  }

  // ---------- opening, assigning and closing ----------

  /** Opening tells that it is connecting, and takes the socket that the call gave; a call that failed at once is
      told and leaves everything else, one that gave no socket ends disconnected. A handler made with a socket
      does nothing. */
  lemma {:induction false} OpenOutcome(c: Connection, socket: Descriptor, failed: bool)
    requires AtRest(c)
    ensures var after := Open(c, socket, failed);
      var begun := if c.state == Connecting then c.log else c.log + [Changed(c.state, Connecting)];
      if !c.client then after == c
      else
        && after.client && after.closed == c.closed
        && (if failed then
              after.state == Connecting && after.descriptor == c.descriptor && after.log == begun + [Failed]
            else if socket == INVALID then
              after.state == Disconnected && after.descriptor == INVALID
              && after.log == begun + [Changed(Connecting, Disconnected)]
            else after.state == Connecting && after.descriptor == socket && after.log == begun)
  {
  }

  /** A descriptor that is set connects, unless a connect is pending or there was a connection, and an invalid one
      disconnects; the socket it replaces is not closed. */
  lemma {:induction false} AssignOutcome(c: Connection, socket: Descriptor)
    requires AtRest(c)
    ensures var after := SetDescriptor(c, socket);
      var state := if socket == INVALID then Disconnected
                   else if c.state == Connecting then Connecting else ConnectionState.Connected;
      after == c.(descriptor := socket, state := state,
                  log := if state == c.state then c.log else c.log + [Changed(c.state, state)])
  {
  }

  /** Closing closes the socket there is, once, and tells of the disconnect. */
  lemma {:induction false} CloseOutcome(c: Connection)
    requires AtRest(c)
    ensures Close(c) == if c.descriptor == INVALID then c
                        else c.(state := Disconnected, descriptor := INVALID, closed := c.closed + [c.descriptor],
                                log := c.log + [Changed(c.state, Disconnected)])
  {
  }

  /** Setting the state tells of the change, once, and setting it to disconnected closes the socket there is. */
  lemma {:induction false} SetStateOutcome(c: Connection, state: ConnectionState)
    requires AtRest(c)
    ensures SetState(c, state) ==
      if state == Disconnected && c.descriptor != INVALID then Close(c)
      else c.(state := state, log := if state == c.state then c.log else c.log + [Changed(c.state, state)])
  {
  }

  /** A new handler is connected iff it is made with a socket, and then it is no client. */
  lemma {:induction false} NewOutcome(socket: Descriptor)
    ensures New(socket) == if socket == INVALID then Connection(true, Disconnected, INVALID, [], [])
      else Connection(false, ConnectionState.Connected, socket, [Changed(Disconnected, ConnectionState.Connected)], [])
  {
  }

  // ---------- sockets ----------

  /** The socket that an operation of the thread takes over, if any. */
  function Taken(c: Connection, op: Operation): seq<Descriptor> {
    if op.Waiting? && op.due && !op.failed && op.socket != INVALID && c.client && c.state == Disconnected
    then [op.socket] else []
  }

  /** The sockets a handler had in a run, in order. */
  function Sockets(start: Descriptor, ops: seq<Operation>): seq<Descriptor> {
    if ops == [] then if start == INVALID then [] else [start]
    else
      var before, last := ops[..|ops| - 1], ops[|ops| - 1];
      Sockets(start, before) + Taken(Connections.Run(start, before), last)
  }

  function Current(c: Connection): seq<Descriptor> {
    if c.descriptor == INVALID then [] else [c.descriptor]
  }

  lemma SocketStep(c: Connection, op: Operation)
    requires AtRest(c) && OfThread(op)
    ensures var after := Do(c, op); after.closed + Current(after) == c.closed + Current(c) + Taken(c, op)
  {
    hide Process, Open, Close;
    match op
    case Polled(e) =>
      if c.descriptor == INVALID || e.fd != c.descriptor {
        ForeignEvent(c, e);
      } else {
        EventStates(c, e);
      }
    case Closing => CloseOutcome(c);
    case Waiting(_, socket, failed) => OpenOutcome(c, socket, failed);
  }

  lemma ForeignEvent(c: Connection, e: Poll)
    requires c.descriptor == INVALID || e.fd != c.descriptor
    ensures Process(c, e) == (c, false)
  {
  }

  /** In every run of the thread no socket is lost and none is closed twice: those closed, in order, and the
      current one are exactly those the handler ever had. */
  lemma {:induction false} SocketsConserved(start: Descriptor, ops: seq<Operation>)
    ensures (forall op <- ops :: OfThread(op)) ==>
      Connections.Run(start, ops).closed + Current(Connections.Run(start, ops)) == Sockets(start, ops)
  {
    hide Do, OfThread, AtRest, WellLogged, Taken, Current;
    if ops == [] {
      NewSocket(start);
    } else if forall op <- ops :: OfThread(op) {
      var before, last := ops[..|ops| - 1], ops[|ops| - 1];
      assert last in ops && forall op <- before :: op in ops;
      StateFitsDescriptorOnEveryRun(start, before);
      SocketsConserved(start, before);
      SocketStep(Connections.Run(start, before), last);
    }
  }

  lemma NewSocket(start: Descriptor)
    ensures New(start).closed + Current(New(start)) == if start == INVALID then [] else [start]
  {
  }

  // ---------- when the thread tries again ----------

  /** When the handler last told of a disconnect. */
  function LastLost(socket: Descriptor, timeout: nat, start: int, events: seq<Timed>): Option<int> {
    if events == [] then None
    else
      var before, last := events[..|events| - 1], events[|events| - 1];
      if Disconnects(Threaded(socket, timeout, start, events).connection.log)
         > Disconnects(Threaded(socket, timeout, start, before).connection.log)
      then Some(last.now) else LastLost(socket, timeout, start, before)
  }

  /** In every run the thread tries to connect before it waits iff reconnecting is on, the client is disconnected
      and at least the reconnect time has gone by since the last disconnect, or the starting time has come if
      there was none. */
  lemma {:induction false} TriesIffTimeHasCome(socket: Descriptor, timeout: nat, start: int,
                                               events: seq<Timed>, e: Timed)
    requires e.op.Waiting?
    ensures var l := Threaded(socket, timeout, start, events);
      var after := Happen(l, timeout, e);
      var tries := && timeout > 0 && l.connection.client && l.connection.state == Disconnected
        && match LastLost(socket, timeout, start, events)
           case None => start <= e.now
           case Some(t) => e.now - t >= timeout;
      && after.tries == (if tries then l.tries + [e.now] else l.tries)
      && after.connection == (if tries then Open(l.connection, e.op.socket, e.op.failed) else l.connection)
  {
    hide Threaded, Open;
    NextTryIsSet(socket, timeout, start, events);
    NotClient(Threaded(socket, timeout, start, events).connection, e.op.socket, e.op.failed);
  }

  lemma NotClient(c: Connection, socket: Descriptor, failed: bool)
    ensures !c.client ==> Open(c, socket, failed) == c
  {
  }

  lemma {:induction false} NextTryIsSet(socket: Descriptor, timeout: nat, start: int, events: seq<Timed>)
    ensures Threaded(socket, timeout, start, events).nextTry
         == match LastLost(socket, timeout, start, events) case None => start case Some(t) => t + timeout
  {
    hide Do, Disconnects;
    if events != [] {
      NextTryIsSet(socket, timeout, start, events[..|events| - 1]);
    }
  }
}
