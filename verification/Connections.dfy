/** The connection states of a TCP handler on Linux (Threads/HandlerBase.cpp, Threads/HandlerTcpSocket.cpp): closing,
    setting the descriptor and setting the state call one another. Sockets, poll and the clock are arguments. */
module Connections {
  import opened ByteChannel

  const INVALID := -1

  type Descriptor = d: int | d >= -1

  /** What a handler tells its listeners. */
  datatype Signal = Changed(before: ConnectionState, after: ConnectionState) | Failed | Readable | Writable

  /** `client` tells a handler made without a socket. `log` lists the signals, `closed` the sockets that were closed. */
  datatype Connection = Connection(
    client: bool, state: ConnectionState, descriptor: Descriptor, log: seq<Signal>, closed: seq<Descriptor>)

  // ---------- what the operations amount to ----------

  function Say(c: Connection, signal: Signal): Connection {
    c.(log := c.log + [signal])
  }

  function Notify(c: Connection, value: ConnectionState): Connection {
    if value == c.state then c else Say(c, Changed(c.state, value)).(state := value)
  }

  /** Closing releases the socket, forgets it and notifies the disconnect. */
  function Close(c: Connection): Connection {
    if c.descriptor == INVALID then c
    else Notify(c.(closed := c.closed + [c.descriptor], descriptor := INVALID), Disconnected)
  }

  function SetState(c: Connection, value: ConnectionState): Connection {
    Notify(if value == Disconnected then Close(c) else c, value)
  }

  function SetDescriptor(c: Connection, value: Descriptor): Connection {
    var changed := c.(descriptor := value);
    if value == INVALID then Notify(changed, Disconnected)
    else if c.state != Connecting then Notify(changed, Connected)
    else changed
  }

  /** A new handler, with a socket or without. */
  function New(socket: Descriptor): Connection {
    var c := Connection(socket == INVALID, Disconnected, socket, [], []);
    SetState(c, if socket == INVALID then Disconnected else Connected)
  }

  /** open: what the socket call returned, and whether it failed at once (an error other than "in progress"). */
  function Open(c: Connection, socket: Descriptor, failed: bool): Connection {
    if !c.client then c
    else
      var connecting := SetState(c, Connecting);
      if failed then Say(connecting, Failed) else SetDescriptor(connecting, socket)
  }

  /** One poll event; `ready` says whether a pending connect has succeeded. */
  datatype Poll = Poll(fd: Descriptor, error: bool, hangup: bool, writable: bool, readable: bool, ready: bool)

  /** What an event leaves, and whether the handler took it. */
  function Process(c: Connection, e: Poll): (Connection, bool) {
    if c.state == Disconnected || c.descriptor == INVALID || e.fd != c.descriptor then (c, false)
    else
      var c1 := if e.error then Close(Say(c, Failed)) else c;
      if e.hangup then (Close(Say(c1, Readable)), true)
      else if e.writable && c1.state == Connecting && !e.ready then (Close(Say(c1, Failed)), false)
      else
        var up := if c1.state == Connecting then SetState(c1, Connected) else c1;
        var c2 := if e.writable then Say(up, Writable) else c1;
        (if e.readable then Say(c2, Readable) else c2, true)
  }

  /** onBeforeWaitEvents: a disconnected handler whose time has come is opened. */
  function BeforeWait(c: Connection, due: bool, socket: Descriptor, failed: bool): Connection {
    if due && c.state == Disconnected then Open(c, socket, failed) else c
  }

  /** When the next try is due after a disconnect; with a reconnect time of 0 no try ever is. */
  function NextTry(timeout: nat, now: int): int {
    now + timeout
  }

  predicate IsDue(timeout: nat, nextTry: int, now: int) {
    timeout > 0 && nextTry <= now
  }

  // ---------- the mutual recursion ----------

  class HandlerTcpSocket {
    const client: bool
    var connectionState: ConnectionState
    var descriptor: Descriptor
    ghost var log: seq<Signal>
    ghost var closed: seq<Descriptor>

    ghost function View(): Connection
      reads this
    {
      Connection(client, connectionState, descriptor, log, closed)
    }

    constructor (socket: Descriptor)
      ensures View() == New(socket)
    {
      client := socket == INVALID;
      connectionState, descriptor, log, closed := Disconnected, socket, [], [];
      new;
      SetConnectionState(if socket == INVALID then Disconnected else Connected);
    }

    method SetConnectionState(value: ConnectionState)
      modifies this
      ensures View() == SetState(old(View()), value)
      decreases if value == Disconnected && descriptor != INVALID then 3 else 0
    {
      if value == Disconnected && descriptor != INVALID {
        CloseSocket();
      }
      if value != connectionState {
        log := log + [Changed(connectionState, value)];
        connectionState := value;
      }
    }

    method SetSocket(value: Descriptor)
      modifies this
      ensures View() == SetDescriptor(old(View()), value)
      decreases 1
    {
      descriptor := value;
      if descriptor == INVALID {
        SetConnectionState(Disconnected);
      } else if connectionState != Connecting {
        SetConnectionState(Connected);
      }
    }

    method CloseSocket()
      modifies this
      ensures View() == Close(old(View()))
      decreases 2
    {
      if descriptor == INVALID {
        return;
      }
      closed := closed + [descriptor];
      SetSocket(INVALID);
    }

    /** The listeners' slots are not part of this class. */
    ghost method Emit(signal: Signal)
      modifies this`log
      ensures log == old(log) + [signal]
    {
      log := log + [signal];
    }

    method OpenSocket(socket: Descriptor, failed: bool) returns (ok: bool)
      modifies this
      ensures View() == Open(old(View()), socket, failed) && ok == (client && socket != INVALID)
    {
      if !client {
        return false;
      }
      SetConnectionState(Connecting);
      if failed {
        Emit(Failed);
      } else {
        SetSocket(socket);
      }
      ok := socket != INVALID;
    }

    method ProcessEvent(event: Poll) returns (result: bool)
      modifies this
      ensures (View(), result) == Process(old(View()), event)
    {
      if connectionState == Disconnected || descriptor == INVALID || event.fd != descriptor {
        return false;
      }
      if event.error {
        Emit(Failed);
        CloseSocket();
      }
      if event.hangup {
        Emit(Readable);
        CloseSocket();
        return true;
      }
      if event.writable {
        if connectionState == Connecting {
          if event.ready {
            SetConnectionState(Connected);
          } else {
            Emit(Failed);
            CloseSocket();
            return false;
          }
        }
        Emit(Writable);
      }
      if event.readable {
        Emit(Readable);
      }
      result := true;
    }
  }

  /** The part of ThreadHandler that reconnects. */
  class Reconnector {
    const handler: HandlerTcpSocket
    const reconnectTimeout: nat
    var nextTryToConnect: int

    constructor (handler: HandlerTcpSocket, reconnectTimeout: nat, now: int)
      ensures this.handler == handler && this.reconnectTimeout == reconnectTimeout && nextTryToConnect == now
    {
      this.handler, this.reconnectTimeout, nextTryToConnect := handler, reconnectTimeout, now;
    }

    /** The slot for a disconnect. */
    method SlotOnDisconnected(now: int)
      modifies this
      ensures nextTryToConnect == NextTry(reconnectTimeout, now)
    {
      nextTryToConnect := now + reconnectTimeout;
    }

    method OnBeforeWaitEvents(now: int, socket: Descriptor, failed: bool)
      modifies handler
      ensures handler.View()
           == BeforeWait(old(handler.View()), IsDue(reconnectTimeout, nextTryToConnect, now), socket, failed)
    {
      if reconnectTimeout > 0 && handler.connectionState == Disconnected && nextTryToConnect <= now {
        var _ := handler.OpenSocket(socket, failed);
      }
    }
  }

  // ---------- every run ----------

  datatype Operation =
    | Opening(socket: Descriptor, failed: bool)
    | Polled(event: Poll)
    | Closing
    | Assigning(socket: Descriptor)
    | Waiting(due: bool, socket: Descriptor, failed: bool)

  function Do(c: Connection, op: Operation): Connection {
    match op
    case Opening(socket, failed) => Open(c, socket, failed)
    case Polled(event) => Process(c, event).0
    case Closing => Close(c)
    case Assigning(socket) => SetDescriptor(c, socket)
    case Waiting(due, socket, failed) => BeforeWait(c, due, socket, failed)
  }

  function Run(socket: Descriptor, ops: seq<Operation>): Connection {
    if ops == [] then New(socket) else Do(Run(socket, ops[..|ops| - 1]), ops[|ops| - 1])
  }

  /** At rest, disconnected means no socket and connected means a socket. */
  ghost predicate AtRest(c: Connection) {
    (c.state == Disconnected ==> c.descriptor == INVALID) && (c.state == Connected ==> c.descriptor != INVALID)
  }

  /** Every notified change begins at the state where the one before ended, and is a change. */
  ghost predicate Chained(log: seq<Signal>, state: ConnectionState) {
    if log == [] then state == Disconnected
    else match log[|log| - 1]
      case Changed(before, after) => after == state && before != state && Chained(log[..|log| - 1], before)
      case _ => Chained(log[..|log| - 1], state)
  }

  ghost predicate WellLogged(c: Connection) {
    Chained(c.log, c.state)
  }

  lemma SayKeepsChain(c: Connection, signal: Signal)
    requires WellLogged(c) && !signal.Changed?
    ensures WellLogged(Say(c, signal))
  {
    assert (c.log + [signal])[..|c.log|] == c.log;
  }

  lemma NotifyKeepsChain(c: Connection, value: ConnectionState)
    requires WellLogged(c)
    ensures WellLogged(Notify(c, value))
  {
    if value != c.state {
      assert (c.log + [Changed(c.state, value)])[..|c.log|] == c.log;
    }
  }

  lemma CloseKeepsChain(c: Connection)
    requires WellLogged(c)
    ensures WellLogged(Close(c))
  {
    if c.descriptor != INVALID {
      NotifyKeepsChain(c.(closed := c.closed + [c.descriptor], descriptor := INVALID), Disconnected);
    }
  }

  lemma SetStateKeepsChain(c: Connection, value: ConnectionState)
    requires WellLogged(c)
    ensures WellLogged(SetState(c, value))
  {
    CloseKeepsChain(c);
    NotifyKeepsChain(if value == Disconnected then Close(c) else c, value);
  }

  lemma SetDescriptorKeepsChain(c: Connection, value: Descriptor)
    requires WellLogged(c)
    ensures WellLogged(SetDescriptor(c, value))
  {
    NotifyKeepsChain(c.(descriptor := value), if value == INVALID then Disconnected else Connected);
  }

  lemma OpenKeepsChain(c: Connection, socket: Descriptor, failed: bool)
    requires WellLogged(c)
    ensures WellLogged(Open(c, socket, failed))
  {
    hide WellLogged, SetState, SetDescriptor, Say;
    SetStateKeepsChain(c, Connecting);
    SayKeepsChain(SetState(c, Connecting), Failed);
    SetDescriptorKeepsChain(SetState(c, Connecting), socket);
  }

  lemma ProcessKeepsChain(c: Connection, e: Poll)
    requires WellLogged(c)
    ensures WellLogged(Process(c, e).0)
  {
    hide WellLogged, SetState, Close, Say;
    SayKeepsChain(c, Failed);
    CloseKeepsChain(Say(c, Failed));
    var c1 := if e.error then Close(Say(c, Failed)) else c;
    SayKeepsChain(c1, Readable);
    CloseKeepsChain(Say(c1, Readable));
    SayKeepsChain(c1, Failed);
    CloseKeepsChain(Say(c1, Failed));
    SetStateKeepsChain(c1, Connected);
    var up := if c1.state == Connecting then SetState(c1, Connected) else c1;
    SayKeepsChain(up, Writable);
    var c2 := if e.writable then Say(up, Writable) else c1;
    SayKeepsChain(c2, Readable);
  }

  lemma StepKeepsRest(c: Connection, op: Operation)
    requires AtRest(c)
    ensures AtRest(Do(c, op))
  {
  }

  lemma StepKeeps(c: Connection, op: Operation)
    requires AtRest(c) && WellLogged(c)
    ensures AtRest(Do(c, op)) && WellLogged(Do(c, op))
  {
    StepKeepsRest(c, op);
    hide WellLogged, Open, Process, Close, SetDescriptor, AtRest;
    match op
    case Opening(socket, failed) => OpenKeepsChain(c, socket, failed);
    case Polled(event) => ProcessKeepsChain(c, event);
    case Closing => CloseKeepsChain(c);
    case Assigning(socket) => SetDescriptorKeepsChain(c, socket);
    case Waiting(_, socket, failed) => OpenKeepsChain(c, socket, failed);
  }

  /** In every run, at rest the state fits the descriptor, and the notifications are exactly the state's changes,
      one for each: so every disconnect is notified once. */
  lemma {:induction false} StateFitsDescriptorOnEveryRun(socket: Descriptor, ops: seq<Operation>)
    ensures AtRest(Run(socket, ops)) && WellLogged(Run(socket, ops))
  {
    if ops == [] {
      var start := Connection(socket == INVALID, Disconnected, socket, [], []);
      SetStateKeepsChain(start, if socket == INVALID then Disconnected else Connected);
    } else {
      StateFitsDescriptorOnEveryRun(socket, ops[..|ops| - 1]);
      StepKeeps(Run(socket, ops[..|ops| - 1]), ops[|ops| - 1]);
    }
  }

  /** How many notifications report a disconnect, and how many report leaving that state. */
  function Disconnects(log: seq<Signal>): nat {
    if log == [] then 0
    else
      var last := log[|log| - 1];
      Disconnects(log[..|log| - 1]) + if last.Changed? && last.after == Disconnected then 1 else 0
  }

  function Departures(log: seq<Signal>): nat {
    if log == [] then 0
    else
      var last := log[|log| - 1];
      Departures(log[..|log| - 1]) + if last.Changed? && last.before == Disconnected then 1 else 0
  }

  /** Disconnects are notified once for each time the disconnected state was left, the current stay apart. */
  lemma {:induction false} DisconnectNotifiedOnce(log: seq<Signal>, state: ConnectionState)
    requires Chained(log, state)
    ensures Disconnects(log) == Departures(log) - if state == Disconnected then 0 else 1
  {
    if log != [] {
      var last := log[|log| - 1];
      DisconnectNotifiedOnce(log[..|log| - 1], if last.Changed? then last.before else state);
    }
  }

  // ---------- how often the thread reconnects ----------

  /** An operation and the time at which it is carried out; whether an open is due is for the thread to tell. */
  datatype Timed = Timed(op: Operation, now: int)

  /** A handler and its thread. `tries` lists when the thread tried to connect. */
  datatype Link = Link(connection: Connection, nextTry: int, tries: seq<int>)

  function Told(l: Link, timeout: nat, e: Timed): Operation {
    if e.op.Waiting? then e.op.(due := IsDue(timeout, l.nextTry, e.now)) else e.op
  }

  /** The thread tries to connect in this event. */
  predicate TriesToConnect(l: Link, timeout: nat, e: Timed) {
    e.op.Waiting? && IsDue(timeout, l.nextTry, e.now) && l.connection.client && l.connection.state == Disconnected
  }

  /** A disconnect that is notified sets the time of the next try. */
  function Happen(l: Link, timeout: nat, e: Timed): Link {
    var after := Do(l.connection, Told(l, timeout, e));
    var lost := Disconnects(after.log) > Disconnects(l.connection.log);
    Link(after,
         if lost then NextTry(timeout, e.now) else l.nextTry,
         if TriesToConnect(l, timeout, e) then l.tries + [e.now] else l.tries)
  }

  function Threaded(socket: Descriptor, timeout: nat, start: int, events: seq<Timed>): Link {
    if events == [] then Link(New(socket), start, [])
    else Happen(Threaded(socket, timeout, start, events[..|events| - 1]), timeout, events[|events| - 1])
  }

  /** No clock runs back. */
  predicate InTime(events: seq<Timed>) {
    forall i, j :: 0 <= i < j < |events| ==> events[i].now <= events[j].now
  }

  /** No disconnect goes unnoticed, and none is taken back. */
  predicate Noticed(c: Connection, c': Connection) {
    && Disconnects(c.log) <= Disconnects(c'.log)
    && (c'.state == Disconnected && c.state != Disconnected ==> Disconnects(c.log) < Disconnects(c'.log))
  }

  lemma SayIsNoticed(c: Connection, signal: Signal)
    requires !signal.Changed?
    ensures Noticed(c, Say(c, signal)) && Say(c, signal).state == c.state
  {
    assert (c.log + [signal])[..|c.log|] == c.log;
  }

  lemma NotifyIsNoticed(c: Connection, value: ConnectionState)
    ensures Noticed(c, Notify(c, value))
  {
    if value != c.state {
      assert (c.log + [Changed(c.state, value)])[..|c.log|] == c.log;
    }
  }

  lemma CloseIsNoticed(c: Connection)
    ensures Noticed(c, Close(c))
  {
    if c.descriptor != INVALID {
      NotifyIsNoticed(c.(closed := c.closed + [c.descriptor], descriptor := INVALID), Disconnected);
    }
  }

  lemma SetStateIsNoticed(c: Connection, value: ConnectionState)
    ensures Noticed(c, SetState(c, value))
  {
    CloseIsNoticed(c);
    NotifyIsNoticed(if value == Disconnected then Close(c) else c, value);
  }

  lemma SetDescriptorIsNoticed(c: Connection, value: Descriptor)
    ensures Noticed(c, SetDescriptor(c, value))
  {
    NotifyIsNoticed(c.(descriptor := value), if value == INVALID then Disconnected else Connected);
  }

  /** Even one that follows at once on opening. */
  lemma OpenIsNoticed(c: Connection, socket: Descriptor, failed: bool)
    requires c.client
    ensures Noticed(c, Open(c, socket, failed))
    ensures var c' := Open(c, socket, failed);
      c'.state == Disconnected ==> Disconnects(c.log) < Disconnects(c'.log)
  {
    hide Disconnects, SetDescriptor;
    var connecting := SetState(c, Connecting);
    SetStateIsNoticed(c, Connecting);
    SayIsNoticed(connecting, Failed);
    SetDescriptorIsNoticed(connecting, socket);
  }

  lemma ProcessIsNoticed(c: Connection, e: Poll)
    ensures Noticed(c, Process(c, e).0)
  {
    hide Disconnects, SetState, Close, Say;
    SayIsNoticed(c, Failed);
    CloseIsNoticed(Say(c, Failed));
    var c1 := if e.error then Close(Say(c, Failed)) else c;
    SayIsNoticed(c1, Readable);
    CloseIsNoticed(Say(c1, Readable));
    SayIsNoticed(c1, Failed);
    CloseIsNoticed(Say(c1, Failed));
    SetStateIsNoticed(c1, Connected);
    var up := if c1.state == Connecting then SetState(c1, Connected) else c1;
    SayIsNoticed(up, Writable);
    SayIsNoticed(if e.writable then Say(up, Writable) else c1, Readable);
  }

  lemma DoIsNoticed(c: Connection, op: Operation)
    ensures Noticed(c, Do(c, op))
  {
    hide Disconnects, Open, Process, Close, SetDescriptor;
    if c.client {
      match op
      case Opening(socket, failed) => OpenIsNoticed(c, socket, failed);
      case Waiting(_, socket, failed) => OpenIsNoticed(c, socket, failed);
      case _ =>
    } else {
      OpenRefused(c, op);
    }
    match op
    case Polled(event) => ProcessIsNoticed(c, event);
    case Closing => CloseIsNoticed(c);
    case Assigning(socket) => SetDescriptorIsNoticed(c, socket);
    case _ =>
  }

  lemma OpenRefused(c: Connection, op: Operation)
    requires !c.client
    ensures op.Opening? || op.Waiting? ==> Do(c, op) == c
  {
  }

  /** Each try comes at least the reconnect time after the one before. */
  ghost predicate Spaced(times: seq<int>, timeout: nat) {
    forall i :: 0 <= i < |times| - 1 ==> times[i] + timeout <= times[i + 1]
  }

  /** After a try, the handler is not disconnected, or the next try is due the reconnect time later at the earliest. */
  ghost predicate Waits(l: Link, timeout: nat, now: int) {
    && Spaced(l.tries, timeout)
    && (l.tries != [] ==>
          var last := l.tries[|l.tries| - 1];
          last <= now && (l.connection.state == Disconnected ==> last + timeout <= l.nextTry))
  }

  lemma HappenWaits(l: Link, timeout: nat, e: Timed, before: int)
    requires Waits(l, timeout, before) && before <= e.now
    ensures Waits(Happen(l, timeout, e), timeout, e.now)
  {
    hide Disconnects, Do, Open;
    var op := Told(l, timeout, e);
    DoIsNoticed(l.connection, op);
    if TriesToConnect(l, timeout, e) {
      OpenIsNoticed(l.connection, e.op.socket, e.op.failed);
      WaitingOpens(l.connection, op);
    }
  }

  lemma WaitingOpens(c: Connection, op: Operation)
    requires op.Waiting? && op.due && c.state == Disconnected
    ensures Do(c, op) == Open(c, op.socket, op.failed)
  {
  }

  /** In every run, whatever happens to the handler, the thread tries to connect no more often than once in its
      reconnect time, and never when that is 0. */
  lemma {:induction false} TriesAreSpaced(socket: Descriptor, timeout: nat, start: int, events: seq<Timed>)
    requires InTime(events)
    ensures Spaced(Threaded(socket, timeout, start, events).tries, timeout)
    ensures timeout == 0 ==> Threaded(socket, timeout, start, events).tries == []
  {
    TriesWait(socket, timeout, start, events, if events == [] then start else events[|events| - 1].now);
  }

  lemma {:induction false} TriesWait(socket: Descriptor, timeout: nat, start: int, events: seq<Timed>, now: int)
    requires InTime(events) && (events != [] ==> events[|events| - 1].now <= now)
    ensures Waits(Threaded(socket, timeout, start, events), timeout, now)
    ensures timeout == 0 ==> Threaded(socket, timeout, start, events).tries == []
  {
    hide Happen;
    if events != [] {
      var before, last := events[..|events| - 1], events[|events| - 1];
      assert InTime(before);
      TriesWait(socket, timeout, start, before, last.now);
      var l := Threaded(socket, timeout, start, before);
      HappenWaits(l, timeout, last, last.now);
      if timeout == 0 {
        NoTries(l, last);
      }
    }
  }

  lemma NoTries(l: Link, e: Timed)
    ensures Happen(l, 0, e).tries == l.tries
  {
  }

  // ---------- an open that fails at once ----------

  /** Connecting, but without a socket. */
  predicate Stranded(c: Connection) {
    c.state == Connecting && c.descriptor == INVALID
  }

  /** What the thread of a handler does with it by itself. */
  predicate OfThread(op: Operation) {
    op.Waiting? || op.Polled? || op.Closing?
  }

  /** The thread opens the handler, and the socket call fails at once. */
  predicate FailsAtOnce(c: Connection, op: Operation) {
    op.Waiting? && op.due && op.failed && c.client && c.state == Disconnected
  }

  /** Only an open that fails at once strands a handler, and then the thread never moves it again. */
  lemma StrandedStep(c: Connection, op: Operation)
    requires AtRest(c) && OfThread(op)
    ensures Stranded(c) ==> Do(c, op) == c
    ensures Stranded(Do(c, op)) <==> Stranded(c) || FailsAtOnce(c, op)
  {
  }

  /** A stranded handler is left to itself for good: nothing the thread does moves it, because it is not
      disconnected and so is never opened again. Only an open from outside that gets further, or a descriptor from
      outside, does. */
  lemma {:induction false} StrandedForGood(c: Connection, ops: seq<Operation>)
    requires Stranded(c)
    ensures (forall op <- ops :: OfThread(op)) ==> After(c, ops) == c
    ensures forall op: Operation :: Stranded(Do(c, op)) <==> OfThread(op) || (op.Opening? && (op.failed || !c.client))
  {
    if ops != [] && forall op <- ops :: OfThread(op) {
      assert ops[0] in ops;
      StrandedForGood(Do(c, ops[0]), ops[1..]);
    }
  }

  /** Some open in a run failed at once. */
  predicate SomeFailedAtOnce(start: Descriptor, ops: seq<Operation>) {
    ops != [] &&
    var before, last := ops[..|ops| - 1], ops[|ops| - 1];
    SomeFailedAtOnce(start, before) || FailsAtOnce(Run(start, before), last)
  }

  /** In every run of the thread, the handler is stranded iff some open so far failed at once. */
  lemma {:induction false} StrandedIffAnOpenFailedAtOnce(start: Descriptor, ops: seq<Operation>)
    ensures (forall op <- ops :: OfThread(op)) ==> (Stranded(Run(start, ops)) <==> SomeFailedAtOnce(start, ops))
  {
    hide Do, Stranded, FailsAtOnce, OfThread, AtRest, WellLogged;
    if ops == [] {
      NewIsNotStranded(start);
    } else if forall op <- ops :: OfThread(op) {
      var before, last := ops[..|ops| - 1], ops[|ops| - 1];
      assert last in ops && forall op <- before :: op in ops;
      StateFitsDescriptorOnEveryRun(start, before);
      StrandedIffAnOpenFailedAtOnce(start, before);
      StrandedStep(Run(start, before), last);
    }
  }

  lemma NewIsNotStranded(start: Descriptor)
    ensures !Stranded(New(start))
  {
  }

  /** After any run, the next open that is due and gets a socket leaves a client with one iff it is not stranded. */
  lemma {:induction false} ReopenedIffNotStranded(start: Descriptor, ops: seq<Operation>, socket: Descriptor)
    requires socket != INVALID && Run(start, ops).client
    ensures Do(Run(start, ops), Waiting(true, socket, false)).descriptor != INVALID <==> !Stranded(Run(start, ops))
  {
    hide Run, WellLogged;
    StateFitsDescriptorOnEveryRun(start, ops);
  }

  function After(c: Connection, ops: seq<Operation>): Connection
    decreases |ops|
  {
    if ops == [] then c else After(Do(c, ops[0]), ops[1..])
  }
}
