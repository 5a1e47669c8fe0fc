/** One connection after another over the same two handlers (Threads/ThreadHandler.cpp): what is left in the
    buffers when a connection is lost, and what the next one starts from. */
module ByteSessions {
  import opened Bytes
  import opened DataStreams
  import opened Extraction
  import opened PacketFraming
  import opened ByteChannel

  /** What a handler does on a change of its state. */
  function StateChanged(h: Handler, state: ConnectionState): Handler {
    ClearBuffers(h).(state := state)
  }

  /** The connection is lost, and another one is made. */
  function Reconnected(h: Handler): Handler {
    StateChanged(StateChanged(StateChanged(h, Disconnected), Connecting), Connected)
  }

  /** A new connection between the same handlers; nothing has been sent over it. */
  function NextConnection(c: Channel): Channel {
    Channel(Reconnected(c.sender), [], [], 0, Reconnected(c.receiver), [], [])
  }

  function RunOn(search: TagSearch, c: Channel, events: seq<Event>): (after: Channel)
    requires c.taken <= |c.wire|
    ensures after.taken <= |after.wire|
  {
    if events == [] then c else Step(search, RunOn(search, c, events[..|events| - 1]), events[|events| - 1])
  }

  /** The last of a number of connections, each with its own events; before the first, the handlers are new. */
  function Sessions(search: TagSearch, sessions: seq<seq<Event>>): (c: Channel)
    ensures c.taken <= |c.wire|
  {
    if sessions == [] then Start(0)
    else
      var before := Sessions(search, sessions[..|sessions| - 1]);
      RunOn(search, NextConnection(before), sessions[|sessions| - 1])
  }

  /** Without a connection nothing is written and nothing read; the device takes no more than there is, and
      nothing after an error. */
  lemma {:induction false} WithoutConnection(search: TagSearch, h: Handler, p: WirePacket, gap: seq<byte>, room: int,
                                             bytes: seq<byte>)
    requires |gap| == GapSize(h.output, h.position)
    ensures h.state != Connected ==> SendPacket(h, p, gap, room) == h
    ensures h.state == Disconnected ==> ReadyToRead(search, h, bytes) == Reading(h, [])
    ensures h.state != Disconnected ==>
      var all := ExtractAll(Framer(search), h.input + bytes);
      ReadyToRead(search, h, bytes) == Reading(h.(input := all.rest), all.packets)
    ensures var after := ReadyToWrite(h, room);
      && after.input == h.input && after.state == h.state
      && (room <= 0 ==> after == h) && (room >= |h.output| > 0 ==> after.output == [])
      && (0 < room < |h.output| ==> after.output == h.output[room..])
      && h.output == Outgoing(h.output, room) + after.output
  {
    hide WritePacket, ExtractAll, Framer;
  }

  lemma {:induction false} RunsFromStart(search: TagSearch, position: nat, events: seq<Event>)
    ensures RunOn(search, Start(position), events) == Run(search, position, events)
  {
    hide Step;
    if events != [] {
      RunsFromStart(search, position, events[..|events| - 1]);
    }
  }

  lemma StepKeepsReceiver(search: TagSearch, c: Channel, e: Event)
    requires c.taken <= |c.wire|
    ensures Step(search, c, e).receiver.position == c.receiver.position
  {
    hide Build, ExtractAll, Framer;
  }

  lemma {:induction false} ReceiverStaysAtStart(search: TagSearch, position: nat, events: seq<Event>)
    ensures Run(search, position, events).receiver.position == 0
  {
    hide Step;
    if events != [] {
      ReceiverStaysAtStart(search, position, events[..|events| - 1]);
      StepKeepsReceiver(search, Run(search, position, events[..|events| - 1]), events[|events| - 1]);
    }
  }

  lemma CleanStart(c: Channel)
    requires c.receiver.position == 0
    ensures NextConnection(c) == Start(c.sender.position)
  {
  }

  /** Every connection starts with empty buffers on both sides, whatever the one before had left in them; only the
      position of the sender's stream is handed on. */
  lemma {:induction false} SessionIsRun(search: TagSearch, sessions: seq<seq<Event>>)
    ensures Sessions(search, sessions).receiver.position == 0
    ensures sessions != [] ==>
      var position := Sessions(search, sessions[..|sessions| - 1]).sender.position;
      Sessions(search, sessions) == Run(search, position, sessions[|sessions| - 1])
  {
    hide Run, RunOn;
    if sessions != [] {
      var before, last := sessions[..|sessions| - 1], sessions[|sessions| - 1];
      SessionIsRun(search, before);
      CleanStart(Sessions(search, before));
      RunsFromStart(search, Sessions(search, before).sender.position, last);
      ReceiverStaysAtStart(search, Sessions(search, before).sender.position, last);
    }
  }

  /** In any sequence of connections, each of which may break off at any byte on either side: the last connection
      is a FIFO of the packets sent over it, unless unspecified bytes come before them, as many as the output
      buffer held at the last break after which something was sent; what the receiver had read of a packet that
      broke off is gone. */
  lemma {:induction false} EverySessionIsFifo(search: TagSearch, sessions: seq<seq<Event>>)
    requires sessions != []
    ensures var (before, c) := (Sessions(search, sessions[..|sessions| - 1]), Sessions(search, sessions));
      && c.wire + c.sender.output == c.garbage + Flatten(Texts(c.sent))
      && |c.garbage| == (if c.sent == [] then 0 else before.sender.position)
      && (c.garbage == [] ==> IsFifo(c))
      && c.sender.position == (if c.sent == [] then before.sender.position else |c.sender.output|)
  {
    hide Run, Sessions, Flatten, IsFifo;
    var position := Sessions(search, sessions[..|sessions| - 1]).sender.position;
    var last := sessions[|sessions| - 1];
    SessionIsRun(search, sessions);
    BothSidesOnEveryRun(search, position, last);
    if Sessions(search, sessions).garbage == [] {
      RefinesFifo(search, position, last);
    }
  }

  /** So all connections are FIFOs when each one breaks off with an empty output buffer. */
  ghost predicate AllDrained(search: TagSearch, sessions: seq<seq<Event>>) {
    sessions != [] ==>
      AllDrained(search, sessions[..|sessions| - 1]) && Sessions(search, sessions).sender.output == []
  }

  lemma {:induction false} DrainedSessionsAreFifo(search: TagSearch, sessions: seq<seq<Event>>)
    requires sessions != [] && AllDrained(search, sessions[..|sessions| - 1])
    ensures IsFifo(Sessions(search, sessions))
  {
    hide Sessions, IsFifo;
    var before := sessions[..|sessions| - 1];
    DrainedAtZero(search, before);
    EverySessionIsFifo(search, sessions);
  }

  lemma {:induction false} DrainedAtZero(search: TagSearch, sessions: seq<seq<Event>>)
    requires AllDrained(search, sessions)
    ensures Sessions(search, sessions).sender.position == 0
  {
    hide IsFifo;
    if sessions != [] {
      DrainedAtZero(search, sessions[..|sessions| - 1]);
      EverySessionIsFifo(search, sessions);
    }
  }
}
