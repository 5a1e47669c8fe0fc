/** The byte channel between two ThreadHandlers (Threads/ThreadHandler.cpp) on values: packets are written into an
    output buffer, the device accepts some of its bytes, the other side reads them in pieces and extracts
    packets. */
module ByteChannel {
  import opened Bytes
  import opened Packets
  import opened DataStreams
  import opened Extraction
  import opened PacketFraming
  import opened FramingTheorems

  datatype ConnectionState = Disconnected | Connecting | Connected

  /** The part of a handler thread that I/O changes; `position` is the cursor of its output stream. */
  datatype Handler = Handler(state: ConnectionState, input: seq<byte>, output: seq<byte>, position: nat)

  // ---------- operations of a handler ----------

  /** What the device's write returns when it has room for `room` bytes (negative: an error). */
  function Accepted(room: int, size: nat): (n: int)
    ensures n <= size
  {
    if room > size then size else room
  }

  function ReadyToWrite(h: Handler, room: int): Handler {
    var written := Accepted(room, |h.output|);
    if written <= 0 then h
    else h.(output := h.output[written..], position := Clamp(h.position - written, |h.output| - written))
  }

  function WritePacket(h: Handler, p: WirePacket, gap: seq<byte>): Handler
    requires |gap| == GapSize(h.output, h.position)
  {
    var withHeader := Overwritten(h.output, h.position, WriteHeader(p.header), gap);
    h.(output := Overwritten(withHeader, h.position + HEADER_SIZE, p.data, []),
       position := h.position + HEADER_SIZE + |p.data|)
  }

  function SendPacket(h: Handler, p: WirePacket, gap: seq<byte>, room: int): Handler
    requires |gap| == GapSize(h.output, h.position)
  {
    if h.state != Connected then h else ReadyToWrite(WritePacket(h, p, gap), room)
  }

  datatype Reading = Reading(handler: Handler, packets: seq<WirePacket>)

  function ReadyToRead(search: TagSearch, h: Handler, bytes: seq<byte>): Reading {
    if h.state == Disconnected then Reading(h, [])
    else
      var found := ExtractAll(Framer(search), h.input + bytes);
      Reading(h.(input := found.rest), found.packets)
  }

  /** clearBuffers: the stream keeps its position. */
  function ClearBuffers(h: Handler): Handler {
    h.(input := [], output := [])
  }

  // ---------- one connection ----------

  /** The bytes a sender's device accepted (`wire`), how many of them the receiver has read (`taken`), and the packets
      sent and received so far. `garbage` is what the first write put before the first packet. */
  datatype Channel = Channel(
    sender: Handler, wire: seq<byte>, garbage: seq<byte>, taken: nat, receiver: Handler,
    sent: seq<WirePacket>, received: seq<WirePacket>)

  datatype Event =
    | Send(packetType: PacketType, packetId: uint32, data: ByteArray, gap: seq<byte>, room: int)
    | DeviceReady(room: int)
    | BytesArrive(count: nat)

  /** The bytes a device with this much room takes from the front of the buffer. */
  function Outgoing(output: seq<byte>, room: int): seq<byte> {
    if Accepted(room, |output|) <= 0 then [] else output[..Accepted(room, |output|)]
  }

  function Step(search: TagSearch, c: Channel, e: Event): Channel
    requires c.taken <= |c.wire|
  {
    match e
    case Send(packetType, packetId, data, gap, room) =>
      if c.sender.state != Connected || |gap| != GapSize(c.sender.output, c.sender.position) then c
      else
        var p := Build(packetType, packetId, data);
        var written := WritePacket(c.sender, p, gap);
        c.(sender := SendPacket(c.sender, p, gap, room), wire := c.wire + Outgoing(written.output, room),
           garbage := c.garbage + gap, sent := c.sent + [p])
    case DeviceReady(room) =>
      c.(sender := ReadyToWrite(c.sender, room), wire := c.wire + Outgoing(c.sender.output, room))
    case BytesArrive(count) =>
      var end := if c.taken + count > |c.wire| then |c.wire| else c.taken + count;
      if c.receiver.state == Disconnected then c
      else
        var reading := ReadyToRead(search, c.receiver, c.wire[c.taken..end]);
        c.(taken := end, receiver := reading.handler, received := c.received + reading.packets)
  }

  /** A connection starts with cleared buffers; the sender's stream stands where the previous connection left it. */
  function Start(position: nat): Channel {
    Channel(Handler(Connected, [], [], position), [], [], 0, Handler(Connected, [], [], 0), [], [])
  }

  function Run(search: TagSearch, position: nat, events: seq<Event>): (c: Channel)
    ensures c.taken <= |c.wire|
  {
    if events == [] then Start(position)
    else Step(search, Run(search, position, events[..|events| - 1]), events[|events| - 1])
  }

  function Texts(packets: seq<WirePacket>): (texts: seq<seq<byte>>)
    ensures |texts| == |packets|
  {
    seq(|packets|, i requires 0 <= i < |packets| => Write(packets[i]))
  }

  // ---------- what one connection keeps ----------

  /** Sender side: wire and buffer together are the packets as written, after the garbage, if there is any. */
  ghost predicate SenderSide(position: nat, c: Channel) {
    && c.wire + c.sender.output == c.garbage + Flatten(Texts(c.sent))
    && (forall p <- c.sent :: Built(p))
    && c.sender.state == Connected
    && (if c.sent == [] then c.garbage == [] && c.sender.position == position && c.sender.output == []
        else |c.garbage| == position && c.sender.position == |c.sender.output|)
  }

  /** Receiver side: what was extracted and what is left are those of all bytes read so far, taken at once. */
  ghost predicate ReceiverSide(search: TagSearch, c: Channel) {
    && c.taken <= |c.wire| && c.receiver.state == Connected
    && ExtractAll(Framer(search), c.wire[..c.taken]) == Found(c.received, c.receiver.input)
  }

  lemma WrittenAtEnd(h: Handler, p: WirePacket, gap: seq<byte>)
    requires h.position >= |h.output| && |gap| == GapSize(h.output, h.position)
    ensures WritePacket(h, p, gap).output == h.output + gap + Write(p)
    ensures WritePacket(h, p, gap).position == |h.output + gap + Write(p)|
  {
    var withHeader := Overwritten(h.output, h.position, WriteHeader(p.header), gap);
    assert withHeader == h.output + gap + WriteHeader(p.header);
  }

  /** What the device takes leaves the buffer, and the cursor stays at its end. */
  lemma FlushKeepsStream(wire: seq<byte>, h: Handler, room: int)
    requires h.position == |h.output|
    ensures var after := ReadyToWrite(h, room);
      && wire + Outgoing(h.output, room) + after.output == wire + h.output
      && after.position == |after.output| && after.state == h.state
  {
  }

  lemma SendExtendsStream(wire: seq<byte>, h: Handler, p: WirePacket, gap: seq<byte>, room: int)
    requires h.state == Connected && h.position >= |h.output| && |gap| == GapSize(h.output, h.position)
    ensures var after := SendPacket(h, p, gap, room);
      && wire + Outgoing(WritePacket(h, p, gap).output, room) + after.output == wire + h.output + gap + Write(p)
      && after.position == |after.output| && after.state == Connected
  {
    WrittenAtEnd(h, p, gap);
    FlushKeepsStream(wire, WritePacket(h, p, gap), room);
    assert wire + (h.output + gap + Write(p)) == wire + h.output + gap + Write(p);
  }

  lemma TextsSnoc(sent: seq<WirePacket>, p: WirePacket)
    ensures Flatten(Texts(sent + [p])) == Flatten(Texts(sent)) + Write(p)
  {
    assert Texts(sent + [p]) == Texts(sent) + [Write(p)];
    FlattenSnoc(Texts(sent), Write(p));
  }

  lemma SendKeepsSenderSide(search: TagSearch, position: nat, c: Channel, e: Event)
    requires e.Send? && SenderSide(position, c) && c.taken <= |c.wire|
    ensures SenderSide(position, Step(search, c, e))
  {
    hide Build, Flatten, Texts, WritePacket, SendPacket, Outgoing, Write;
    if |e.gap| == GapSize(c.sender.output, c.sender.position) {
      var p := Build(e.packetType, e.packetId, e.data);
      SendExtendsStream(c.wire, c.sender, p, e.gap, e.room);
      TextsSnoc(c.sent, p);
      if c.sent == [] {
        NoTexts(c.sent);
        assert c.garbage + e.gap + ([] + Write(p)) == c.garbage + [] + [] + e.gap + Write(p);
      } else {
        assert c.garbage + e.gap == c.garbage;
        assert c.garbage + Flatten(Texts(c.sent)) + [] + Write(p) == c.garbage + (Flatten(Texts(c.sent)) + Write(p));
      }
    }
  }

  lemma NoTexts(sent: seq<WirePacket>)
    requires sent == []
    ensures Flatten(Texts(sent)) == []
  {
  }

  lemma StepKeepsSenderSide(search: TagSearch, position: nat, c: Channel, e: Event)
    requires SenderSide(position, c) && c.taken <= |c.wire|
    ensures SenderSide(position, Step(search, c, e))
  {
    match e
    case Send(_, _, _, _, _) => SendKeepsSenderSide(search, position, c, e);
    case DeviceReady(room) =>
      if c.sent != [] {
        FlushKeepsStream(c.wire, c.sender, room);
      }
    case BytesArrive(_) =>
  }

  lemma StepKeepsReceiverSide(search: TagSearch, c: Channel, e: Event)
    requires ReceiverSide(search, c)
    ensures ReceiverSide(search, Step(search, c, e))
  {
    hide ExtractAll, Framer;
    var after := Step(search, c, e);
    if e.BytesArrive? {
      FramerStable(search);
      ExtractAllInTwo(Framer(search), c.wire[..c.taken], c.wire[c.taken..after.taken]);
      assert after.wire[..after.taken] == c.wire[..c.taken] + c.wire[c.taken..after.taken];
    } else {
      assert after.wire[..c.taken] == c.wire[..c.taken];
    }
  }

  lemma {:induction false} BothSidesOnEveryRun(search: TagSearch, position: nat, events: seq<Event>)
    ensures SenderSide(position, Run(search, position, events)) && ReceiverSide(search, Run(search, position, events))
  {
    if events == [] {
      assert Start(position).wire[..0] == [];
    } else {
      var before := events[..|events| - 1];
      BothSidesOnEveryRun(search, position, before);
      StepKeepsSenderSide(search, position, Run(search, position, before), events[|events| - 1]);
      StepKeepsReceiverSide(search, Run(search, position, before), events[|events| - 1]);
    }
  }

  lemma SentReadBack(search: TagSearch, sent: seq<WirePacket>)
    requires forall p <- sent :: Built(p)
    ensures AllReadBack(Framer(search), Texts(sent), sent)
  {
    forall i | 0 <= i < |sent| ensures ReadsBack(Framer(search), Texts(sent)[i], sent[i]) {
      BuiltPacketReadsBack(search, sent[i]);
    }
  }

  /** The stream is the packets sent, as written; received are those whose last byte was read. */
  ghost predicate IsFifo(c: Channel) {
    var texts := Texts(c.sent);
    && c.wire + c.sender.output == Flatten(texts) && c.taken <= |c.wire|
    && var k := Whole(texts, c.taken);
       && c.received == c.sent[..k]
       && |Flatten(texts[..k])| <= c.taken && (k < |texts| ==> c.taken < |Flatten(texts[..k + 1])|)
       && c.receiver.input == Flatten(texts)[|Flatten(texts[..k])|..c.taken]
       && (c.sender.output == [] && c.taken == |c.wire| ==> c.received == c.sent && c.receiver.input == [])
  }

  /** The byte channel refines a FIFO of packets. Whatever the order of sends, partial writes and reads of any
      size in one connection that starts at stream position 0: wire and output buffer are the packets sent, as
      written; received are exactly the packets whose last byte was read, first to last; and after everything was
      read, all of them. */
  lemma {:induction false} ByteChannelRefinesFifo(search: TagSearch, events: seq<Event>)
    ensures IsFifo(Run(search, 0, events))
  {
    RefinesFifo(search, 0, events);
  }

  /** Likewise from any position, when the stream of the connection has no garbage in front. */
  lemma RefinesFifo(search: TagSearch, position: nat, events: seq<Event>)
    requires position == 0 || Run(search, position, events).sent == []
    ensures IsFifo(Run(search, position, events))
  {
    hide ExtractAll, Framer, Flatten, Whole, Run;
    var c := Run(search, position, events);
    var texts := Texts(c.sent);
    BothSidesOnEveryRun(search, position, events);
    assert c.garbage == [];
    assert [] + Flatten(texts) == Flatten(texts);
    SentReadBack(search, c.sent);
    NothingInNothing(search);
    PrefixOfStream(Framer(search), texts, c.sent, c.taken);
    assert c.wire[..c.taken] == (c.wire + c.sender.output)[..c.taken];
    if c.sender.output == [] && c.taken == |c.wire| {
      assert c.taken == |Flatten(texts)|;
      WholeStream(texts);
      assert texts[..|texts|] == texts && c.sent[..|texts|] == c.sent;
    }
  }

  lemma NothingInNothing(search: TagSearch)
    ensures Framer(search)([]).Waiting? && Framer(search)([]).rest == []
  {
  }

  /** On streams of built packets, cut anywhere, the search as compiled and the search as declared find the same. */
  lemma {:induction false} SearchesAgree(sent: seq<WirePacket>, n: nat)
    requires (forall p <- sent :: Built(p)) && n <= |Flatten(Texts(sent))|
    ensures ExtractAll(Framer(AsCompiled), Flatten(Texts(sent))[..n])
         == ExtractAll(Framer(AsDeclared), Flatten(Texts(sent))[..n])
  {
    forall search: TagSearch
      ensures ExtractsWhole(Framer(search), Texts(sent), sent, n)
    {
      SentReadBack(search, sent);
      NothingInNothing(search);
      PrefixOfStream(Framer(search), Texts(sent), sent, n);
    }
  }

  // ---------- the position that clearBuffers leaves ----------

  /** In the connection that follows, the first packet stands behind as many unspecified bytes as the output buffer held
      when it was cleared: it is written as it should be iff everything had been accepted by then. */
  lemma {:induction false} FirstPacketAfterReconnect(search: TagSearch, events: seq<Event>,
                                                     p: WirePacket, gap: seq<byte>)
    ensures var h := Run(search, 0, events).sender;
      var cleared := ClearBuffers(h);
      |gap| == GapSize(cleared.output, cleared.position) ==>
        var after := WritePacket(cleared, p, gap);
        after.output == gap + Write(p) && (after.output == Write(p) <==> h.output == [])
  {
    hide Run;
    BothSidesOnEveryRun(search, 0, events);
    var h := Run(search, 0, events).sender;
    var cleared := ClearBuffers(h);
    if |gap| == GapSize(cleared.output, cleared.position) {
      WrittenAtEnd(cleared, p, gap);
      assert [] + gap == gap;
      assert |gap| == |h.output|;
    }
  }

  /** From a stale position the whole stream of a connection is shifted: the garbage comes first, every packet
      after it. */
  lemma {:induction false} StaleStreamIsShifted(search: TagSearch, position: nat, events: seq<Event>)
    ensures var c := Run(search, position, events);
      && c.wire + c.sender.output == c.garbage + Flatten(Texts(c.sent))
      && (c.wire + c.sender.output == Flatten(Texts(c.sent)) <==> position == 0 || c.sent == [])
  {
    hide Run, Flatten;
    BothSidesOnEveryRun(search, position, events);
    var c := Run(search, position, events);
    if c.garbage == [] {
      assert [] + Flatten(Texts(c.sent)) == Flatten(Texts(c.sent));
    }
  }
}
