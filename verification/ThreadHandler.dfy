/** ThreadHandler (Threads/ThreadHandler.cpp): the buffers of a connection, as the loops of the thread change them. What
    the device returns (room for writing, the results of its reads) is an argument. */
module ThreadHandlers {
  import opened Bytes
  import opened DataStreams
  import opened Extraction
  import opened PacketFraming
  import opened FramingTheorems
  import C = ByteChannel

  /** The bytes of successive reads, up to the first that returns nothing. */
  function UntilEmpty(parts: seq<seq<byte>>): seq<byte> {
    if parts == [] || parts[0] == [] then [] else parts[0] + UntilEmpty(parts[1..])
  }

  /** Successive reads: all of them before the first that returns nothing, whole and in order. */
  lemma {:induction false} ReadsUntilEmpty(parts: seq<seq<byte>>, k: nat)
    requires k <= |parts| && (forall i :: 0 <= i < k ==> parts[i] != []) && (k < |parts| ==> parts[k] == [])
    ensures UntilEmpty(parts) == Flatten(parts[..k])
  {
    if k > 0 {
      ReadsUntilEmpty(parts[1..], k - 1);
      assert parts[..k] == [parts[0]] + parts[1..][..k - 1];
    }
  }

  class ThreadHandler {
    const search: TagSearch
    const inputBuffer: ByteBuffer
    const outputBuffer: ByteBuffer
    const outputStream: DataStream
    var state: C.ConnectionState

    ghost predicate Valid() {
      outputStream.data == outputBuffer && inputBuffer != outputBuffer
    }

    ghost function View(): C.Handler
      reads this, inputBuffer, outputBuffer, outputStream
    {
      C.Handler(state, inputBuffer.bytes, outputBuffer.bytes, outputStream.position)
    }

    constructor (search: TagSearch)
      ensures Valid() && View() == C.Handler(C.Disconnected, [], [], 0)
      ensures fresh(inputBuffer) && fresh(outputBuffer) && fresh(outputStream) && this.search == search
    {
      this.search := search;
      var input := new ByteBuffer([]);
      var output := new ByteBuffer([]);
      inputBuffer, outputBuffer := input, output;
      outputStream := new DataStream(output);
      state := C.Disconnected;
    }

    method ClearBuffers()
      requires Valid()
      modifies inputBuffer, outputBuffer
      ensures View() == C.ClearBuffers(old(View()))
    {
      inputBuffer.bytes := [];
      outputBuffer.bytes := [];
    }

    method SlotOnConnectionStateChanged(newState: C.ConnectionState)
      requires Valid()
      modifies this, inputBuffer, outputBuffer
      ensures View() == C.ClearBuffers(old(View())).(state := newState)
    {
      state := newState;
      ClearBuffers();
    }

    /** DataFramesPacket::write. */
    method WritePacket(packet: WirePacket) returns (ghost gap: seq<byte>)
      requires Valid()
      modifies outputBuffer, outputStream
      ensures |gap| == GapSize(old(outputBuffer.bytes), old(outputStream.position))
      ensures View() == C.WritePacket(old(View()), packet, gap)
    {
      gap := outputStream.Write(WriteHeader(packet.header));
      ghost var none := outputStream.Write(packet.data);
      assert none == [];
    }

    /** Returns the bytes the device took. */
    method SlotOnReadyToWrite(room: int) returns (taken: seq<byte>)
      requires Valid()
      modifies outputBuffer, outputStream
      ensures View() == C.ReadyToWrite(old(View()), room)
      ensures taken == C.Outgoing(old(outputBuffer.bytes), room)
    {
      taken := [];
      if |outputBuffer.bytes| == 0 {
        return;
      }
      var written := C.Accepted(room, |outputBuffer.bytes|);
      if written > 0 {
        taken := outputBuffer.bytes[..written];
        outputBuffer.bytes := outputBuffer.bytes[written..];
        outputStream.SetPosition(outputStream.position - written);
      }
    }

    method SendPacket(packet: Option<WirePacket>, room: int) returns (ok: bool, taken: seq<byte>, ghost gap: seq<byte>)
      requires Valid()
      modifies outputBuffer, outputStream
      ensures ok == (packet.Some? && state == C.Connected)
      ensures !ok ==> View() == old(View()) && taken == []
      ensures ok ==>
        && |gap| == GapSize(old(outputBuffer.bytes), old(outputStream.position))
        && View() == C.SendPacket(old(View()), packet.value, gap, room)
        && taken == C.Outgoing(C.WritePacket(old(View()), packet.value, gap).output, room)
    {
      if packet.None? || state != C.Connected {
        return false, [], [];
      }
      gap := WritePacket(packet.value);
      taken := SlotOnReadyToWrite(room);
      ok := true;
    }

    method SlotOnReadyToRead(parts: seq<seq<byte>>) returns (packets: seq<WirePacket>)
      requires Valid()
      modifies inputBuffer
      ensures C.Reading(View(), packets) == C.ReadyToRead(search, old(View()), UntilEmpty(parts))
    {
      packets := [];
      if state == C.Disconnected {
        return;
      }
      var localInput: seq<byte> := [];
      var i := 0;
      while i < |parts| && |parts[i]| > 0
        invariant i <= |parts| && localInput + UntilEmpty(parts[i..]) == UntilEmpty(parts)
      {
        assert parts[i..][1..] == parts[i + 1..];
        localInput := localInput + parts[i];
        i := i + 1;
      }
      assert localInput == UntilEmpty(parts);
      inputBuffer.bytes := inputBuffer.bytes + localInput;
      packets := ExtractPackets();
    }

    /** Takes packets off the input buffer for as long as there are any. */
    method ExtractPackets() returns (packets: seq<WirePacket>)
      requires Valid()
      modifies inputBuffer
      ensures Found(packets, inputBuffer.bytes) == ExtractAll(Framer(search), old(inputBuffer.bytes))
    {
      hide ExtractAll, Framer, Extract;
      packets := [];
      ghost var all := ExtractAll(Framer(search), inputBuffer.bytes);
      assert all.packets == [] + all.packets;
      while true
        invariant var more := ExtractAll(Framer(search), inputBuffer.bytes);
          all == Found(packets + more.packets, more.rest)
        decreases |inputBuffer.bytes|
      {
        ghost var before := inputBuffer.bytes;
        OnePacketOff(search, before, packets);
        var packet, rest, result := TryExtractPacket(search, inputBuffer.bytes);
        inputBuffer.bytes := rest;
        if packet.None? {
          return;
        }
        packets := packets + [packet.value];
      }
    }
  }

  /** What one attempt means for all that can be extracted. */
  lemma OnePacketOff(search: TagSearch, data: seq<byte>, packets: seq<WirePacket>)
    ensures match Extract(search, data)
      case Extracted(p, rest) =>
        && |rest| < |data|
        && ExtractAll(Framer(search), data).rest == ExtractAll(Framer(search), rest).rest
        && packets + ExtractAll(Framer(search), data).packets
           == packets + [p] + ExtractAll(Framer(search), rest).packets
      case Waiting(rest, _) =>
        && ExtractAll(Framer(search), data).rest == rest
        && packets + ExtractAll(Framer(search), data).packets == packets
  {
    hide Extract;
    ExtractStable(search, data, []);
    match Extract(search, data)
    case Extracted(p, rest) =>
      var more := ExtractAll(Framer(search), rest).packets;
      assert packets + ([p] + more) == packets + [p] + more;
    case Waiting(_, _) =>
      assert packets + [] == packets;
  }
}
