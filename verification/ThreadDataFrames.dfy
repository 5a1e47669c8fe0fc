/** The endpoint as the program keeps it: packet objects shared between the queue and the current packet, renumbered
    in place. Every method is proved against DeliveryProtocol. */
module ThreadDataFrames {
  import opened Bytes
  import opened Packets
  import P = DeliveryProtocol

  class DataFramesPacket {
    const packetType: PacketType
    const data: ByteArray
    ghost const serial: nat
    var packetId: uint32

    constructor (packetType: PacketType, data: ByteArray, packetId: uint32, ghost serial: nat)
      ensures View() == P.Packet(packetType, packetId, data, serial)
    {
      this.packetType := packetType;
      this.data := data;
      this.packetId := packetId;
      this.serial := serial;
    }

    ghost function View(): P.Packet
      reads this
    {
      P.Packet(packetType, packetId, data, serial)
    }

    method SetPacketId(id: uint32)
      modifies this
      ensures View() == old(View()).(packetId := id)
    {
      packetId := id;
    }
  }

  class QueueDataFramesPackets {
    var packets: seq<DataFramesPacket>
    ghost var contents: seq<P.Packet>

    constructor ()
      ensures Valid() && packets == []
    {
      packets, contents := [], [];
    }

    /** The packets are distinct objects, and `contents` is what they hold. */
    ghost predicate Valid()
      reads this, packets
    {
      && |contents| == |packets|
      && (forall i, j :: 0 <= i < j < |packets| ==> packets[i] != packets[j])
      && (forall i :: 0 <= i < |packets| ==> packets[i].View() == contents[i])
    }

    method Enqueue(packet: DataFramesPacket?) returns (count: int)
      requires Valid() && packet !in packets
      modifies this
      ensures Valid()
      ensures packet == null ==> count == -1 && packets == old(packets) && contents == old(contents)
      ensures packet != null ==>
        && packets == old(packets) + [packet] && contents == old(contents) + [packet.View()] && count == |packets|
    {
      if packet == null {
        return -1;
      }
      packets := packets + [packet];
      contents := contents + [packet.View()];
      count := |packets|;
    }

    method First() returns (packet: DataFramesPacket?)
      ensures packet == if packets == [] then null else packets[0]
    {
      packet := if |packets| > 0 then packets[0] else null;
    }

    method RemoveAt(i: nat)
      requires Valid() && i < |packets|
      modifies this
      ensures Valid() && |packets| == |old(packets)| - 1 && Among(packets, old(packets))
      ensures contents[..i] == old(contents)[..i] && contents[i..] == old(contents)[i + 1..]
    {
      packets := packets[..i] + packets[i + 1..];
      contents := contents[..i] + contents[i + 1..];
    }

    /** Removes every packet with the id, walking backwards. */
    method ApplyTicket(id: uint32) returns (count: nat)
      requires Valid()
      modifies this
      ensures Valid() && Among(packets, old(packets))
      ensures contents == P.Select(old(contents), id, false)
      ensures count == |P.Select(old(contents), id, true)| && (count == 0 ==> packets == old(packets))
    {
      hide P.Select;
      count := 0;
      var i := |packets|;
      ghost var view := contents;
      SelectNothing(view[i..], id);
      while i > 0
        invariant Valid() && Among(packets, old(packets)) && (count == 0 ==> packets == old(packets))
        invariant 0 <= i <= |contents| && i <= |view| && contents[..i] == view[..i]
        invariant contents[i..] == P.Select(view[i..], id, false)
        invariant count == |P.Select(view[i..], id, true)|
      {
        i := i - 1;
        var packet := packets[i];
        assert packet.View() == contents[i] == view[i];
        SelectFrom(view, i, id, true);
        SelectFrom(view, i, id, false);
        if packet.packetId == id {
          RemoveAt(i);
          count := count + 1;
        } else {
          assert contents[i..] == [contents[i]] + contents[i + 1..];
        }
      }
      assert view[0..] == view && contents[0..] == contents;
    }

    /** Sets every id to 0. */
    method Reset()
      requires Valid()
      modifies packets, this`contents
      ensures Valid() && packets == old(packets) && contents == P.ClearIds(old(contents))
    {
      for i := 0 to |packets|
        invariant packets == old(packets) && contents == old(contents)
        invariant forall k :: 0 <= k < |packets| ==>
          packets[k].packetId == if k < i then P.PACKET_ID_EMPTY else old(packets[k].packetId)
      {
        packets[i].SetPacketId(P.PACKET_ID_EMPTY);
      }
      contents := P.ClearIds(contents);
    }
  }

  ghost predicate Among(packets: seq<DataFramesPacket>, all: seq<DataFramesPacket>) {
    forall p :: p in packets ==> p in all
  }

  lemma SelectFrom(view: seq<P.Packet>, i: nat, id: uint32, carrying: bool)
    requires i < |view|
    ensures P.Select(view[i..], id, carrying)
         == (if (view[i].packetId == id) == carrying then [view[i]] else []) + P.Select(view[i + 1..], id, carrying)
  {
    assert view[i..][1..] == view[i + 1..];
  }

  lemma SelectNothing(view: seq<P.Packet>, id: uint32)
    requires view == []
    ensures forall carrying :: P.Select(view, id, carrying) == []
  {
  }

  class DataFramesPacketFactory {
    var packetId: uint32

    constructor ()
      ensures packetId == 0
    {
      packetId := 0;
    }

    method GenerateNextPacketId() returns (id: uint32)
      requires packetId < P.PACKET_ID_LIMIT
      modifies this
      ensures id == packetId == P.NextId(old(packetId))
      ensures id == if old(packetId) + 1 >= 0x1FFF_FFFF then 1 else old(packetId) + 1
    {
      packetId := packetId + 1;
      if packetId >= P.PACKET_ID_LIMIT {
        packetId := 1;
      }
      id := packetId;
    }

    /** A packet in answer to the given id; nothing for the empty id. */
    method BuildPacketTicket(id: uint32) returns (ticket: DataFramesPacket?)
      requires packetId < P.PACKET_ID_LIMIT
      modifies this
      ensures id == P.PACKET_ID_EMPTY ==> ticket == null && packetId == old(packetId)
      ensures id != P.PACKET_ID_EMPTY ==>
        ticket != null && fresh(ticket) && packetId == P.NextId(old(packetId))
        && ticket.View() == P.Packet(Ticket, packetId, Le32(id), 0)
    {
      if id == P.PACKET_ID_EMPTY {
        return null;
      }
      var ticketId := GenerateNextPacketId();
      ticket := new DataFramesPacket(Ticket, Le32(id), ticketId, 0);
    }
  }

  datatype OutgoingFrame = OutgoingFrame(needsTicket: bool, data: ByteArray)

  class ThreadDataFrames {
    const queuePackets: QueueDataFramesPackets?
    const factory: DataFramesPacketFactory
    var currentPacket: DataFramesPacket?
    var connected: bool
    var lastPacketSent: int
    var nextPacketId: int
    // history: the packets written, the payloads enqueued, the number of ids drawn
    ghost var sent: seq<P.Packet>
    ghost var accepted: seq<ByteArray>
    ghost var generated: nat

    constructor (useQueue: bool)
      ensures Valid() && fresh(Objects()) && View() == P.Initial(useQueue) && sent == []
    {
      var queue: QueueDataFramesPackets? := null;
      if useQueue {
        queue := new QueueDataFramesPackets();
      }
      queuePackets := queue;
      factory := new DataFramesPacketFactory();
      currentPacket := null;
      connected, lastPacketSent, nextPacketId := false, 0, -1;
      sent, accepted, generated := [], [], 0;
    }

    /** Everything this thread may change. */
    ghost function Objects(): set<object>
      reads this, queuePackets
    {
      if queuePackets == null then {this, factory}
      else {this, factory, queuePackets} + set p: DataFramesPacket | p in queuePackets.packets
    }

    ghost predicate Valid()
      reads this, Objects()
    {
      && factory.packetId < P.PACKET_ID_LIMIT
      && (queuePackets == null ==> currentPacket == null)
      && (queuePackets != null ==> queuePackets.Valid())
      && (currentPacket != null ==> queuePackets.packets != [] && currentPacket == queuePackets.packets[0])
    }

    ghost function View(): (e: P.Endpoint)
      reads this, Objects()
      requires Valid()
      ensures e.Valid()
    {
      P.Endpoint(queuePackets != null, connected, if queuePackets == null then [] else queuePackets.contents,
                 currentPacket != null, factory.packetId, lastPacketSent, nextPacketId, accepted, generated)
    }

    method SendPacket(packet: DataFramesPacket?, now: int) returns (result: bool)
      requires Valid()
      modifies this`lastPacketSent, this`sent
      ensures Valid()
      ensures result == (packet != null && connected)
      ensures packet == null ==> View() == old(View()) && sent == old(sent)
      ensures packet != null ==>
        var out := P.Transmit(old(View()), packet.View(), now); View() == out.endpoint && sent == old(sent) + out.sent
    {
      if packet == null || !connected {
        return false;
      }
      sent := sent + [packet.View()];
      lastPacketSent := now;
      result := true;
    }

    method ProcessQueue(now: int)
      requires Valid()
      modifies Objects()
      ensures Valid() && Objects() == old(Objects())
      ensures var out := P.ProcessQueue(old(View()), now); View() == out.endpoint && sent == old(sent) + out.sent
    {
      if queuePackets == null {
        return;
      }
      if currentPacket != null {
        if lastPacketSent + P.RESEND_DELAY < now {
          var _ := SendPacket(currentPacket, now);
        }
      } else {
        currentPacket := queuePackets.First();
        if currentPacket != null {
          NumberCurrent();
          var _ := SendPacket(currentPacket, now);
        }
      }
    }

    /** The current packet, just taken from the queue, gets the next id. */
    method NumberCurrent()
      requires Valid() && currentPacket != null
      modifies currentPacket, queuePackets`contents, factory, this`generated
      ensures Valid() && Objects() == old(Objects())
      ensures var drawn := P.DrawId(old(View()));
        View() == drawn.(queue := [drawn.queue[0].(packetId := drawn.counter)] + drawn.queue[1..])
    {
      var id := factory.GenerateNextPacketId();
      generated := generated + 1;
      currentPacket.SetPacketId(id);
      queuePackets.contents := [currentPacket.View()] + queuePackets.contents[1..];
    }

    /** The number of packets the ticket removed; -1 without a queue. */
    method ApplyTicket(id: uint32, now: int) returns (result: int)
      requires Valid()
      modifies Objects()
      ensures Valid() && Objects() <= old(Objects())
      ensures var out := P.ApplyTicket(old(View()), id, now);
        && View() == out.endpoint && sent == old(sent) + out.sent
        && result == if queuePackets == null then -1 else |out.removed|
    {
      hide P.Select, P.ProcessQueue;
      if queuePackets == null {
        return -1;
      }
      result := queuePackets.ApplyTicket(id);
      if result > 0 {
        currentPacket := null;
        ProcessQueue(now);
      } else {
        SelectedAll(old(queuePackets.contents), id);
      }
    }

    /** The two ways of sending a frame: behind the queue, or directly under a fresh id. */
    method SendThroughQueue(data: ByteArray, now: int)
      requires Valid() && queuePackets != null
      modifies Objects()
      ensures Valid() && fresh(Objects() - old(Objects()))
      ensures var out := P.SendFrame(old(View()), true, data, now);
        View() == out.endpoint && sent == old(sent) + out.sent
    {
      var packet := new DataFramesPacket(NeedsTicket, data, P.PACKET_ID_EMPTY, |accepted|);
      var _ := queuePackets.Enqueue(packet);
      accepted := accepted + [data];
      ProcessQueue(now);
    }

    method SendDirectly(packet: DataFramesPacket, now: int)
      requires Valid() && packet !in Objects()
      modifies this`sent, this`lastPacketSent, this`generated, factory, packet
      ensures Valid() && Objects() == old(Objects())
      ensures var drawn := P.DrawId(old(View()));
        var out := P.Transmit(drawn, old(packet.View()).(packetId := drawn.counter), now);
        View() == out.endpoint && sent == old(sent) + out.sent
    {
      var id := factory.GenerateNextPacketId();
      generated := generated + 1;
      packet.SetPacketId(id);
      var _ := SendPacket(packet, now);
    }

    /** A frame to send is what it needs and its bytes; null and a frame without a definition are None and refused. */
    method SendFrame(frame: Option<OutgoingFrame>, now: int) returns (ok: bool)
      requires Valid()
      modifies Objects()
      ensures Valid() && fresh(Objects() - old(Objects())) && ok == frame.Some?
      ensures frame.None? ==> View() == old(View()) && sent == old(sent)
      ensures frame.Some? ==>
        var out := P.SendFrame(old(View()), frame.value.needsTicket, frame.value.data, now);
        View() == out.endpoint && sent == old(sent) + out.sent
    {
      if frame.None? {
        return false;
      }
      var OutgoingFrame(needsTicket, data) := frame.value;
      if queuePackets != null && needsTicket {
        SendThroughQueue(data, now);
      } else {
        var packetType := if needsTicket then NeedsTicket else WithoutTicket;
        var packet := new DataFramesPacket(packetType, data, P.PACKET_ID_EMPTY, 0);
        SendDirectly(packet, now);
      }
      ok := true;
    }

    method ResetQueue()
      requires Valid()
      modifies Objects()
      ensures Valid() && Objects() == old(Objects())
      ensures View() == P.ResetQueue(old(View())).endpoint && sent == old(sent)
    {
      currentPacket := null;
      if queuePackets != null {
        queuePackets.Reset();
      }
    }

    method AnswerWithTicket(packetId: uint32, now: int)
      requires Valid()
      modifies this`sent, this`lastPacketSent, this`generated, factory
      ensures Valid() && Objects() == old(Objects())
      ensures packetId == P.PACKET_ID_EMPTY ==> View() == old(View()) && sent == old(sent)
      ensures packetId != P.PACKET_ID_EMPTY ==>
        var drawn := P.DrawId(old(View()));
        var out := P.Transmit(drawn, P.Packet(Ticket, drawn.counter, Le32(packetId), 0), now);
        View() == out.endpoint && sent == old(sent) + out.sent
    {
      var ticket := factory.BuildPacketTicket(packetId);
      if ticket != null {
        generated := generated + 1;
      }
      var _ := SendPacket(ticket, now);
    }

    /** Handles a received packet. `decoded` is the number of frames that readFrames finds in the payload, 0 when there
        is no frames factory. Reports a gap in the ids and whether frames were handed up. */
    method OnPacketReceived(packet: P.Packet, decoded: nat, now: int) returns (result: bool, gap: bool, framesUp: bool)
      requires Valid()
      modifies Objects()
      ensures Valid() && Objects() <= old(Objects())
      ensures var out := P.Receive(old(View()), packet, now); View() == out.endpoint && sent == old(sent) + out.sent
      ensures gap == P.Gap(old(View()), packet)
      ensures framesUp == (packet.packetType.WithoutTicket? && decoded > 0)
      ensures result == match packet.packetType
        case WithoutTicket => decoded > 0
        case NeedsTicket => true
        case Ticket => |packet.payload| >= 4
    {
      gap := nextPacketId >= 0 && nextPacketId != packet.packetId;
      nextPacketId := P.IdAfter(packet.packetId);
      framesUp := false;
      if packet.packetType.Ticket? {
        if |packet.payload| < 4 {
          return false, gap, framesUp;
        }
        var _ := ApplyTicket(FromLe32(packet.payload[..4]), now);
      } else {
        AnswerWithTicket(packet.packetId, now);
        if packet.packetType.WithoutTicket? {
          framesUp := decoded > 0;
          return framesUp, gap, framesUp;
        }
      }
      result := true;
    }

    method OnConnected(now: int)
      requires Valid()
      modifies this
      ensures Valid() && Objects() == old(Objects())
      ensures View() == P.Connect(old(View()), now).endpoint && sent == old(sent)
    {
      connected := true;
      lastPacketSent := now;
      nextPacketId := -1;
    }
  }

  lemma {:induction false} SelectedAll(queue: seq<P.Packet>, id: uint32)
    requires P.Select(queue, id, true) == []
    ensures P.Select(queue, id, false) == queue
  {
    if queue != [] {
      SelectedAll(queue[1..], id);
    }
  }
}
