/** Frames over the wire: frames written into packets (Frames/DataFramesPackets.cpp, buildPacketFromFrame),
    packets over the byte channel, frames read back from what arrives (Threads/ThreadDataFrames.cpp,
    onPacketReceived). */
module EndToEnd {
  import opened PacketFraming
  import opened ByteChannel
  import opened FrameCodec
  import opened FrameCodecTheorems

  /** What a sender of frames may put into its packets: frames of known definitions with sound capacities. */
  ghost predicate Sendable(ds: Definitions, batch: seq<Frame>) {
    Writable(ds, batch) && forall f <- batch :: SoundCapacity(f)
  }

  ghost predicate Carries(ds: Definitions, packets: seq<WirePacket>, batches: seq<seq<Frame>>) {
    |packets| == |batches| && forall i :: 0 <= i < |packets| ==>
      Sendable(ds, batches[i]) && packets[i].data == WriteFrames(batches[i])
  }

  /** However the bytes are cut on the way, each packet that arrived holds the frames of the packet sent in its
      place; and when the channel has drained, all packets have arrived. */
  lemma {:induction false} FramesArrive(ds: Definitions, search: TagSearch, events: seq<Event>,
                                        batches: seq<seq<Frame>>, rounds: nat)
    requires forall batch <- batches :: |batch| <= rounds
    ensures var c := Run(search, 0, events);
      Carries(ds, c.sent, batches) ==>
        && |c.received| <= |batches|
        && (c.sender.output == [] && c.taken == |c.wire| ==> |c.received| == |batches|)
        && forall i :: 0 <= i < |c.received| ==>
             ReadFrames(ds, c.received[i].data, 0, rounds) == FramesRead(batches[i], true)
  {
    hide Run, Sendable, ReadFrames, WriteFrames;
    ByteChannelRefinesFifo(search, events);
    var c := Run(search, 0, events);
    forall i | Carries(ds, c.sent, batches) && 0 <= i < |c.received|
      ensures ReadFrames(ds, c.received[i].data, 0, rounds) == FramesRead(batches[i], true)
    {
      assert c.received[i] == c.sent[i] && batches[i] in batches;
      BatchReadsBack(ds, batches[i], rounds);
    }
  }

  lemma BatchReadsBack(ds: Definitions, batch: seq<Frame>, rounds: nat)
    requires Sendable(ds, batch) && |batch| <= rounds
    ensures ReadFrames(ds, WriteFrames(batch), 0, rounds) == FramesRead(batch, true)
  {
    RepeatingAtomsRoundTrip(ds, batch, rounds);
  }
}
