/** The two readers of written frames agree: the raw parser followed by decoding each frame, and the decoder of the
    stream. */
module RawFrameTheorems {
  import opened Bytes
  import opened FrameCodec
  import opened FrameCodecTheorems
  import R = RawFrames

  function WrittenBodies(frames: seq<Frame>): (bodies: seq<seq<byte>>)
    requires forall f <- frames :: ValidFrame(f)
    ensures |bodies| == |frames| && forall i :: 0 <= i < |frames| ==> bodies[i] == WriteBody(frames[i])
  {
    if frames == [] then [] else [WriteBody(frames[0])] + WrittenBodies(frames[1..])
  }

  /** Written frames are a snapshot of their bodies. */
  lemma {:induction false} WrittenFramesAreSnapshot(frames: seq<Frame>)
    requires (forall f <- frames :: ValidFrame(f)) && |WriteFrames(frames)| < 0x8000_0000
    ensures R.Fit(WrittenBodies(frames)) && R.Snapshot(WrittenBodies(frames)) == WriteFrames(frames)
  {
    if frames != [] {
      var (f, rest) := (frames[0], frames[1..]);
      WriteFramesCons(frames);
      FrameIsEntry(f);
      WrittenFramesAreSnapshot(rest);
      R.Cons(WriteBody(f), WrittenBodies(rest), 0);
    } else {
      NothingWritten(frames);
    }
  }

  lemma FrameIsEntry(f: Frame)
    requires ValidFrame(f) && |WriteFrame(f)| < 0x8000_0000
    ensures |WriteBody(f)| < 0x8000_0000 && WriteFrame(f) == R.Entry(WriteBody(f))
  {
    SizeIsExact(f);
  }

  lemma NothingWritten(frames: seq<Frame>)
    requires frames == []
    ensures WriteFrames(frames) == [] && R.Snapshot([]) == []
  {
  }

  /** A name that the raw parser takes for one. */
  predicate PrintableStart(name: seq<byte>) {
    name != [] && 33 <= name[0] <= 127
  }

  lemma BodyStartsWithName(f: Frame)
    requires ValidFrame(f)
    ensures R.StartsName(WriteBody(f)) <==> PrintableStart(f.definition.name)
    ensures R.StartsName(WriteBody(f)) ==> R.Make(WriteBody(f)).buffer == WriteBody(f)
  {
    hide Le32, FrameAtoms;
  }

  lemma {:induction false} FramesOfPrintable(frames: seq<Frame>)
    requires forall f <- frames :: ValidFrame(f) && PrintableStart(f.definition.name)
    ensures var raw := R.Frames(WrittenBodies(frames));
      |raw| == |frames| && forall i :: 0 <= i < |frames| ==> raw[i].buffer == WriteBody(frames[i])
  {
    if frames != [] {
      BodyStartsWithName(frames[0]);
      FramesOfPrintable(frames[1..]);
      assert WrittenBodies(frames)[1..] == WrittenBodies(frames[1..]);
    }
  }

  /** When every name starts with a byte in 33..127, the raw parser finds all written frames, and decoding the i-th by
      itself gives the i-th frame iff it is recoverable with nothing following it. */
  lemma {:induction false} RawReaderFindsAll(ds: Definitions, frames: seq<Frame>)
    requires Writable(ds, frames) && forall f <- frames :: PrintableStart(f.definition.name)
    ensures var raw := R.Parse(WriteFrames(frames));
      && |raw| == |frames|
      && forall i :: 0 <= i < |frames| ==>
           (ReadBody(ds, raw[i].buffer).value == Some(frames[i]) <==> Recoverable(frames[i], 0))
  {
    hide R.Parse, R.Frames, R.Snapshot, WriteFrames, WriteBody, ReadBody, Recoverable;
    WrittenFramesAreSnapshot(frames);
    R.SnapshotRoundTrip(WrittenBodies(frames));
    FramesOfPrintable(frames);
    forall i | 0 <= i < |frames|
      ensures ReadBody(ds, WriteBody(frames[i])).value == Some(frames[i]) <==> Recoverable(frames[i], 0)
    {
      assert frames[i] in frames;
      BodyRoundTrip(ds, frames[i], []);
      assert WriteBody(frames[i]) + [] == WriteBody(frames[i]);
    }
  }

  /** Both readers give the same frames, for the frames meant to be sent. */
  lemma {:induction false} ReadersAgree(ds: Definitions, frames: seq<Frame>, rounds: nat)
    requires Writable(ds, frames) && rounds >= |frames|
    requires forall f <- frames :: PrintableStart(f.definition.name)
    requires forall f <- frames :: SoundCapacity(f)
    ensures var (raw, read) := (R.Parse(WriteFrames(frames)), ReadFrames(ds, WriteFrames(frames), 0, rounds));
      && |raw| == |read.frames| == |frames|
      && forall i :: 0 <= i < |frames| ==> ReadBody(ds, raw[i].buffer).value == Some(read.frames[i])
  {
    RepeatingAtomsRoundTrip(ds, frames, rounds);
    RawReaderFindsAll(ds, frames);
    forall i | 0 <= i < |frames| ensures Recoverable(frames[i], 0) {
      var f := frames[i];
      assert f in frames;
      if f.definition.isArray {
        GrowingAtomsWriteCapacity(f.definition.atoms, f.capacity, f.atoms);
      }
    }
  }

  /** dataFrameRawData: the raw form of a written frame holds its body; a name that starts with any other byte leaves
      nothing. */
  lemma {:induction false} RawFormOfFrame(f: Frame)
    requires ValidFrame(f) && |WriteFrame(f)| < 0x8000_0000
    ensures var raw := R.Parse(WriteFrame(f));
      if PrintableStart(f.definition.name) then |raw| == 1 && raw[0].isValid && raw[0].buffer == WriteBody(f)
      else raw == []
  {
    hide WriteBody, WriteFrame, R.StartsName, R.Parse;
    FrameIsEntry(f);
    BodyStartsWithName(f);
    R.ParseEntry(WriteBody(f), []);
    R.NothingToParse([]);
    assert R.Entry(WriteBody(f)) + [] == R.Entry(WriteBody(f));
  }
}
