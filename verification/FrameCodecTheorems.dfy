/** Frames survive the stream: sizes are exact, and what was written is read back. */
module FrameCodecTheorems {
  import opened Bytes
  import opened DataStreams
  import opened FrameCodec

  // ---------- values and atoms ----------

  lemma {:induction false} ZeroAfter(v: seq<byte>, tail: seq<byte>)
    requires 0 !in v
    ensures UpToZero(v + [0] + tail) == |v|
  {
    if v != [] {
      ZeroAfter(v[1..], tail);
      assert (v + [0] + tail)[1..] == v[1..] + [0] + tail;
    }
  }

  lemma TextRoundTrip(v: seq<byte>, tail: seq<byte>)
    requires 0 !in v
    ensures TakeString(v + [0] + tail) == Taken(Some(v), tail)
  {
    ZeroAfter(v, tail);
    assert (v + [0] + tail)[..|v|] == v && (v + [0] + tail)[|v| + 1..] == tail;
  }

  lemma BytesRoundTrip(v: seq<byte>, tail: seq<byte>)
    requires |v| < 0x8000_0000
    ensures TakeBytes(Le32(|v|) + v + tail) == Taken(Some(v), tail)
  {
    var s := Le32(|v|) + v + tail;
    Le32RoundTrip(|v|);
    assert s[..4] == Le32(|v|) && s[4..] == v + tail;
    assert (v + tail)[..|v|] == v && (v + tail)[|v|..] == tail;
  }

  lemma ValueRoundTrip(kind: Kind, v: seq<byte>, tail: seq<byte>)
    requires ValidValue(kind, v)
    ensures ReadValue(kind, WriteValue(kind, v) + tail) == Taken(Some(v), tail)
    ensures |WriteValue(kind, v)| == ValueSize(kind, v) >= 1
  {
    match kind
    case Fixed(width) => assert (v + tail)[..width] == v && (v + tail)[width..] == tail;
    case Text => TextRoundTrip(v, tail);
    case Bytes => BytesRoundTrip(v, tail);
  }

  lemma {:induction false} ValuesSizeExact(kind: Kind, values: Values)
    requires forall v <- values :: ValidValue(kind, v)
    ensures |WriteValues(kind, values)| == ValuesSize(kind, values) >= |values|
  {
    if values != [] {
      ValueRoundTrip(kind, values[0], []);
      ValuesSizeExact(kind, values[1..]);
    }
  }

  lemma {:induction false} ValuesRoundTrip(kind: Kind, values: Values, tail: seq<byte>)
    requires forall v <- values :: ValidValue(kind, v)
    ensures ReadValues(kind, |values|, WriteValues(kind, values) + tail) == Taken(Some(values), tail)
  {
    hide WriteValue, ReadValue, ValueSize, ValidValue, ReadValues;
    if values == [] {
      assert [] + tail == tail;
      ReadNone(kind, tail);
    } else {
      var (v, rest) := (values[0], values[1..]);
      var behind := WriteValues(kind, rest) + tail;
      assert WriteValues(kind, values) + tail == WriteValue(kind, v) + behind;
      ValueRoundTrip(kind, v, behind);
      ValuesRoundTrip(kind, rest, tail);
      ReadOneMore(kind, WriteValue(kind, v) + behind, v, behind, rest, tail);
      assert values == [v] + rest;
    }
  }

  lemma ReadNone(kind: Kind, tail: seq<byte>)
    ensures ReadValues(kind, 0, tail) == Taken(Some([]), tail)
  {
  }

  lemma ReadOneMore(kind: Kind, s: seq<byte>, v: seq<byte>, behind: seq<byte>, rest: Values, tail: seq<byte>)
    requires ReadValue(kind, s) == Taken(Some(v), behind)
    requires ReadValues(kind, |rest|, behind) == Taken(Some(rest), tail)
    ensures ReadValues(kind, |rest| + 1, s) == Taken(Some([v] + rest), tail)
  {
  }

  lemma {:induction false} AtomsRoundTrip(ds: seq<AtomDefinition>, capacity: nat, atoms: seq<Values>, tail: seq<byte>)
    requires ValidAtoms(ds, capacity, atoms)
    ensures ReadAtoms(ds, capacity, WriteAtoms(ds, capacity, atoms) + tail) == Taken(Some(atoms), tail)
    ensures |WriteAtoms(ds, capacity, atoms)| == AtomsSize(ds, atoms)
  {
    hide WriteValues, ReadValues, ValuesSize, ValidValue, Count;
    if ds == [] {
      assert [] + tail == tail;
    } else {
      FirstAtom(ds, capacity, atoms);
      var rest := WriteAtoms(ds[1..], capacity, atoms[1..]) + tail;
      assert WriteAtoms(ds, capacity, atoms) + tail == WriteValues(ds[0].kind, atoms[0]) + rest;
      ValuesRoundTrip(ds[0].kind, atoms[0], rest);
      ValuesSizeExact(ds[0].kind, atoms[0]);
      AtomsRoundTrip(ds[1..], capacity, atoms[1..], tail);
    }
  }

  lemma FirstAtom(ds: seq<AtomDefinition>, capacity: nat, atoms: seq<Values>)
    requires ValidAtoms(ds, capacity, atoms) && ds != []
    ensures |atoms| == |ds| && ValidValues(ds[0], capacity, atoms[0]) && ValidAtoms(ds[1..], capacity, atoms[1..])
    ensures atoms == [atoms[0]] + atoms[1..]
  {
  }

  // ---------- one frame ----------

  /** A frame writes exactly as many bytes after its length as it announces. */
  lemma {:induction false} SizeIsExact(f: Frame)
    requires ValidFrame(f)
    ensures |WriteBody(f)| == Size(f)
  {
    AtomsRoundTrip(f.definition.atoms, f.capacity, f.atoms, []);
  }

  /** The guard of an array frame as the reader sees it: no more capacity than bytes follow. */
  predicate PassesGuard(f: Frame, following: nat)
    requires ValidFrame(f)
  {
    f.definition.isArray ==> f.capacity <= |FrameAtoms(f)| + following
  }

  /** A frame that the reader can see as it is: the guard passes, and one that is not an array, whose capacity is not
      written, has capacity 1. */
  predicate Recoverable(f: Frame, following: nat)
    requires ValidFrame(f)
  {
    PassesGuard(f, following) && (!f.definition.isArray ==> f.capacity == 1)
  }

  lemma CapacityRoundTrip(f: Frame, tail: seq<byte>)
    requires ValidFrame(f)
    ensures var s := (if f.definition.isArray then Le32(f.capacity) else []) + FrameAtoms(f) + tail;
      var rest := FrameAtoms(f) + tail;
      ReadCapacity(f.definition, s) ==
        Taken(if !f.definition.isArray then Some(1) else if PassesGuard(f, |tail|) then Some(f.capacity) else None,
              rest)
  {
    var rest := FrameAtoms(f) + tail;
    if f.definition.isArray {
      var s := Le32(f.capacity) + FrameAtoms(f) + tail;
      Le32RoundTrip(f.capacity);
      assert s[..4] == Le32(f.capacity) && s[4..] == rest;
    } else {
      assert [] + FrameAtoms(f) + tail == rest;
    }
  }

  /** A frame is read back from its own bytes iff it is recoverable; an array that is not is not read at all, any other
      frame that is not is read with capacity 1, if it is read. */
  lemma {:induction false} BodyRoundTrip(ds: Definitions, f: Frame, tail: seq<byte>)
    requires ValidFrame(f) && ds.ByKey(f.definition.name) == Some(f.definition)
    ensures var read := ReadBody(ds, WriteBody(f) + tail).value;
      && (read == Some(f) <==> Recoverable(f, |tail|))
      && (f.definition.isArray && read.Some? ==> read == Some(f))
      && (!f.definition.isArray && read.Some? ==> read.value.capacity == 1)
  {
    hide Le32;
    var name := f.definition.name;
    var rest := (if f.definition.isArray then Le32(f.capacity) else []) + FrameAtoms(f) + tail;
    assert WriteBody(f) + tail == name + [0] + rest;
    TextRoundTrip(name, rest);
    CapacityRoundTrip(f, tail);
    AtomsRoundTrip(f.definition.atoms, f.capacity, f.atoms, tail);
  }

  // ---------- a stream of frames ----------

  /** Frames whose definitions are known, and whose bytes fit a byte array. */
  ghost predicate Writable(ds: Definitions, frames: seq<Frame>) {
    && (forall f <- frames :: ValidFrame(f) && ds.ByKey(f.definition.name) == Some(f.definition))
    && |WriteFrames(frames)| < 0x8000_0000
  }

  predicate RecoverableAt(frames: seq<Frame>, i: nat)
    requires (forall f <- frames :: ValidFrame(f)) && i < |frames|
  {
    Recoverable(frames[i], |WriteFrames(frames[i + 1..])|)
  }

  /** How many frames from the front are recoverable, each with all bytes that follow it. */
  function Intact(frames: seq<Frame>): (n: nat)
    requires forall f <- frames :: ValidFrame(f)
    ensures n <= |frames|
  {
    if frames == [] || !Recoverable(frames[0], |WriteFrames(frames[1..])|) then 0 else 1 + Intact(frames[1..])
  }

  /** Reading continues behind a frame as if the stream began there. */
  lemma FrameRoundTrip(ds: Definitions, before: seq<byte>, frames: seq<Frame>)
    requires Writable(ds, frames) && frames != [] && |before + WriteFrames(frames)| < 0x8000_0000
    ensures var f := frames[0];
      var data := before + WriteFrames(frames);
      var step := ReadFrame(ds, data, |before|);
      && step.next == |before + WriteFrame(f)|
      && (step.frame == Some(f) <==> Recoverable(f, |WriteFrames(frames[1..])|))
      && (f.definition.isArray && step.frame.Some? ==> step.frame == Some(f))
  {
    hide Le32, WriteBody, FrameAtoms, ReadBody, WriteFrames, ReadFrame, Recoverable;
    var (f, rest) := (frames[0], WriteFrames(frames[1..]));
    WriteFramesCons(frames);
    SizeIsExact(f);
    ReadFrameAt(ds, before, Size(f), WriteBody(f) + rest);
    BodyRoundTrip(ds, f, rest);
    assert before + (Le32(Size(f)) + WriteBody(f) + rest) == before + (Le32(Size(f)) + (WriteBody(f) + rest));
  }

  lemma WriteFramesCons(frames: seq<Frame>)
    requires frames != [] && forall f <- frames :: ValidFrame(f)
    ensures WriteFrames(frames) == WriteFrame(frames[0]) + WriteFrames(frames[1..])
  {
  }

  lemma ReadFrameAt(ds: Definitions, before: seq<byte>, n: uint32, body: seq<byte>)
    ensures var data := before + (Le32(n) + body);
      ReadFrame(ds, data, |before|) == Step(ReadBody(ds, body).value, NextStart(data, |before|, n))
  {
    hide Le32, ReadBody, LengthAt;
    LengthInPlace(before, n, body);
  }

  lemma LengthInPlace(before: seq<byte>, n: uint32, rest: seq<byte>)
    ensures var data := before + (Le32(n) + rest);
      LengthAt(data, |before|) == n && data[|before| + 4..] == rest
  {
    var data := before + (Le32(n) + rest);
    Le32RoundTrip(n);
    assert data[|before|..|before| + 4] == Le32(n);
  }

  /** What reading makes of written frames: the frames before the first that is not recoverable, and then anything but
      that frame; nothing more when it is an array. */
  ghost predicate ReadAsFarAsIntact(frames: seq<Frame>, read: FramesRead)
    requires forall f <- frames :: ValidFrame(f)
  {
    var n := Intact(frames);
    && n <= |read.frames| && read.frames[..n] == frames[..n]
    && (n == |frames| ==> read == FramesRead(frames, true))
    && (n < |frames| ==> |read.frames| == n || read.frames[n] != frames[n])
    && (n < |frames| && frames[n].definition.isArray ==> read == FramesRead(frames[..n], true))
  }

  lemma OneMoreIntact(f: Frame, rest: seq<Frame>, read: FramesRead)
    requires (forall g <- [f] + rest :: ValidFrame(g)) && (forall g <- rest :: ValidFrame(g))
    requires Recoverable(f, |WriteFrames(rest)|) && ReadAsFarAsIntact(rest, read)
    ensures ReadAsFarAsIntact([f] + rest, FramesRead([f] + read.frames, read.ended))
  {
    hide Recoverable, WriteFrames;
    var (frames, n) := ([f] + rest, Intact(rest));
    assert frames[1..] == rest && Intact(frames) == n + 1;
    assert frames[..n + 1] == [f] + rest[..n] && ([f] + read.frames)[..n + 1] == [f] + read.frames[..n];
    if n < |rest| {
      assert frames[n + 1] == rest[n];
    }
  }

  lemma {:induction false} ReadFromBehind(ds: Definitions, before: seq<byte>, frames: seq<Frame>, rounds: nat)
    requires Writable(ds, frames) && |before + WriteFrames(frames)| < 0x8000_0000 && rounds >= |frames|
    ensures ReadAsFarAsIntact(frames, ReadFrames(ds, before + WriteFrames(frames), |before|, rounds))
    decreases |frames|
  {
    hide Le32, WriteFrame, Recoverable, ReadFrame, WriteFrames, ReadFrames, ValidFrame;
    if frames != [] {
      var (f, rest) := (frames[0], frames[1..]);
      assert frames == [f] + rest;
      WriteFramesCons(frames);
      FrameRoundTrip(ds, before, frames);
      var behind := before + WriteFrame(f);
      assert behind + WriteFrames(rest) == before + WriteFrames(frames);
      WritesSomething(f);
      ReadFramesOnce(ds, before + WriteFrames(frames), |before|, rounds);
      if Recoverable(f, |WriteFrames(rest)|) {
        ReadFromBehind(ds, behind, rest, rounds - 1);
        OneMoreIntact(f, rest, ReadFrames(ds, behind + WriteFrames(rest), |behind|, rounds - 1));
      }
    } else {
      NoFrames(frames);
      assert before + WriteFrames(frames) == before;
      ReadFramesOnce(ds, before, |before|, rounds);
    }
  }

  lemma NoFrames(frames: seq<Frame>)
    requires frames == []
    ensures WriteFrames(frames) == []
  {
  }

  lemma ReadFramesOnce(ds: Definitions, data: seq<byte>, start: nat, rounds: nat)
    requires start <= |data|
    ensures start == |data| ==> ReadFrames(ds, data, start, rounds) == FramesRead([], true)
    ensures start < |data| && rounds == 0 ==> ReadFrames(ds, data, start, rounds) == FramesRead([], false)
    ensures start < |data| && rounds > 0 ==>
      var step := ReadFrame(ds, data, start);
      if step.frame.None? then ReadFrames(ds, data, start, rounds) == FramesRead([], true)
      else
        var more := ReadFrames(ds, data, step.next, rounds - 1);
        ReadFrames(ds, data, start, rounds) == FramesRead([step.frame.value] + more.frames, more.ended)
  {
  }

  lemma WritesSomething(f: Frame)
    requires ValidFrame(f)
    ensures |WriteFrame(f)| > 0
  {
  }

  /** Round trip. Frames with known definitions, written one after the other, are read back as they were up to the first
      that is not recoverable; so all of them are iff every one is: no array with a capacity over the bytes that follow
      it, and nothing else with a capacity over 1. */
  lemma {:induction false} FramesRoundTrip(ds: Definitions, frames: seq<Frame>, rounds: nat)
    requires Writable(ds, frames) && rounds >= |frames|
    ensures ReadAsFarAsIntact(frames, ReadFrames(ds, WriteFrames(frames), 0, rounds))
    ensures ReadFrames(ds, WriteFrames(frames), 0, rounds).frames == frames
      <==> forall i :: 0 <= i < |frames| ==> RecoverableAt(frames, i)
  {
    hide ReadFrames, WriteFrames;
    assert [] + WriteFrames(frames) == WriteFrames(frames);
    ReadFromBehind(ds, [], frames, rounds);
    AllRecoverable(frames);
  }

  lemma {:induction false} AllRecoverable(frames: seq<Frame>)
    requires forall f <- frames :: ValidFrame(f)
    ensures Intact(frames) == |frames| <==> forall i :: 0 <= i < |frames| ==> RecoverableAt(frames, i)
  {
    if frames != [] {
      AllRecoverable(frames[1..]);
      forall i | 0 <= i < |frames| - 1 ensures RecoverableAt(frames[1..], i) == RecoverableAt(frames, i + 1) {
        assert frames[1..][i + 1..] == frames[i + 1 + 1..];
      }
      assert frames[0 + 1..] == frames[1..];
      assert RecoverableAt(frames, 0) == Recoverable(frames[0], |WriteFrames(frames[1..])|);
      if forall i :: 0 <= i < |frames| - 1 ==> RecoverableAt(frames[1..], i) {
        forall i | 0 < i < |frames| ensures RecoverableAt(frames, i) {
          assert RecoverableAt(frames[1..], i - 1);
        }
      }
    }
  }

  // ---------- when the guard rejects nothing ----------

  predicate Grows(d: AtomDefinition) {
    !d.isScalar && !d.kind.Bytes?
  }

  /** Every array repeats an atom, and nothing else has a capacity over 1. */
  ghost predicate SoundCapacity(f: Frame) {
    if f.definition.isArray then exists d <- f.definition.atoms :: Grows(d) else f.capacity == 1
  }

  lemma {:induction false} GrowingAtomsWriteCapacity(ds: seq<AtomDefinition>, capacity: nat, atoms: seq<Values>)
    requires ValidAtoms(ds, capacity, atoms)
    requires exists d <- ds :: Grows(d)
    ensures |WriteAtoms(ds, capacity, atoms)| >= capacity
  {
    ValuesSizeExact(ds[0].kind, atoms[0]);
    if !Grows(ds[0]) {
      GrowingAtomsWriteCapacity(ds[1..], capacity, atoms[1..]);
    }
  }

  /** Round trip for the frames meant to be sent: when every array frame has an atom that repeats (not a scalar,
      not a byte array), the guard never rejects written data and every frame is read back. */
  lemma {:induction false} RepeatingAtomsRoundTrip(ds: Definitions, frames: seq<Frame>, rounds: nat)
    requires Writable(ds, frames) && rounds >= |frames|
    requires forall f <- frames :: SoundCapacity(f)
    ensures ReadFrames(ds, WriteFrames(frames), 0, rounds) == FramesRead(frames, true)
  {
    forall i | 0 <= i < |frames| ensures RecoverableAt(frames, i) {
      var f := frames[i];
      assert f in frames;
      if f.definition.isArray {
        GrowingAtomsWriteCapacity(f.definition.atoms, f.capacity, f.atoms);
      }
    }
    AllRecoverable(frames);
    FramesRoundTrip(ds, frames, rounds);
  }

  /** Otherwise the guard does reject written data: an array frame of capacity 100 with one 1-byte scalar. */
  lemma {:induction false} ScalarArrayIsLost(ds: Definitions, name: seq<byte>)
    requires 0 !in name && |name| < 1000
    requires var d := FrameDefinition(name, true, [AtomDefinition(Fixed(1), true)]); ds.ByKey(name) == Some(d)
    ensures var f := Frame(FrameDefinition(name, true, [AtomDefinition(Fixed(1), true)]), 100, [[[7]]]);
      ValidFrame(f) && ReadFrames(ds, WriteFrames([f]), 0, 1) == FramesRead([], true)
  {
    var f := Frame(FrameDefinition(name, true, [AtomDefinition(Fixed(1), true)]), 100, [[[7]]]);
    assert ValidValues(f.definition.atoms[0], 100, [[7]]);
    assert FrameAtoms(f) == [7];
    assert [f][1..] == [] && WriteFrames([f]) == WriteFrame(f) + [];
    SizeIsExact(f);
    assert Size(f) == |name| + 1 + 4 + 1;
    FramesRoundTrip(ds, [f], 1);
  }
}
