/** The stream and frame formats byte by byte (Utils/DataStream.h, Frames/DataFrames.cpp,
    Frames/DataFramesFactory.cpp): what writing puts where, and what reading makes of bytes that no writer
    made. */
module CodecOutcomes {
  import opened Bytes
  import opened DataStreams
  import opened FrameCodec
  import opened FrameCodecTheorems

  // ---------- streams ----------

  /** Writing at any position changes the bytes from there on and no others, and makes the data no longer than it
      must be; only what lies between the old end and the position is open. */
  lemma {:induction false} WritingChangesOnly(bytes: seq<byte>, position: nat, value: seq<byte>, gap: seq<byte>)
    requires |gap| == GapSize(bytes, position)
    ensures var r := Overwritten(bytes, position, value, gap);
      && |r| == (if position + |value| > |bytes| then position + |value| else |bytes|)
      && forall k :: 0 <= k < |r| ==>
           r[k] == if position <= k < position + |value| then value[k - position]
                   else if k < |bytes| then bytes[k] else gap[k - |bytes|]
  {
  }

  /** Reading n bytes gives the next n, or fails and leaves nothing when there are fewer, or none at all. */
  lemma {:induction false} BlockIsNextBytes(tail: seq<byte>, n: nat)
    ensures var read := TakeBlock(tail, n);
      && (read.value.Some? <==> 0 < |tail| && n <= |tail|)
      && (read.value.None? ==> read.rest == [])
      && (read.value.Some? ==> read.value.value + read.rest == tail && |read.value.value| == n)
  {
  }

  /** Reading a byte array takes the length that stands in the first four bytes and that many bytes behind it, or
      all there are; it fails without four bytes, and when bytes are announced and not one follows. */
  lemma {:induction false} BytesAsAnnounced(tail: seq<byte>)
    ensures var read := TakeBytes(tail);
      && (read.value.Some? <==> |tail| > 4 || (|tail| == 4 && Number(tail, 0) == 0))
      && (read.value.None? ==> read.rest == [])
      && (read.value.Some? ==>
           && read.value.value + read.rest == tail[4..]
           && |read.value.value| == if Number(tail, 0) < |tail| - 4 then Number(tail, 0) else |tail| - 4)
  {
    hide FromLe32, Number;
    if |tail| >= 4 {
      NumberRead(tail, 0);
      assert tail[0..4] == tail[..4];
    }
  }

  /** Reading a string takes the bytes before the first zero and drops that, or takes all bytes when there is none. */
  lemma {:induction false} StringUpToZero(tail: seq<byte>)
    ensures var read := TakeString(tail);
      && read.value.Some? && 0 !in read.value.value
      && tail == read.value.value + (if 0 in tail then [0] else []) + read.rest
      && (0 !in tail ==> read.rest == [])
  {
    var k := UpToZero(tail);
    if k < |tail| {
      assert tail[k] in tail && tail == tail[..k] + [0] + tail[k + 1..];
    } else {
      assert tail[..k] == tail;
    }
  }

  // ---------- frames ----------

  /** The layout of a value: plain values as they are, strings with a zero behind them, byte arrays behind their
      length. */
  lemma {:induction false} ValueLayout(kind: Kind, v: seq<byte>)
    requires ValidValue(kind, v)
    ensures var s := WriteValue(kind, v);
      match kind
      case Fixed(_) => s == v
      case Text => s == v + [0]
      case Bytes => |s| == 4 + |v| && Number(s, 0) == |v| && s[4..] == v
  {
    if kind.Bytes? {
      NumberWritten([], |v|, v);
      assert [] + Le32(|v|) + v == WriteValue(kind, v);
    }
  }

  function EachValue(kind: Kind, values: Values): (parts: seq<seq<byte>>)
    requires forall v <- values :: ValidValue(kind, v)
  {
    seq(|values|, i requires 0 <= i < |values| => assert values[i] in values; WriteValue(kind, values[i]))
  }

  lemma {:induction false} ValuesInOrder(kind: Kind, values: Values)
    requires forall v <- values :: ValidValue(kind, v)
    ensures WriteValues(kind, values) == Flatten(EachValue(kind, values))
  {
    hide WriteValue, ValidValue;
    if values != [] {
      ValuesInOrder(kind, values[1..]);
      assert EachValue(kind, values)[1..] == EachValue(kind, values[1..]);
    }
  }

  /** The layout of a frame: the size of all that follows it in four bytes, the name, a zero, the capacity of an
      array, and the atoms. */
  lemma {:induction false} FrameLayout(f: Frame)
    requires ValidFrame(f)
    ensures var (s, name) := (WriteFrame(f), f.definition.name);
      var behind := 5 + |name|;
      && |s| >= behind && Number(s, 0) == (|s| - 4) % 0x1_0000_0000
      && s[4..behind] == name + [0]
      && (!f.definition.isArray ==> s[behind..] == FrameAtoms(f))
      && (f.definition.isArray ==>
           |s| >= behind + 4 && Number(s, behind) == f.capacity && s[behind + 4..] == FrameAtoms(f))
  {
    hide Le32, FrameAtoms, Size, Number;
    var (name, size, atoms) := (f.definition.name, Size(f) % 0x1_0000_0000, FrameAtoms(f));
    SizeIsExact(f);
    var s := WriteFrame(f);
    NumberWritten([], size, WriteBody(f));
    assert [] + Le32(size) + WriteBody(f) == s;
    var front := Le32(size) + (name + [0]);
    if f.definition.isArray {
      NumberWritten(front, f.capacity, atoms);
      assert s == front + Le32(f.capacity) + atoms;
      InThree(Le32(size), name + [0], Le32(f.capacity) + atoms);
      assert front + (Le32(f.capacity) + atoms) == s;
      InThree(front, Le32(f.capacity), atoms);
    } else {
      assert s == front + atoms;
      InThree(Le32(size), name + [0], atoms);
    }
  }

  lemma InThree<T>(a: seq<T>, b: seq<T>, c: seq<T>)
    ensures var s := a + b + c;
      s[|a|..|a| + |b|] == b && s[|a| + |b|..] == c
  {
  }

  /** The atoms one after the other, each with its values in order. */
  lemma {:induction false} AtomsInOrder(ds: seq<AtomDefinition>, capacity: nat, atoms: seq<Values>)
    requires ValidAtoms(ds, capacity, atoms) && ds != []
    ensures ValidAtoms(ds[1..], capacity, atoms[1..]) && forall v <- atoms[0] :: ValidValue(ds[0].kind, v)
    ensures WriteAtoms(ds, capacity, atoms)
         == Flatten(EachValue(ds[0].kind, atoms[0])) + WriteAtoms(ds[1..], capacity, atoms[1..])
  {
    FirstAtom(ds, capacity, atoms);
    ValuesInOrder(ds[0].kind, atoms[0]);
  }

  // ---------- what no writer makes ----------

  /** The capacity that an array announces: more than there are bytes behind it is refused, 0 is taken for 1. */
  lemma {:induction false} CapacityAsAnnounced(d: FrameDefinition, n: uint32, tail: seq<byte>)
    requires d.isArray
    ensures var read := ReadContent(d, Le32(n) + tail);
      && (n > |tail| ==> read == Taken(None, tail))
      && (n <= |tail| && read.value.Some? ==> read.value.value.capacity == (if n == 0 then 1 else n))
      && (n <= |tail| ==>
            var atoms := ReadAtoms(d.atoms, if n == 0 then 1 else n, tail);
            read.rest == atoms.rest && (read.value.Some? <==> atoms.value.Some?)
            && (read.value.Some? ==> read.value.value.atoms == atoms.value.value && read.value.value.definition == d))
  {
    hide ReadAtoms;
    var s := Le32(n) + tail;
    Le32RoundTrip(n);
    assert s[..4] == Le32(n) && s[4..] == tail;
  }

  /** How a name is spelled does not matter, as long as it is the same in upper case: the same frame is read,
      under the name of its definition; and an unknown name reads nothing. */
  lemma {:induction false} SpellingDoesNotMatter(ds: Definitions, a: seq<byte>, b: seq<byte>, tail: seq<byte>)
    requires 0 !in a && 0 !in b && ds.upper(a) == ds.upper(b)
    ensures ReadBody(ds, a + [0] + tail) == ReadBody(ds, b + [0] + tail)
    ensures ds.upper(a) !in ds.frames ==> ReadBody(ds, a + [0] + tail) == Taken(None, tail)
    ensures ds.upper(a) in ds.frames ==>
      var read := ReadBody(ds, a + [0] + tail).value; read.Some? ==> read.value.definition == ds.frames[ds.upper(a)]
  {
    hide ReadAtoms;
    TextRoundTrip(a, tail);
    TextRoundTrip(b, tail);
  }

  /** Nothing that reads as a frame: too short for a length, or a body that cannot be decoded. */
  ghost predicate NoFrame(ds: Definitions, bytes: seq<byte>) {
    |bytes| < 4 || ReadBody(ds, bytes[4..]).value.None?
  }

  /** Reading goes up to the first bytes that are no frame, and stops there: the frames before them come back,
      whatever they are, and nothing else. */
  lemma {:induction false} ReadsUpToNoFrame(ds: Definitions, frames: seq<Frame>, bytes: seq<byte>, rounds: nat)
    requires Writable(ds, frames) && (forall f <- frames :: SoundCapacity(f)) && NoFrame(ds, bytes)
    requires |WriteFrames(frames) + bytes| < 0x8000_0000 && rounds > |frames|
    ensures ReadFrames(ds, WriteFrames(frames) + bytes, 0, rounds) == FramesRead(frames, true)
  {
    assert [] + WriteFrames(frames) + bytes == WriteFrames(frames) + bytes;
    UpToNoFrameFrom(ds, [], frames, bytes, rounds);
  }

  lemma {:induction false} UpToNoFrameFrom(ds: Definitions, before: seq<byte>, frames: seq<Frame>,
                                           bytes: seq<byte>, rounds: nat)
    requires Writable(ds, frames) && (forall f <- frames :: SoundCapacity(f)) && NoFrame(ds, bytes)
    requires |before + WriteFrames(frames) + bytes| < 0x8000_0000 && rounds > |frames|
    ensures ReadFrames(ds, before + WriteFrames(frames) + bytes, |before|, rounds) == FramesRead(frames, true)
    decreases |frames|
  {
    hide Le32, WriteFrame, ReadFrame, WriteFrames, ReadFrames, ValidFrame, NoFrame;
    if frames == [] {
      NoFrames(frames);
      assert before + [] + bytes == before + bytes;
      NoFrameAt(ds, before, bytes);
      ReadFramesOnce(ds, before + bytes, |before|, rounds);
    } else {
      var (f, rest) := (frames[0], frames[1..]);
      WriteFramesCons(frames);
      var (data, behind) := (before + WriteFrames(frames) + bytes, before + WriteFrame(f));
      assert data == before + (WriteFrame(f) + (WriteFrames(rest) + bytes));
      assert data == behind + WriteFrames(rest) + bytes;
      SoundFrameAt(ds, before, f, WriteFrames(rest) + bytes);
      WritesSomething(f);
      ReadFramesOnce(ds, data, |before|, rounds);
      UpToNoFrameFrom(ds, behind, rest, bytes, rounds - 1);
    }
  }

  lemma NoFrameAt(ds: Definitions, before: seq<byte>, bytes: seq<byte>)
    requires NoFrame(ds, bytes)
    ensures bytes == [] || ReadFrame(ds, before + bytes, |before|).frame.None?
  {
    hide ReadBody, LengthAt;
    if |bytes| >= 4 {
      assert (before + bytes)[|before| + 4..] == bytes[4..];
    }
  }

  lemma SoundFrameAt(ds: Definitions, before: seq<byte>, f: Frame, rest: seq<byte>)
    requires ValidFrame(f) && SoundCapacity(f) && ds.ByKey(f.definition.name) == Some(f.definition)
    requires |before + (WriteFrame(f) + rest)| < 0x8000_0000
    ensures ReadFrame(ds, before + (WriteFrame(f) + rest), |before|) == Step(Some(f), |before + WriteFrame(f)|)
  {
    hide Le32, WriteBody, FrameAtoms, ReadBody, ReadFrame;
    SizeIsExact(f);
    ReadFrameAt(ds, before, Size(f), WriteBody(f) + rest);
    BodyRoundTrip(ds, f, rest);
    SoundIsRecoverable(f, |rest|);
    assert Le32(Size(f)) + WriteBody(f) + rest == Le32(Size(f)) + (WriteBody(f) + rest);
  }

  lemma SoundIsRecoverable(f: Frame, following: nat)
    requires ValidFrame(f) && SoundCapacity(f)
    ensures Recoverable(f, following)
  {
    if f.definition.isArray {
      GrowingAtomsWriteCapacity(f.definition.atoms, f.capacity, f.atoms);
    }
  }
}
