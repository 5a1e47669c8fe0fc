/** Frames and atoms as the program keeps them (Frames/DataAtoms.h, Frames/DataFrames.cpp,
    Frames/DataFramesFactory.cpp): value vectors that are resized and filled in place over a stream, proved
    against FrameCodec. */
module DataFrames {
  import opened Bytes
  import opened DataStreams
  import C = FrameCodec

  /** A stream to write to stands at the end of its data. */
  ghost predicate AtEnd(stream: DataStream)
    reads stream, stream.data
  {
    stream.position == |stream.data.bytes|
  }

  ghost predicate Readable(stream: DataStream)
    reads stream, stream.data
  {
    stream.position <= |stream.data.bytes|
  }

  function Default(kind: C.Kind): seq<byte> {
    if kind.Fixed? then seq(kind.width, _ => 0) else []
  }

  /** What a new value is: it is written as nothing but zeros, as many as its kind takes at least. */
  lemma {:induction false} DefaultIsZeros(kind: C.Kind)
    requires kind.Fixed? ==> kind.width >= 1
    ensures C.ValidValue(kind, Default(kind))
    ensures var s := C.WriteValue(kind, Default(kind));
      && (forall b <- s :: b == 0)
      && |s| == match kind case Fixed(width) => width case Text => 1 case Bytes => 4
  {
    if kind.Bytes? {
      assert Le32(0) == [0, 0, 0, 0];
    }
  }

  /** The values that there are places for stay, and new places get defaults. */
  predicate Kept(kind: C.Kind, before: C.Values, after: C.Values) {
    forall i :: 0 <= i < |after| ==> after[i] == if i < |before| then before[i] else Default(kind)
  }

  method Append(stream: DataStream, value: seq<byte>)
    requires AtEnd(stream)
    modifies stream, stream.data
    ensures AtEnd(stream) && stream.data.bytes == old(stream.data.bytes) + value
  {
    ghost var gap := stream.Write(value);
  }

  class DataAtom {
    const definition: C.AtomDefinition
    var values: C.Values

    constructor (definition: C.AtomDefinition)
      ensures this.definition == definition && values == [Default(definition.kind)]
    {
      this.definition := definition;
      values := [Default(definition.kind)];
    }

    /** Resizes the values; a byte array atom keeps its one value. */
    method SetCapacity(capacity: nat)
      modifies this
      ensures definition.kind.Bytes? ==> values == old(values)
      ensures !definition.kind.Bytes? ==> |values| == if capacity == 0 then 1 else capacity
      ensures Kept(definition.kind, old(values), values)
    {
      if definition.kind.Bytes? {
        return;
      }
      var newSize := if capacity == 0 then 1 else capacity;
      values := if newSize <= |values| then values[..newSize]
                else values + seq(newSize - |values|, _ => Default(definition.kind));
    }

    method Size() returns (size: nat)
      ensures size == C.ValuesSize(definition.kind, values)
    {
      size := 0;
      for i := 0 to |values|
        invariant size + C.ValuesSize(definition.kind, values[i..]) == C.ValuesSize(definition.kind, values)
      {
        assert values[i..][1..] == values[i + 1..];
        size := size + C.ValueSize(definition.kind, values[i]);
      }
    }

    method ReadValue(stream: DataStream) returns (value: Option<seq<byte>>)
      requires Readable(stream)
      modifies stream
      ensures Readable(stream) && Taken(value, stream.Tail()) == C.ReadValue(definition.kind, old(stream.Tail()))
    {
      match definition.kind {
        case Fixed(width) => value := stream.Read(width);
        case Text =>
          var text := stream.ReadString();
          value := Some(text);
        case Bytes => value := stream.ReadByteArray();
      }
    }

    /** Reads as many values as there are places. */
    method Read(stream: DataStream) returns (ok: bool)
      requires Readable(stream) && stream as object != this
      modifies this, stream
      ensures var read := C.ReadValues(definition.kind, |old(values)|, old(stream.Tail()));
        && Readable(stream) && stream.Tail() == read.rest && ok == read.value.Some?
        && |values| == |old(values)| && (ok ==> values == read.value.value)
    {
      hide C.ReadValues, C.ReadValue, Continues;
      values := seq(|values|, _ => Default(definition.kind));
      ghost var (count, all) := (|values|, C.ReadValues(definition.kind, |values|, stream.Tail()));
      ContinuesFromStart(all);
      assert values[..0] == [];
      for i := 0 to |values|
        invariant |values| == count && Readable(stream)
        invariant Continues(all, values[..i], C.ReadValues(definition.kind, count - i, stream.Tail()))
      {
        ReadsOne(definition.kind, all, values[..i], count - i, stream.Tail());
        var value := ReadValue(stream);
        if value.None? {
          return false;
        }
        values := values[i := value.value];
        assert values[..i + 1] == values[..i] + [value.value];
      }
      assert values[..count] == values;
      AllRead(definition.kind, all, values, stream.Tail());
      ok := true;
    }

    method WriteValue(stream: DataStream, value: seq<byte>)
      requires AtEnd(stream) && C.ValidValue(definition.kind, value)
      modifies stream, stream.data
      ensures AtEnd(stream) && stream.data.bytes == old(stream.data.bytes) + C.WriteValue(definition.kind, value)
    {
      match definition.kind {
        case Fixed(_) => Append(stream, value);
        case Text =>
          Append(stream, value);
          Append(stream, [0]);
        case Bytes =>
          Append(stream, Le32(|value|));
          Append(stream, value);
      }
    }

    method Write(stream: DataStream)
      requires AtEnd(stream) && forall v <- values :: C.ValidValue(definition.kind, v)
      modifies stream, stream.data
      ensures AtEnd(stream) && stream.data.bytes == old(stream.data.bytes) + C.WriteValues(definition.kind, values)
    {
      hide C.WriteValue, C.ValidValue;
      ghost var end := stream.data.bytes + C.WriteValues(definition.kind, values);
      assert values[0..] == values;
      for i := 0 to |values|
        invariant AtEnd(stream) && stream.data.bytes + C.WriteValues(definition.kind, values[i..]) == end
      {
        WritesOne(definition.kind, values, i, stream.data.bytes);
        WriteValue(stream, values[i]);
      }
      assert values[|values|..] == [];
    }
  }

  /** What the atoms hold. */
  ghost function Held(atoms: seq<DataAtom>): (held: seq<C.Values>)
    reads atoms
    ensures |held| == |atoms| && forall i :: 0 <= i < |atoms| ==> held[i] == atoms[i].values
  {
    seq(|atoms|, i requires 0 <= i < |atoms| reads atoms => atoms[i].values)
  }

  /** Distinct atoms of these definitions. */
  ghost predicate Made(atoms: seq<DataAtom>, ds: seq<C.AtomDefinition>) {
    && |atoms| == |ds|
    && (forall i, j :: 0 <= i < j < |atoms| ==> atoms[i] != atoms[j])
    && (forall i :: 0 <= i < |atoms| ==> atoms[i].definition == ds[i])
  }

  ghost predicate Counts(ds: seq<C.AtomDefinition>, capacity: nat, held: seq<C.Values>) {
    |held| == |ds| && forall i :: 0 <= i < |ds| ==> |held[i]| == C.Count(ds[i], capacity)
  }

  class DataFrame {
    const definition: C.FrameDefinition
    const atoms: seq<DataAtom>
    var capacity: uint32

    constructor (definition: C.FrameDefinition, atoms: seq<DataAtom>)
      requires Made(atoms, definition.atoms) && Counts(definition.atoms, 1, Held(atoms))
      ensures Valid() && this.definition == definition && this.atoms == atoms && capacity == 1
    {
      this.definition := definition;
      this.atoms := atoms;
      capacity := 1;
    }

    /** Every atom has as many values as the capacity calls for. */
    ghost predicate Valid()
      reads this, atoms
    {
      Made(atoms, definition.atoms) && capacity >= 1 && Counts(definition.atoms, capacity, Held(atoms))
    }

    ghost function View(): C.Frame
      reads this, atoms
    {
      C.Frame(definition, capacity, Held(atoms))
    }

    method SetCapacity(newCapacity: uint32)
      requires Valid()
      modifies this, atoms
      ensures Valid() && capacity == if newCapacity < 1 then 1 else newCapacity
      ensures forall k :: 0 <= k < |atoms| ==> Kept(definition.atoms[k].kind, old(Held(atoms))[k], Held(atoms)[k])
    {
      hide C.Count, Kept;
      ghost var (ds, before, held) := (definition.atoms, capacity, Held(atoms));
      capacity := if newCapacity < 1 then 1 else newCapacity;
      for i := 0 to |atoms|
        invariant capacity == if newCapacity < 1 then 1 else newCapacity
        invariant forall k :: 0 <= k < |atoms| ==>
          |atoms[k].values| == C.Count(ds[k], if k < i then capacity else before)
        invariant forall k :: 0 <= k < i ==> Kept(ds[k].kind, held[k], atoms[k].values)
        invariant forall k :: i <= k < |atoms| ==> atoms[k].values == held[k]
      {
        CountFollows(ds[i], before, capacity);
        atoms[i].SetCapacity(if atoms[i].definition.isScalar then 1 else capacity);
      }
    }

    method Size() returns (size: nat)
      requires Valid()
      ensures size == C.Size(View())
    {
      size := |definition.name| + 1;
      if definition.isArray {
        size := size + 4;
      }
      ghost var fixed := size;
      for i := 0 to |atoms|
        invariant size + C.AtomsSize(definition.atoms[i..], Held(atoms)[i..])
               == fixed + C.AtomsSize(definition.atoms, Held(atoms))
      {
        assert definition.atoms[i..][1..] == definition.atoms[i + 1..] && Held(atoms)[i..][1..] == Held(atoms)[i + 1..];
        var atomSize := atoms[i].Size();
        size := size + atomSize;
      }
    }

    /** Capacity, then every atom with as many values as it now has. */
    method Read(stream: DataStream) returns (ok: bool)
      requires Valid() && Readable(stream)
      modifies this, atoms, stream
      ensures Readable(stream)
      ensures var read := C.ReadContent(definition, old(stream.Tail()));
        ok == read.value.Some? && stream.Tail() == read.rest && (ok ==> Valid() && View() == read.value.value)
    {
      var readCapacity: uint32 := 1;
      if definition.isArray {
        var bytes := stream.Read(4);
        if bytes.None? {
          return false;
        }
        readCapacity := FromLe32(bytes.value);
        if readCapacity > |stream.data.bytes| - stream.position {
          return false;
        }
      }
      SetCapacity(readCapacity);
      ok := ReadAtoms(stream);
    }

    method ReadAtom(stream: DataStream, i: nat) returns (ok: bool)
      requires Valid() && Readable(stream) && i < |atoms|
      modifies atoms[i], stream
      ensures Valid() && Readable(stream)
      ensures Held(atoms)[..i + 1] == old(Held(atoms)[..i]) + [atoms[i].values]
      ensures var d := definition.atoms[i];
        var read := C.ReadValues(d.kind, C.Count(d, capacity), old(stream.Tail()));
        stream.Tail() == read.rest && ok == read.value.Some? && (ok ==> atoms[i].values == read.value.value)
    {
      hide C.ReadValues, C.Count;
      ok := atoms[i].Read(stream);
      assert Held(atoms)[..i + 1] == old(Held(atoms))[..i] + [atoms[i].values];
    }

    method ReadAtoms(stream: DataStream) returns (ok: bool)
      requires Valid() && Readable(stream)
      modifies atoms, stream
      ensures var read := C.ReadAtoms(definition.atoms, capacity, old(stream.Tail()));
        && Readable(stream) && stream.Tail() == read.rest && ok == read.value.Some?
        && Valid() && (ok ==> Held(atoms) == read.value.value)
    {
      hide C.ReadAtoms, C.ReadValues, Continues, C.Count;
      ghost var all := C.ReadAtoms(definition.atoms, capacity, stream.Tail());
      ContinuesFromStart(all);
      assert definition.atoms[0..] == definition.atoms && Held(atoms)[..0] == [];
      for i := 0 to |atoms|
        invariant Valid() && Readable(stream)
        invariant Continues(all, Held(atoms)[..i], C.ReadAtoms(definition.atoms[i..], capacity, stream.Tail()))
      {
        ReadsOneAtom(definition.atoms, capacity, i, all, Held(atoms)[..i], stream.Tail());
        var read := ReadAtom(stream, i);
        if !read {
          return false;
        }
      }
      assert Held(atoms)[..|atoms|] == Held(atoms) && definition.atoms[|atoms|..] == [];
      AllAtomsRead(capacity, all, Held(atoms), stream.Tail());
      ok := true;
    }

    method Write(stream: DataStream)
      requires Valid() && AtEnd(stream) && C.ValidFrame(View())
      modifies stream, stream.data
      ensures AtEnd(stream) && stream.data.bytes == old(stream.data.bytes) + C.WriteFrame(View())
    {
      hide Le32, C.Size, C.WriteAtoms, C.WriteFrame;
      var size := Size();
      WriteFrameInParts(View(), stream.data.bytes);
      WriteHead(stream, size % 0x1_0000_0000);
      WriteAtoms(stream);
    }

    /** Length, name and, for an array, capacity. */
    method WriteHead(stream: DataStream, frameSize: uint32)
      requires AtEnd(stream)
      modifies stream, stream.data
      ensures AtEnd(stream)
      ensures var head := old(stream.data.bytes) + Le32(frameSize) + definition.name + [0];
        stream.data.bytes == if definition.isArray then head + Le32(capacity) else head
    {
      Append(stream, Le32(frameSize));
      Append(stream, definition.name);
      Append(stream, [0]);
      if definition.isArray {
        Append(stream, Le32(capacity));
      }
    }

    method WriteAtoms(stream: DataStream)
      requires Valid() && AtEnd(stream) && C.ValidAtoms(definition.atoms, capacity, Held(atoms))
      modifies stream, stream.data
      ensures AtEnd(stream)
      ensures stream.data.bytes == old(stream.data.bytes) + C.WriteAtoms(definition.atoms, capacity, Held(atoms))
    {
      hide C.WriteAtoms, C.WriteValues, C.Count, C.ValidValue;
      ghost var (ds, held) := (definition.atoms, Held(atoms));
      ghost var end := stream.data.bytes + C.WriteAtoms(ds, capacity, held);
      assert ds[0..] == ds && held[0..] == held;
      for i := 0 to |atoms|
        invariant AtEnd(stream) && C.ValidAtoms(ds[i..], capacity, held[i..])
        invariant stream.data.bytes + C.WriteAtoms(ds[i..], capacity, held[i..]) == end
      {
        WritesOneAtom(ds, capacity, held, i, stream.data.bytes);
        atoms[i].Write(stream);
      }
      NoAtoms(ds[|atoms|..], capacity, held[|atoms|..]);
    }
  }

  /** DataFramesFactory: frames by their definitions. */
  class DataFramesFactory {
    const definitions: C.Definitions

    constructor (definitions: C.Definitions)
      ensures this.definitions == definitions
    {
      this.definitions := definitions;
    }

    method BuildFrame(definition: C.FrameDefinition) returns (frame: DataFrame)
      ensures fresh(frame) && fresh(frame.atoms)
      ensures frame.Valid() && frame.definition == definition && frame.capacity == 1
      ensures forall i :: 0 <= i < |definition.atoms| ==> Held(frame.atoms)[i] == [Default(definition.atoms[i].kind)]
    {
      var atoms: seq<DataAtom> := [];
      for i := 0 to |definition.atoms|
        invariant fresh(atoms) && Made(atoms, definition.atoms[..i])
        invariant forall a <- atoms :: a.values == [Default(a.definition.kind)]
      {
        var atom := new DataAtom(definition.atoms[i]);
        atoms := atoms + [atom];
      }
      assert definition.atoms[..|definition.atoms|] == definition.atoms;
      frame := new DataFrame(definition, atoms);
    }

    /** A frame by its name, then its content; the stream stays where the reading ended. */
    method ReadBody(stream: DataStream) returns (frame: DataFrame?)
      requires Readable(stream)
      modifies stream
      ensures Readable(stream) && Reads(frame, C.ReadBody(definitions, old(stream.Tail())).value)
      ensures frame != null ==> fresh(frame) && fresh(frame.atoms)
    {
      var name := stream.ReadString();
      var definition := definitions.ByKey(name);
      if definition.None? {
        return null;
      }
      frame := BuildFrame(definition.value);
      var ok := frame.Read(stream);
      if !ok {
        frame := null;
      }
    }

    /** readFrame: the length, the body, and on to where the length says that the next frame starts. */
    method ReadFrame(stream: DataStream) returns (frame: DataFrame?)
      requires Readable(stream)
      modifies stream
      ensures var step := C.ReadFrame(definitions, stream.data.bytes, old(stream.position));
        Reads(frame, step.frame) && stream.position == step.next
      ensures frame != null ==> fresh(frame) && fresh(frame.atoms)
    {
      hide C.ReadBody, FromLe32, C.Wrap32, Reads;
      frame := null;
      NothingRead();
      var frameSize: uint32 := 0;
      var frameStart := stream.position;
      var size := stream.Read(4);
      if size.Some? {
        frameSize := FromLe32(size.value);
        assert size.value == stream.data.bytes[frameStart..frameStart + 4];
        assert stream.Tail() == stream.data.bytes[frameStart + 4..];
        frame := ReadBody(stream);
      }
      stream.SetPosition(C.Wrap32(frameStart + frameSize + 4));
    }

    /** readFrames, cut off after a number of rounds: the loop need not end by itself. */
    method ReadFrames(stream: DataStream, rounds: nat) returns (frames: seq<DataFrame>, ended: bool)
      requires Readable(stream)
      modifies stream
      ensures var read := C.ReadFrames(definitions, stream.data.bytes, old(stream.position), rounds);
        ended == read.ended && |frames| == |read.frames|
        && forall i :: 0 <= i < |frames| ==> Reads(frames[i], Some(read.frames[i]))
    {
      hide C.ReadFrame, C.ReadFrames, Reads;
      ghost var data := stream.data.bytes;
      ghost var (all, view) := (C.ReadFrames(definitions, data, stream.position, rounds), []);
      frames := [];
      assert all.frames == [] + all.frames;
      var left := rounds;
      while !stream.EndOfData() && left > 0
        invariant Readable(stream) && stream.data.bytes == data
        invariant |frames| == |view| && fresh(frames)
        invariant forall i :: 0 <= i < |frames| ==> fresh(frames[i].atoms) && Reads(frames[i], Some(view[i]))
        invariant var more := C.ReadFrames(definitions, data, stream.position, left);
          all == C.FramesRead(view + more.frames, more.ended)
        decreases left
      {
        ghost var step := C.ReadFrame(definitions, data, stream.position);
        ReadsOneFrame(definitions, data, stream.position, left, view);
        var frame := ReadFrame(stream);
        NullIsNone(frame, step.frame);
        if frame == null {
          return frames, true;
        }
        frames, view := frames + [frame], view + [step.frame.value];
        left := left - 1;
      }
      ReadingStops(definitions, data, stream.position, left, all, view);
      ended := stream.EndOfData();
    }
  }

  lemma NothingRead()
    ensures Reads(null, None)
  {
  }

  lemma NullIsNone(frame: DataFrame?, value: Option<C.Frame>)
    requires Reads(frame, value)
    ensures frame == null <==> value == None
  {
  }

  lemma ReadsOneFrame(ds: C.Definitions, data: seq<byte>, start: nat, rounds: nat, done: seq<C.Frame>)
    requires start < |data| && rounds > 0
    ensures var (step, all) := (C.ReadFrame(ds, data, start), C.ReadFrames(ds, data, start, rounds));
      if step.frame.None? then done + all.frames == done && all.ended
      else
        var more := C.ReadFrames(ds, data, step.next, rounds - 1);
        done + all.frames == done + [step.frame.value] + more.frames && all.ended == more.ended
  {
    hide C.ReadFrame;
    var step := C.ReadFrame(ds, data, start);
    if step.frame.None? {
      assert done + [] == done;
    } else {
      var more := C.ReadFrames(ds, data, step.next, rounds - 1);
      assert done + ([step.frame.value] + more.frames) == done + [step.frame.value] + more.frames;
    }
  }

  lemma ReadingStops(ds: C.Definitions, data: seq<byte>, start: nat, rounds: nat, all: C.FramesRead, done: seq<C.Frame>)
    requires start <= |data| && (start == |data| || rounds == 0)
    requires var more := C.ReadFrames(ds, data, start, rounds); all == C.FramesRead(done + more.frames, more.ended)
    ensures all == C.FramesRead(done, start == |data|)
  {
    assert done + [] == done;
  }

  /** The object, or null, is what the value says. */
  ghost predicate Reads(frame: DataFrame?, value: Option<C.Frame>)
    reads frame, if frame == null then [] else frame.atoms
  {
    if frame == null then value == None else value.Some? && frame.Valid() && frame.View() == value.value
  }

  /** Some values are read; the rest of the reading decides. */
  ghost predicate Continues<V>(all: Taken<seq<V>>, done: seq<V>, rest: Taken<seq<V>>) {
    all == if rest.value.None? then rest else Taken(Some(done + rest.value.value), rest.rest)
  }

  /** A byte array atom has one value before and after; any other takes what it is told. */
  lemma CountFollows(d: C.AtomDefinition, before: nat, after: nat)
    ensures d.kind.Bytes? ==> C.Count(d, after) == C.Count(d, before)
    ensures !d.kind.Bytes? ==> C.Count(d, after) == if d.isScalar then 1 else after
  {
  }

  lemma ContinuesFromStart<V>(all: Taken<seq<V>>)
    ensures Continues(all, [], all)
  {
    assert all.value.Some? ==> [] + all.value.value == all.value.value;
  }

  lemma ReadsOne(kind: C.Kind, all: Taken<C.Values>, done: C.Values, n: nat, tail: seq<byte>)
    requires n > 0 && Continues(all, done, C.ReadValues(kind, n, tail))
    ensures var first := C.ReadValue(kind, tail);
      if first.value.None? then all == Taken(None, first.rest)
      else Continues(all, done + [first.value.value], C.ReadValues(kind, n - 1, first.rest))
  {
    var first := C.ReadValue(kind, tail);
    if first.value.Some? {
      var more := C.ReadValues(kind, n - 1, first.rest);
      if more.value.Some? {
        assert done + ([first.value.value] + more.value.value) == done + [first.value.value] + more.value.value;
      }
    }
  }

  lemma AllRead(kind: C.Kind, all: Taken<C.Values>, done: C.Values, tail: seq<byte>)
    requires Continues(all, done, C.ReadValues(kind, 0, tail))
    ensures all == Taken(Some(done), tail)
  {
    assert done + [] == done;
  }

  lemma WritesOne(kind: C.Kind, values: C.Values, i: nat, before: seq<byte>)
    requires i < |values| && forall v <- values :: C.ValidValue(kind, v)
    ensures before + C.WriteValues(kind, values[i..])
         == before + C.WriteValue(kind, values[i]) + C.WriteValues(kind, values[i + 1..])
  {
    assert values[i..][1..] == values[i + 1..];
  }

  lemma ReadsOneAtom(ds: seq<C.AtomDefinition>, capacity: nat, i: nat, all: Taken<seq<C.Values>>, done: seq<C.Values>,
                     tail: seq<byte>)
    requires i < |ds| && Continues(all, done, C.ReadAtoms(ds[i..], capacity, tail))
    ensures var first := C.ReadValues(ds[i].kind, C.Count(ds[i], capacity), tail);
      if first.value.None? then all == Taken(None, first.rest)
      else Continues(all, done + [first.value.value], C.ReadAtoms(ds[i + 1..], capacity, first.rest))
  {
    assert ds[i..][1..] == ds[i + 1..];
    var first := C.ReadValues(ds[i].kind, C.Count(ds[i], capacity), tail);
    if first.value.Some? {
      var more := C.ReadAtoms(ds[i + 1..], capacity, first.rest);
      if more.value.Some? {
        assert done + ([first.value.value] + more.value.value) == done + [first.value.value] + more.value.value;
      }
    }
  }

  lemma AllAtomsRead(capacity: nat, all: Taken<seq<C.Values>>, done: seq<C.Values>, tail: seq<byte>)
    requires Continues(all, done, C.ReadAtoms([], capacity, tail))
    ensures all == Taken(Some(done), tail)
  {
    assert done + [] == done;
  }

  lemma WritesOneAtom(ds: seq<C.AtomDefinition>, capacity: nat, held: seq<C.Values>, i: nat, before: seq<byte>)
    requires i < |ds| == |held| && C.ValidAtoms(ds[i..], capacity, held[i..])
    ensures C.ValidAtoms(ds[i + 1..], capacity, held[i + 1..]) && forall v <- held[i] :: C.ValidValue(ds[i].kind, v)
    ensures before + C.WriteAtoms(ds[i..], capacity, held[i..])
         == before + C.WriteValues(ds[i].kind, held[i]) + C.WriteAtoms(ds[i + 1..], capacity, held[i + 1..])
  {
    assert ds[i..][1..] == ds[i + 1..] && held[i..][1..] == held[i + 1..];
    assert C.ValidValues(ds[i..][0], capacity, held[i..][0]);
    var (rest, after) := (ds[i + 1..], held[i + 1..]);
    forall k | 0 <= k < |rest| ensures C.ValidValues(rest[k], capacity, after[k]) {
      assert C.ValidValues(ds[i..][k + 1], capacity, held[i..][k + 1]);
    }
  }

  lemma WriteFrameInParts(f: C.Frame, start: seq<byte>)
    requires C.ValidFrame(f)
    ensures var head := start + Le32(C.Size(f) % 0x1_0000_0000) + f.definition.name + [0];
      start + C.WriteFrame(f) == (if f.definition.isArray then head + Le32(f.capacity) else head) + C.FrameAtoms(f)
  {
    hide Le32, C.FrameAtoms, C.Size;
    var (size, name, atoms) := (Le32(C.Size(f) % 0x1_0000_0000), f.definition.name, C.FrameAtoms(f));
    var capacity := if f.definition.isArray then Le32(f.capacity) else [];
    assert start + (size + (name + [0] + capacity + atoms)) == start + size + name + [0] + capacity + atoms;
    assert start + size + name + [0] + [] == start + size + name + [0];
  }

  lemma NoAtoms(ds: seq<C.AtomDefinition>, capacity: nat, held: seq<C.Values>)
    requires ds == [] && held == []
    ensures C.WriteAtoms(ds, capacity, held) == []
  {
  }
}
