/** Typed frames on values: how frames are written into a stream (Frames/DataFrames.cpp, Frames/DataAtoms.h) and
    read back by their definitions (Frames/DataFramesFactory.cpp). */
module FrameCodec {
  import opened Bytes
  import opened DataStreams

  // ---------- definitions and frames ----------

  /** What an atom holds: plain values of a width (an opaque block of bytes each), zero-terminated strings, byte
      arrays. */
  datatype Kind = Fixed(width: nat) | Text | Bytes

  datatype AtomDefinition = AtomDefinition(kind: Kind, isScalar: bool)

  datatype FrameDefinition = FrameDefinition(name: seq<byte>, isArray: bool, atoms: seq<AtomDefinition>)

  /** The values of an atom. */
  type Values = seq<seq<byte>>

  datatype Frame = Frame(definition: FrameDefinition, capacity: uint32, atoms: seq<Values>)

  /** Definitions are found by the upper-cased name; how letters are upper-cased is a matter of the text codec. */
  datatype Definitions = Definitions(upper: seq<byte> -> seq<byte>, frames: map<seq<byte>, FrameDefinition>) {
    function ByKey(name: seq<byte>): Option<FrameDefinition> {
      if upper(name) in frames then Some(frames[upper(name)]) else None
    }
  }

  /** How many values an atom of a frame holds. A byte array atom ignores setCapacity. */
  function Count(d: AtomDefinition, capacity: nat): nat {
    if d.isScalar || d.kind.Bytes? then 1 else capacity
  }

  predicate ValidValue(kind: Kind, v: seq<byte>) {
    match kind
    case Fixed(width) => |v| == width && width >= 1
    case Text => 0 !in v
    case Bytes => |v| < 0x8000_0000
  }

  ghost predicate ValidValues(d: AtomDefinition, capacity: nat, values: Values) {
    |values| == Count(d, capacity) && forall v <- values :: ValidValue(d.kind, v)
  }

  ghost predicate ValidAtoms(ds: seq<AtomDefinition>, capacity: nat, atoms: seq<Values>) {
    |atoms| == |ds| && forall i :: 0 <= i < |ds| ==> ValidValues(ds[i], capacity, atoms[i])
  }

  /** What building a frame and setCapacity keep. */
  ghost predicate ValidFrame(f: Frame) {
    && f.capacity >= 1 && 0 !in f.definition.name
    && ValidAtoms(f.definition.atoms, f.capacity, f.atoms)
  }

  // ---------- writing ----------

  function WriteValue(kind: Kind, v: seq<byte>): seq<byte>
    requires ValidValue(kind, v)
  {
    match kind
    case Fixed(_) => v
    case Text => v + [0]
    case Bytes => Le32(|v|) + v
  }

  function WriteValues(kind: Kind, values: Values): seq<byte>
    requires forall v <- values :: ValidValue(kind, v)
  {
    if values == [] then [] else WriteValue(kind, values[0]) + WriteValues(kind, values[1..])
  }

  function WriteAtoms(ds: seq<AtomDefinition>, capacity: nat, atoms: seq<Values>): seq<byte>
    requires ValidAtoms(ds, capacity, atoms)
  {
    if ds == [] then []
    else
      assert ValidValues(ds[0], capacity, atoms[0]);
      WriteValues(ds[0].kind, atoms[0]) + WriteAtoms(ds[1..], capacity, atoms[1..])
  }

  function FrameAtoms(f: Frame): seq<byte>
    requires ValidFrame(f)
  {
    WriteAtoms(f.definition.atoms, f.capacity, f.atoms)
  }

  /** Name, capacity and atoms, as they follow the length. */
  function WriteBody(f: Frame): seq<byte>
    requires ValidFrame(f)
  {
    f.definition.name + [0] + (if f.definition.isArray then Le32(f.capacity) else []) + FrameAtoms(f)
  }

  /** The size a frame announces. */
  function ValueSize(kind: Kind, v: seq<byte>): nat {
    match kind
    case Fixed(width) => width
    case Text => |v| + 1
    case Bytes => |v| + 4
  }

  function ValuesSize(kind: Kind, values: Values): nat {
    if values == [] then 0 else ValueSize(kind, values[0]) + ValuesSize(kind, values[1..])
  }

  function AtomsSize(ds: seq<AtomDefinition>, atoms: seq<Values>): nat
    requires |atoms| == |ds|
  {
    if ds == [] then 0 else ValuesSize(ds[0].kind, atoms[0]) + AtomsSize(ds[1..], atoms[1..])
  }

  function Size(f: Frame): nat
    requires |f.atoms| == |f.definition.atoms|
  {
    |f.definition.name| + 1 + (if f.definition.isArray then 4 else 0) + AtomsSize(f.definition.atoms, f.atoms)
  }

  /** The length prefix holds the size modulo 2^32. */
  function WriteFrame(f: Frame): seq<byte>
    requires ValidFrame(f)
  {
    Le32(Size(f) % 0x1_0000_0000) + WriteBody(f)
  }

  function WriteFrames(frames: seq<Frame>): seq<byte>
    requires forall f <- frames :: ValidFrame(f)
  {
    if frames == [] then [] else WriteFrame(frames[0]) + WriteFrames(frames[1..])
  }

  // ---------- reading ----------

  function ReadValue(kind: Kind, tail: seq<byte>): Taken<seq<byte>> {
    match kind
    case Fixed(width) => TakeBlock(tail, width)
    case Text => TakeString(tail)
    case Bytes => TakeBytes(tail)
  }

  function ReadValues(kind: Kind, n: nat, tail: seq<byte>): Taken<Values> {
    if n == 0 then Taken(Some([]), tail)
    else
      var first := ReadValue(kind, tail);
      if first.value.None? then Taken(None, first.rest)
      else
        var more := ReadValues(kind, n - 1, first.rest);
        if more.value.None? then more else Taken(Some([first.value.value] + more.value.value), more.rest)
  }

  function ReadAtoms(ds: seq<AtomDefinition>, capacity: nat, tail: seq<byte>): Taken<seq<Values>> {
    if ds == [] then Taken(Some([]), tail)
    else
      var first := ReadValues(ds[0].kind, Count(ds[0], capacity), tail);
      if first.value.None? then Taken(None, first.rest)
      else
        var more := ReadAtoms(ds[1..], capacity, first.rest);
        if more.value.None? then more else Taken(Some([first.value.value] + more.value.value), more.rest)
  }

  /** Reads the capacity of an array frame; more than there are bytes left is refused, and 0 becomes 1. */
  function ReadCapacity(d: FrameDefinition, tail: seq<byte>): Taken<uint32> {
    if !d.isArray then Taken(Some(1), tail)
    else
      var read := TakeBlock(tail, 4);
      if read.value.None? then Taken(None, read.rest)
      else
        var capacity := FromLe32(read.value.value);
        if capacity > |read.rest| then Taken(None, read.rest)
        else Taken(Some(if capacity < 1 then 1 else capacity), read.rest)
  }

  /** DataFrame::read: capacity and atoms. */
  function ReadContent(d: FrameDefinition, tail: seq<byte>): Taken<Frame> {
    var capacity := ReadCapacity(d, tail);
    if capacity.value.None? then Taken(None, capacity.rest)
    else
      var atoms := ReadAtoms(d.atoms, capacity.value.value, capacity.rest);
      if atoms.value.None? then Taken(None, atoms.rest)
      else Taken(Some(Frame(d, capacity.value.value, atoms.value.value)), atoms.rest)
  }

  /** A frame without its length: the name, then what its definition says. */
  function ReadBody(ds: Definitions, tail: seq<byte>): Taken<Frame> {
    var name := TakeString(tail);
    match ds.ByKey(name.value.value)
    case None => Taken(None, name.rest)
    case Some(d) => ReadContent(d, name.rest)
  }

  /** A signed 32-bit integer. */
  function Wrap32(n: int): int {
    (n + 0x8000_0000) % 0x1_0000_0000 - 0x8000_0000
  }

  /** Where the next frame starts, by the length read at the start of this one. */
  function NextStart(data: seq<byte>, start: nat, size: uint32): nat {
    Clamp(Wrap32(start + size + 4), |data|)
  }

  /** The length that stands at a position. */
  function LengthAt(data: seq<byte>, p: nat): uint32
    requires p + 4 <= |data|
  {
    FromLe32(data[p..p + 4])
  }

  datatype Step = Step(frame: Option<Frame>, next: nat)

  /** readFrame on a stream that stands at `start`. */
  function ReadFrame(ds: Definitions, data: seq<byte>, start: nat): (step: Step)
    requires start <= |data|
    ensures step.next <= |data|
  {
    if start + 4 > |data| then Step(None, NextStart(data, start, 0))
    else Step(ReadBody(ds, data[start + 4..]).value, NextStart(data, start, LengthAt(data, start)))
  }

  /** What at most `rounds` turns of readFrames give, and whether the loop ended by then. */
  datatype FramesRead = FramesRead(frames: seq<Frame>, ended: bool)

  function ReadFrames(ds: Definitions, data: seq<byte>, start: nat, rounds: nat): FramesRead
    requires start <= |data|
    decreases rounds
  {
    if start >= |data| then FramesRead([], true)
    else if rounds == 0 then FramesRead([], false)
    else
      var step := ReadFrame(ds, data, start);
      if step.frame.None? then FramesRead([], true)
      else
        var more := ReadFrames(ds, data, step.next, rounds - 1);
        FramesRead([step.frame.value] + more.frames, more.ended)
  }
}
