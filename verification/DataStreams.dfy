/** DataStream (Utils/DataStream.h, Utils/DataStream.cpp): a cursor over a byte array that someone else owns. What is
    left to read, the tail, is the abstract value of a stream that is read. */
module DataStreams {
  import opened Bytes

  /** What a read takes off the tail of a stream. */
  datatype Taken<+V> = Taken(value: Option<V>, rest: seq<byte>)

  /** A plain value of n bytes; with fewer bytes left the stream is moved to its end. At the end even an empty value
      is refused. */
  function TakeBlock(tail: seq<byte>, n: nat): Taken<seq<byte>> {
    if n > |tail| || tail == [] then Taken(None, []) else Taken(Some(tail[..n]), tail[n..])
  }

  /** A byte array after its length; what is missing of it is not an error unless everything is. */
  function TakeBytes(tail: seq<byte>): Taken<seq<byte>> {
    if |tail| < 4 then Taken(None, [])
    else
      var (n, rest) := (FromLe32(tail[..4]), tail[4..]);
      if n == 0 then Taken(Some([]), rest)
      else if rest == [] then Taken(None, [])
      else
        var m := if |rest| < n then |rest| else n;
        Taken(Some(rest[..m]), rest[m..])
  }

  function UpToZero(s: seq<byte>): (k: nat)
    ensures k <= |s| && 0 !in s[..k] && (k < |s| ==> s[k] == 0)
  {
    if s == [] || s[0] == 0 then 0 else 1 + UpToZero(s[1..])
  }

  /** A string up to its zero, or all that is left. Reading a string never fails. */
  function TakeString(tail: seq<byte>): Taken<seq<byte>> {
    var k := UpToZero(tail);
    Taken(Some(tail[..k]), if k < |tail| then tail[k + 1..] else [])
  }

  /** What writing at a position makes of the bytes: the array grows when needed, and bytes between its old end and the
      position are whatever the allocator left there. */
  function Overwritten(bytes: seq<byte>, position: nat, value: seq<byte>, gap: seq<byte>): seq<byte>
    requires |gap| == GapSize(bytes, position)
  {
    (bytes + gap)[..position] + value + if position + |value| < |bytes| then bytes[position + |value|..] else []
  }

  function GapSize(bytes: seq<byte>, position: nat): nat {
    if position > |bytes| then position - |bytes| else 0
  }

  function Clamp(value: int, size: nat): nat {
    if value > size then size else if value < 0 then 0 else value
  }

  /** A QByteArray that is shared by reference. */
  class ByteBuffer {
    var bytes: seq<byte>

    constructor (bytes: seq<byte>)
      ensures this.bytes == bytes
    {
      this.bytes := bytes;
    }
  }

  class DataStream {
    const data: ByteBuffer
    var position: nat

    constructor (data: ByteBuffer)
      ensures this.data == data && position == 0
    {
      this.data := data;
      position := 0;
    }

    /** Nothing is left past the end, where the stream may be when its bytes were cut from outside. */
    ghost function Tail(): seq<byte>
      reads this, data
    {
      if position > |data.bytes| then [] else data.bytes[position..]
    }

    method SetPosition(value: int)
      modifies this
      ensures position == Clamp(value, |data.bytes|)
    {
      var newPosition := value;
      if newPosition > |data.bytes| {
        newPosition := |data.bytes|;
      } else if newPosition < 0 {
        newPosition := 0;
      }
      position := newPosition;
    }

    predicate EndOfData()
      reads this, data
    {
      position >= |data.bytes|
    }

    /** Writes the value at the position and moves behind it. The gap is unspecified memory. */
    method Write(value: seq<byte>) returns (ghost gap: seq<byte>)
      modifies this, data
      ensures |gap| == GapSize(old(data.bytes), old(position))
      ensures data.bytes == Overwritten(old(data.bytes), old(position), value, gap)
      ensures position == old(position) + |value|
    {
      gap := [];
      var resized := data.bytes;
      if position > |resized| {
        assert |seq(position - |resized|, _ => 0 as byte)| == position - |resized|;
        var fill: seq<byte> :| |fill| == position - |resized|;
        gap := fill;
        resized := resized + fill;
      }
      var end := position + |value|;
      data.bytes := resized[..position] + value + if end < |resized| then resized[end..] else [];
      SetPosition(end);
    }

    method Read(n: nat) returns (value: Option<seq<byte>>)
      modifies this
      ensures position <= |data.bytes|
      ensures Taken(value, Tail()) == TakeBlock(old(Tail()), n)
    {
      if position + n > |data.bytes| {
        SetPosition(|data.bytes|);
      }
      if EndOfData() {
        return None;
      }
      value := Some(data.bytes[position..position + n]);
      assert Tail()[..n] == value.value && Tail()[n..] == data.bytes[position + n..];
      SetPosition(position + n);
    }

    method ReadByteArray() returns (value: Option<seq<byte>>)
      modifies this
      ensures position <= |data.bytes|
      ensures Taken(value, Tail()) == TakeBytes(old(Tail()))
    {
      var sizeBytes := Read(4);
      if sizeBytes.None? {
        return None;
      }
      var valueSize := FromLe32(sizeBytes.value);
      if valueSize == 0 {
        return Some([]);
      }
      var tailSize := |data.bytes| - position;
      if tailSize <= 0 {
        return None;
      }
      if tailSize < valueSize {
        valueSize := tailSize;
      }
      value := Some(data.bytes[position..position + valueSize]);
      assert value.value == Tail()[..valueSize];
      SetPosition(position + valueSize);
    }

    /** Looks for the zero from the position on. */
    method IndexOfZero() returns (index: int)
      ensures index == if UpToZero(Tail()) < |Tail()| then position + UpToZero(Tail()) else -1
    {
      index := position;
      while index < |data.bytes|
        invariant position <= index && (index == position || index <= |data.bytes|)
        invariant index <= |data.bytes| ==> UpToZero(Tail()) == index - position + UpToZero(data.bytes[index..])
      {
        if data.bytes[index] == 0 {
          return;
        }
        assert data.bytes[index..][1..] == data.bytes[index + 1..];
        index := index + 1;
      }
      index := -1;
    }

    /** Past the end nothing is read, but the stream is moved as far before the end as it was past it. */
    method ReadString() returns (value: seq<byte>)
      modifies this
      ensures position <= |data.bytes|
      ensures old(position) <= |data.bytes| ==> Taken(Some(value), Tail()) == TakeString(old(Tail()))
      ensures old(position) > |data.bytes| ==>
        value == [] && position == Clamp(2 * |data.bytes| - old(position), |data.bytes|)
    {
      var stringTail := IndexOfZero();
      var found := stringTail != -1;
      if !found {
        stringTail := |data.bytes| - 1;
      }
      var size := stringTail - position + 1;
      if size + 1 > 0 {
        value := data.bytes[position..position + size - if found then 1 else 0];
        assert value == Tail()[..UpToZero(Tail())];
      } else {
        value := [];
        SetPosition(position + 1);
      }
      SetPosition(position + size);
    }
  }
}
