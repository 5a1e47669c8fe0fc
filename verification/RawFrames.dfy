/** Frames as raw bytes (Frames/DataFrameRawData.cpp): the snapshot of a queue and the parser of such a snapshot. */
module RawFrames {
  import opened Bytes
  import opened DataStreams
  import opened Extraction

  /** A frame built from a block of memory. `dataOffset` is where its data begins in the buffer; the name string is set
      only when data follows the name. */
  datatype RawFrame = RawFrame(
    isValid: bool, buffer: seq<byte>, dataOffset: nat, dataLength: nat, nameString: seq<byte>)

  const LENGTH_SIZE := 4

  /** The first byte as a signed char is above 32. */
  predicate StartsName(data: seq<byte>) {
    data != [] && 32 < data[0] < 128
  }

  function Make(data: seq<byte>): RawFrame {
    if !StartsName(data) then RawFrame(false, [], 0, 0, [])
    else
      var zero := UpToZero(data);
      if zero + 1 < |data| then RawFrame(true, data, zero + 1, |data| - zero - 1, data[..zero])
      else RawFrame(true, data, 1, 0, [])
  }

  /** The constructor's scan for the zero byte. */
  method MakeByScan(data: seq<byte>) returns (frame: RawFrame)
    ensures frame == Make(data)
  {
    if |data| == 0 || 32 >= data[0] || data[0] >= 128 {
      return RawFrame(false, [], 0, 0, []);
    }
    frame := RawFrame(true, data, 1, 0, []);
    var zeroPosition := 0;
    ghost var scanned := |data|;
    for i := 0 to |data|
      invariant 0 !in data[..i] && zeroPosition == 0 && scanned == |data|
    {
      if data[i] == 0 {
        zeroPosition, scanned := i, i;
        break;
      }
    }
    assert data[..|data|] == data;
    FirstZero(data, scanned);
    if zeroPosition > 0 && zeroPosition + 1 < |data| {
      frame := RawFrame(true, data, zeroPosition + 1, |data| - zeroPosition - 1, data[..zeroPosition]);
    }
  }

  lemma {:induction false} FirstZero(data: seq<byte>, k: nat)
    requires k <= |data| && 0 !in data[..k] && (k < |data| ==> data[k] == 0)
    ensures UpToZero(data) == k
  {
    if k > 0 {
      assert data[0] == data[..k][0] && data[1..][..k - 1] == data[..k][1..];
      FirstZero(data[1..], k - 1);
    }
  }

  /** What a block of memory is taken for: with a first byte in 33..127, a name up to the first zero and the data
      behind it, byte for byte; a name that nothing follows is not kept, and the data then is empty; anything else
      is invalid. */
  lemma {:induction false} NameAndData(name: seq<byte>, data: seq<byte>)
    requires 0 !in name
    ensures var (f, block) := (Make(name + [0] + data), name + [0] + data);
      if name == [] || name[0] < 33 || name[0] > 127 then f == RawFrame(false, [], 0, 0, [])
      else
        && f.isValid && f.buffer == block
        && (data != [] ==>
             && f.nameString == name && f.dataOffset + f.dataLength == |block| && f.dataOffset >= 1
             && block[f.dataOffset..f.dataOffset + f.dataLength] == data && block[f.dataOffset - 1] == 0)
        && (data == [] ==> f.nameString == [] && f.dataLength == 0 && f.dataOffset == 1)
    ensures var f := Make(name);
      if name == [] || name[0] < 33 || name[0] > 127 then !f.isValid
      else f.isValid && f.buffer == name && f.nameString == [] && f.dataLength == 0 && f.dataOffset == 1
  {
    var block := name + [0] + data;
    assert block[..|name|] == name && block[|name|] == 0 && block[|name| + 1..] == data;
    FirstZero(block, |name|);
    assert name[..|name|] == name;
    FirstZero(name, |name|);
  }

  /** What a frame is in a snapshot: its length and its bytes. */
  function Entry(buffer: seq<byte>): seq<byte>
    requires |buffer| < 0x1_0000_0000
  {
    Le32(|buffer|) + buffer
  }

  /** Its length stands before it, least significant byte first. */
  lemma {:induction false} EntryLayout(buffer: seq<byte>)
    requires |buffer| < 0x1_0000_0000
    ensures Number(Entry(buffer), 0) == |buffer| && Entry(buffer)[4..] == buffer
  {
    NumberWritten([], |buffer|, buffer);
    assert [] + Le32(|buffer|) + buffer == Entry(buffer);
  }

  ghost predicate Fit(buffers: seq<seq<byte>>) {
    forall b <- buffers :: |b| < 0x1_0000_0000
  }

  function Entries(buffers: seq<seq<byte>>): (entries: seq<seq<byte>>)
    requires Fit(buffers)
    ensures |entries| == |buffers|
  {
    if buffers == [] then [] else [Entry(buffers[0])] + Entries(buffers[1..])
  }

  function Snapshot(buffers: seq<seq<byte>>): seq<byte>
    requires Fit(buffers)
  {
    Flatten(Entries(buffers))
  }

  /** The frames that a list of blocks makes, without the invalid ones. */
  function Frames(blocks: seq<seq<byte>>): seq<RawFrame> {
    if blocks == [] then []
    else (if StartsName(blocks[0]) then [Make(blocks[0])] else []) + Frames(blocks[1..])
  }

  /** Entry by entry for as long as one is whole. */
  function Parse(source: seq<byte>): seq<RawFrame>
    decreases |source|
  {
    if |source| < LENGTH_SIZE then []
    else
      var length := FromLe32(source[..LENGTH_SIZE]);
      if LENGTH_SIZE + length > |source| then []
      else
        var frame := Make(source[LENGTH_SIZE..LENGTH_SIZE + length]);
        (if frame.isValid then [frame] else []) + Parse(source[LENGTH_SIZE + length..])
  }

  method ParseSource(source: seq<byte>) returns (result: seq<RawFrame>)
    ensures result == Parse(source)
  {
    hide Parse, FromLe32, Make;
    result := [];
    if |source| <= 0 {
      NothingToParse(source);
      return;
    }
    var position := 0;
    assert source[0..] == source;
    while position + LENGTH_SIZE <= |source|
      invariant position <= |source| && result + Parse(source[position..]) == Parse(source)
      decreases |source| - position
    {
      ParseOne(source, position);
      var frameLength := FromLe32(source[position..position + LENGTH_SIZE]);
      position := position + LENGTH_SIZE;
      if position + frameLength > |source| {
        break;
      }
      var frame := MakeByScan(source[position..position + frameLength]);
      if frame.isValid {
        result := result + [frame];
      }
      position := position + frameLength;
    }
    if position + LENGTH_SIZE > |source| {
      NothingToParse(source[position..]);
    }
  }

  lemma NothingToParse(source: seq<byte>)
    requires |source| < LENGTH_SIZE
    ensures Parse(source) == []
  {
  }

  /** One turn of the loop. */
  lemma ParseOne(source: seq<byte>, position: nat)
    requires position + LENGTH_SIZE <= |source|
    ensures var begin := position + LENGTH_SIZE;
      var end := begin + FromLe32(source[position..begin]);
      Parse(source[position..]) ==
        if end > |source| then []
        else (if Make(source[begin..end]).isValid then [Make(source[begin..end])] else []) + Parse(source[end..])
  {
    hide FromLe32, Make;
    var (rest, begin) := (source[position..], position + LENGTH_SIZE);
    var end := begin + FromLe32(source[position..begin]);
    SliceOfSlice(source, position, 0, LENGTH_SIZE);
    if end <= |source| {
      SliceOfSlice(source, position, LENGTH_SIZE, end - position);
    }
  }

  lemma SliceOfSlice<T>(s: seq<T>, from: nat, i: nat, j: nat)
    requires i <= j && from + j <= |s|
    ensures s[from..][i..j] == s[from + i..from + j] && s[from..][j..] == s[from + j..]
  {
  }

  // ---------- a snapshot parses to its frames ----------

  lemma ParseEntry(buffer: seq<byte>, rest: seq<byte>)
    requires |buffer| < 0x1_0000_0000
    ensures Parse(Entry(buffer) + rest) == (if StartsName(buffer) then [Make(buffer)] else []) + Parse(rest)
  {
    hide FromLe32, Le32;
    Le32RoundTrip(|buffer|);
    InThree(Le32(|buffer|), buffer, rest);
  }

  lemma InThree<T>(a: seq<T>, b: seq<T>, c: seq<T>)
    ensures var s := a + b + c;
      s[..|a|] == a && s[|a|..|a| + |b|] == b && s[|a| + |b|..] == c
  {
  }

  lemma ParsePartOfEntry(buffer: seq<byte>, n: nat)
    requires |buffer| < 0x1_0000_0000 && n < |Entry(buffer)|
    ensures Parse(Entry(buffer)[..n]) == []
  {
    hide FromLe32, Make;
    Le32RoundTrip(|buffer|);
    if n >= LENGTH_SIZE {
      assert Entry(buffer)[..n][..LENGTH_SIZE] == Le32(|buffer|);
    }
  }

  /** How many entries of a snapshot are whole in its first n bytes. */
  function WholeEntries(buffers: seq<seq<byte>>, n: nat): (k: nat)
    requires Fit(buffers)
    ensures k <= |buffers|
  {
    Whole(Entries(buffers), n)
  }

  lemma Cons(first: seq<byte>, rest: seq<seq<byte>>, n: nat)
    requires Fit([first] + rest)
    ensures Fit(rest) && Snapshot([first] + rest) == Entry(first) + Snapshot(rest)
    ensures WholeEntries([first] + rest, n) ==
      if n < |Entry(first)| then 0 else 1 + WholeEntries(rest, n - |Entry(first)|)
    ensures Frames([first] + rest) == (if StartsName(first) then [Make(first)] else []) + Frames(rest)
  {
    var all := [first] + rest;
    assert all[1..] == rest && first in all && forall b <- rest :: b in all;
    assert Entries(all)[0] == Entry(first) && Entries(all)[1..] == Entries(rest);
  }

  /** These are all that end before the cut: the next one does not. */
  lemma {:induction false} WholeEntriesEndBeforeTheCut(buffers: seq<seq<byte>>, n: nat)
    requires Fit(buffers)
    ensures var k := WholeEntries(buffers, n);
      |Snapshot(buffers[..k])| <= n && (k < |buffers| ==> n < |Snapshot(buffers[..k + 1])|)
  {
    hide Entry, Snapshot, WholeEntries, Frames;
    NoFrames();
    if buffers == [] {
      assert buffers[..0] == [];
    } else {
      var (first, rest) := (buffers[0], buffers[1..]);
      assert buffers == [first] + rest;
      Cons(first, rest, n);
      if n < |Entry(first)| {
        assert buffers[..0] == [] && buffers[..1] == [first] + [];
        Cons(first, [], n);
      } else {
        var k := WholeEntries(rest, n - |Entry(first)|);
        WholeEntriesEndBeforeTheCut(rest, n - |Entry(first)|);
        Cons(first, rest[..k], 0);
        assert buffers[..k + 1] == [first] + rest[..k];
        if k < |rest| {
          assert buffers[..k + 2] == [first] + rest[..k + 1];
          Cons(first, rest[..k + 1], 0);
        }
      }
    }
  }

  /** Cutting a snapshot at any byte and parsing it gives exactly the valid frames that lie wholly before the cut, in
      order and with the same bytes. */
  lemma {:induction false} TruncatedSnapshotParses(buffers: seq<seq<byte>>, n: nat)
    requires Fit(buffers) && n <= |Snapshot(buffers)|
    ensures var k := WholeEntries(buffers, n);
      && |Snapshot(buffers[..k])| <= n && (k < |buffers| ==> n < |Snapshot(buffers[..k + 1])|)
      && Parse(Snapshot(buffers)[..n]) == Frames(buffers[..k])
  {
    WholeEntriesEndBeforeTheCut(buffers, n);
    PrefixParses(buffers, n);
  }

  lemma {:induction false} PrefixParses(buffers: seq<seq<byte>>, n: nat)
    requires Fit(buffers) && n <= |Snapshot(buffers)|
    ensures Parse(Snapshot(buffers)[..n]) == Frames(buffers[..WholeEntries(buffers, n)])
  {
    hide Parse, Entry, Make, StartsName, Snapshot, WholeEntries, Frames;
    NoFrames();
    if buffers == [] {
      NothingToParse([]);
    } else {
      var (first, rest) := (buffers[0], buffers[1..]);
      assert buffers == [first] + rest;
      Cons(first, rest, n);
      if n < |Entry(first)| {
        assert Snapshot(buffers)[..n] == Entry(first)[..n];
        ParsePartOfEntry(first, n);
      } else {
        var m := n - |Entry(first)|;
        var k := WholeEntries(rest, m);
        PrefixParses(rest, m);
        assert Snapshot(buffers)[..n] == Entry(first) + Snapshot(rest)[..m];
        ParseEntry(first, Snapshot(rest)[..m]);
        assert buffers[..k + 1] == [first] + rest[..k];
        assert forall b <- [first] + rest[..k] :: b in buffers;
        Cons(first, rest[..k], 0);
      }
    }
  }

  lemma NoFrames()
    ensures Frames([]) == [] && Snapshot([]) == []
  {
  }

  /** Parsing a snapshot gives its valid frames. */
  lemma {:induction false} SnapshotRoundTrip(buffers: seq<seq<byte>>)
    requires Fit(buffers)
    ensures Parse(Snapshot(buffers)) == Frames(buffers)
  {
    var n := |Snapshot(buffers)|;
    TruncatedSnapshotParses(buffers, n);
    WholeStream(Entries(buffers));
    assert Snapshot(buffers)[..n] == Snapshot(buffers) && buffers[..|buffers|] == buffers;
  }
}
