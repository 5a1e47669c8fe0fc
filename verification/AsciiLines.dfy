/** PacketFactoryAsciiLines (Threads/PacketFactoryAsciiLines.cpp): text lines off a byte buffer. */
module AsciiLines {
  import opened Bytes

  const CR: byte := 13
  const LF: byte := 10

  predicate IsEnd(b: byte) {
    b == CR || b == LF
  }

  predicate NoEnds(s: seq<byte>) {
    forall b <- s :: !IsEnd(b)
  }

  /** How many bytes come before the first CR or LF. */
  function FirstEnd(data: seq<byte>): (k: nat)
    ensures k <= |data| && NoEnds(data[..k]) && (k < |data| ==> IsEnd(data[k]))
  {
    if data == [] || IsEnd(data[0]) then 0 else 1 + FirstEnd(data[1..])
  }

  datatype Split = Split(lines: seq<seq<byte>>, tail: seq<byte>)

  /** The non-empty segments that a CR or LF ends, and the tail that none ends. */
  function Lines(data: seq<byte>): Split
    decreases |data|
  {
    var k := FirstEnd(data);
    if k == |data| then Split([], data)
    else
      var more := Lines(data[k + 1..]);
      Split((if k > 0 then [data[..k]] else []) + more.lines, more.tail)
  }

  /** tryExtractPacket: one pass over the buffer; the packet, if there is a line, and the buffer it leaves. */
  method TryExtractPacket(data: seq<byte>) returns (packet: Option<seq<seq<byte>>>, rest: seq<byte>)
    ensures rest == Lines(data).tail
    ensures packet == if Lines(data).lines == [] then None else Some(Lines(data).lines)
  {
    hide Lines, NoEnds;
    var deleteToPosition := -1;
    NoLine([]);
    var currentLine: seq<byte> := [];
    var lines: seq<seq<byte>> := [];
    assert data[0..] == data && [] + Lines(data).lines == Lines(data).lines;
    for conveyorPosition := 0 to |data|
      invariant -1 <= deleteToPosition < conveyorPosition
      invariant currentLine == data[deleteToPosition + 1..conveyorPosition] && NoEnds(currentLine)
      invariant var more := Lines(data[deleteToPosition + 1..]); Lines(data) == Split(lines + more.lines, more.tail)
    {
      var currentChar := data[conveyorPosition];
      if !IsEnd(currentChar) {
        OneMore(currentLine, currentChar);
        currentLine := currentLine + [currentChar];
      } else {
        LineEnds(data, deleteToPosition + 1, conveyorPosition, lines);
        if currentLine != [] {
          lines := lines + [currentLine];
          currentLine := [];
        }
        deleteToPosition := conveyorPosition;
        assert data[conveyorPosition + 1..conveyorPosition + 1] == currentLine;
      }
    }
    assert data[deleteToPosition + 1..] == currentLine;
    NoLine(currentLine);
    assert lines + [] == lines;
    rest := if deleteToPosition >= 0 then data[deleteToPosition + 1..] else data;
    packet := if |lines| > 0 then Some(lines) else None;
  }

  lemma OneMore(line: seq<byte>, b: byte)
    requires NoEnds(line) && !IsEnd(b)
    ensures NoEnds(line + [b])
  {
  }

  lemma {:induction false} FirstEndIs(data: seq<byte>, k: nat)
    requires k <= |data| && NoEnds(data[..k]) && (k < |data| ==> IsEnd(data[k]))
    ensures FirstEnd(data) == k
  {
    if k > 0 {
      assert data[0] == data[..k][0] && data[1..][..k - 1] == data[..k][1..];
      FirstEndIs(data[1..], k - 1);
    }
  }

  lemma NoLine(data: seq<byte>)
    requires NoEnds(data)
    ensures Lines(data) == Split([], data) && NoEnds([])
  {
    assert data[..|data|] == data;
    FirstEndIs(data, |data|);
  }

  /** Where the bytes from `start` to the end character at `end` are a segment. */
  lemma LineEnds(data: seq<byte>, start: nat, end: nat, lines: seq<seq<byte>>)
    requires start <= end < |data| && NoEnds(data[start..end]) && IsEnd(data[end])
    ensures var (more, segment) := (Lines(data[end + 1..]), data[start..end]);
      var all := Lines(data[start..]);
      && all.tail == more.tail
      && lines + all.lines == (if segment == [] then lines else lines + [segment]) + more.lines
  {
    var s := data[start..];
    var k := end - start;
    assert s[..k] == data[start..end] && s[k] == data[end] && s[k + 1..] == data[end + 1..];
    FirstEndIs(s, k);
  }

  // ---------- chunks ----------

  /** Lines taken off early, and the tail kept for later bytes, are the lines of the whole. */
  lemma {:induction false} LinesInTwo(a: seq<byte>, b: seq<byte>)
    ensures var first := Lines(a);
      var second := Lines(first.tail + b);
      Lines(a + b) == Split(first.lines + second.lines, second.tail)
    decreases |a|
  {
    hide Lines, NoEnds;
    var k := FirstEnd(a);
    if k < |a| {
      var (segment, rest) := (a[..k], a[k + 1..]);
      SegmentOff(segment, a[k], rest);
      assert a == segment + [a[k]] + rest;
      SegmentOff(segment, a[k], rest + b);
      assert a + b == segment + [a[k]] + (rest + b);
      LinesInTwo(rest, b);
      var (head, second) := (if segment == [] then [] else [segment], Lines(Lines(rest).tail + b).lines);
      assert head + (Lines(rest).lines + second) == head + Lines(rest).lines + second;
    } else {
      assert a[..k] == a;
      NoLine(a);
      assert [] + Lines(a + b).lines == Lines(a + b).lines;
    }
  }

  /** What calling tryExtractPacket after each chunk gives: all lines so far, and the tail. */
  function FeedLines(before: Split, chunks: seq<seq<byte>>): Split
    decreases |chunks|
  {
    if chunks == [] then before
    else
      var now := Lines(before.tail + chunks[0]);
      FeedLines(Split(before.lines + now.lines, now.tail), chunks[1..])
  }

  /** However the bytes are cut into chunks, the lines and the tail are those of the whole. */
  lemma {:induction false} ChunksDoNotMatter(data: seq<byte>, chunks: seq<seq<byte>>)
    ensures FeedLines(Lines(data), chunks) == Lines(data + Flatten(chunks))
    decreases |chunks|
  {
    hide Lines;
    if chunks == [] {
      assert data + [] == data;
    } else {
      LinesInTwo(data, chunks[0]);
      ChunksDoNotMatter(data + chunks[0], chunks[1..]);
      assert data + chunks[0] + Flatten(chunks[1..]) == data + Flatten(chunks);
    }
  }

  /** A segment and the character that ends it come off the front. */
  lemma SegmentOff(segment: seq<byte>, end: byte, rest: seq<byte>)
    requires NoEnds(segment) && IsEnd(end)
    ensures var more := Lines(rest);
      Lines(segment + [end] + rest) == Split((if segment == [] then [] else [segment]) + more.lines, more.tail)
  {
    var s := segment + [end] + rest;
    assert s[..|segment|] == segment && s[|segment| + 1..] == rest;
    FirstEndIs(s, |segment|);
  }

  // ---------- writing ----------

  /** PacketAsciiLines::write. */
  function WriteLines(lines: seq<seq<byte>>): seq<byte> {
    if lines == [] then [] else lines[0] + [CR, LF] + WriteLines(lines[1..])
  }

  /** Every line, in order, with a carriage return and a line feed behind it. */
  lemma {:induction false} LinesLayout(lines: seq<seq<byte>>)
    ensures WriteLines(lines) == Flatten(seq(|lines|, i requires 0 <= i < |lines| => lines[i] + [13, 10]))
  {
    if lines != [] {
      LinesLayout(lines[1..]);
      var parts := seq(|lines|, i requires 0 <= i < |lines| => lines[i] + [13, 10]);
      assert parts[1..] == seq(|lines[1..]|, i requires 0 <= i < |lines[1..]| => lines[1..][i] + [13, 10]);
    }
  }

  function NonEmpty(lines: seq<seq<byte>>): seq<seq<byte>> {
    if lines == [] then [] else (if lines[0] == [] then [] else [lines[0]]) + NonEmpty(lines[1..])
  }

  lemma LineOff(line: seq<byte>, rest: seq<byte>)
    requires NoEnds(line)
    ensures Lines(line + [CR, LF] + rest) ==
      Split((if line == [] then [] else [line]) + Lines(rest).lines, Lines(rest).tail)
  {
    hide Lines;
    SegmentOff(line, CR, [LF] + rest);
    SegmentOff([], LF, rest);
    assert line + [CR] + ([LF] + rest) == line + [CR, LF] + rest && [] + [LF] + rest == [LF] + rest;
    assert [] + Lines(rest).lines == Lines(rest).lines;
  }

  /** Lines without CR and LF come back, but for the empty ones. */
  lemma {:induction false} LinesRoundTrip(lines: seq<seq<byte>>)
    requires forall line <- lines :: NoEnds(line)
    ensures Lines(WriteLines(lines)) == Split(NonEmpty(lines), [])
  {
    if lines != [] {
      LinesRoundTrip(lines[1..]);
      LineOff(lines[0], WriteLines(lines[1..]));
    }
  }
}
