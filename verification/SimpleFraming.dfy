/** PacketFactorySimple (Demo/Common/PacketFactories): the second packet format; one marker byte, no type check, and a
    checksum that starts from 0. */
module SimpleFraming {
  import opened Bytes
  import opened DataStreams
  import opened Extraction
  import opened PacketFraming
  import Crc16

  const SIMPLE_TAG: uint16 := 0xAA55
  const MARK: byte := 0x55
  const SIMPLE_HEADER_SIZE := 14

  datatype SimpleHeader =
    SimpleHeader(tag: uint16, length: uint32, checkSum: uint16, packetId: uint32, packetType: uint16)

  datatype SimplePacket = SimplePacket(header: SimpleHeader, data: seq<byte>)

  function SimpleCheckSum(data: seq<byte>): uint16 {
    Crc16.Bitwise(0, Bits(data)) as int
  }

  function IndexOf(data: seq<byte>, b: byte): (k: Option<nat>)
    ensures k.Some? ==> k.value < |data| && data[k.value] == b && b !in data[..k.value]
    ensures k.None? ==> b !in data
  {
    if data == [] then None
    else if data[0] == b then Some(0)
    else match IndexOf(data[1..], b)
      case None => None
      case Some(k) => assert data[..k + 1] == [data[0]] + data[1..][..k]; Some(k + 1)
  }

  function ReadSimpleHeader(d: seq<byte>): SimpleHeader
    requires |d| >= SIMPLE_HEADER_SIZE
  {
    SimpleHeader(FromLe16(d[..2]), FromLe32(d[2..6]), FromLe16(d[6..8]), FromLe32(d[8..12]), FromLe16(d[12..14]))
  }

  /** The attempt on a buffer that begins with the mark. */
  function ExtractMarked(d: seq<byte>): Attempt<SimplePacket> {
    if |d| < SIMPLE_HEADER_SIZE then Waiting(d, NOT_ENOUGH_FOR_HEADER)
    else
      var header := ReadSimpleHeader(d);
      var end := SIMPLE_HEADER_SIZE + header.length;
      if |d| < end then Waiting(d, NOT_ENOUGH_FOR_BODY)
      else
        var payload := d[SIMPLE_HEADER_SIZE..end];
        if SimpleCheckSum(payload) != header.checkSum then Waiting(d, BAD_CHECK_SUM)
        else Extracted(SimplePacket(header, payload), d[end..])
  }

  /** tryExtractPacket. */
  function ExtractSimple(data: seq<byte>): Attempt<SimplePacket> {
    match IndexOf(data, MARK)
    case None => Waiting(data, HEADER_NOT_FOUND)
    case Some(k) => ExtractMarked(data[k..])
  }

  function SimpleFramer(): Extractor<SimplePacket> {
    data => ExtractSimple(data)
  }

  function WriteSimpleHeader(h: SimpleHeader): (s: seq<byte>)
    ensures |s| == SIMPLE_HEADER_SIZE
  {
    Le16(h.tag) + Le32(h.length) + Le16(h.checkSum) + Le32(h.packetId) + Le16(h.packetType)
  }

  function WriteSimple(p: SimplePacket): seq<byte> {
    WriteSimpleHeader(p.header) + p.data
  }

  predicate SimpleBuilt(p: SimplePacket) {
    p.header.tag == SIMPLE_TAG && p.header.length == |p.data| && p.header.checkSum == SimpleCheckSum(p.data)
  }

  function BuildSimple(packetType: uint16, packetId: uint32, data: ByteArray): (p: SimplePacket)
    ensures SimpleBuilt(p)
  {
    SimplePacket(SimpleHeader(SIMPLE_TAG, |data|, SimpleCheckSum(data), packetId, packetType), data)
  }

  class PacketFactorySimple {
    var packetId: uint32
    var lastResult: nat

    constructor ()
      ensures packetId == 0
    {
      packetId, lastResult := 0, 0;
    }

    /** Trims the shared buffer to the mark, and takes a packet off it when one is whole and sound. */
    method TryExtractPacket(data: ByteBuffer) returns (packet: Option<SimplePacket>)
      modifies this`lastResult, data
      ensures match ExtractSimple(old(data.bytes))
        case Extracted(p, rest) => packet == Some(p) && data.bytes == rest && lastResult == old(lastResult)
        case Waiting(rest, reason) => packet == None && data.bytes == rest && lastResult == reason
    {
      var headerPosition := IndexOf(data.bytes, MARK);
      if headerPosition.None? {
        lastResult := HEADER_NOT_FOUND;
        return None;
      }
      data.bytes := data.bytes[headerPosition.value..];
      if |data.bytes| < SIMPLE_HEADER_SIZE {
        lastResult := NOT_ENOUGH_FOR_HEADER;
        return None;
      }
      var header := ReadSimpleHeader(data.bytes);
      if |data.bytes| < SIMPLE_HEADER_SIZE + header.length {
        lastResult := NOT_ENOUGH_FOR_BODY;
        return None;
      }
      var payload := data.bytes[SIMPLE_HEADER_SIZE..SIMPLE_HEADER_SIZE + header.length];
      var receivedCrc := Crc16.CrcFrom(0, Bits(payload), header.length);
      assert Bits(payload)[..header.length] == Bits(payload);
      if receivedCrc as int != header.checkSum {
        lastResult := BAD_CHECK_SUM;
        return None;
      }
      packet := Some(SimplePacket(header, payload));
      data.bytes := data.bytes[SIMPLE_HEADER_SIZE + header.length..];
    }

    method GenerateNextPacketId() returns (id: uint32)
      requires packetId < 0x1FFF_FFFF
      modifies this`packetId
      ensures id == packetId == if old(packetId) + 1 >= 0x1FFF_FFFF then 1 else old(packetId) + 1
    {
      packetId := packetId + 1;
      if packetId >= 0x1FFF_FFFF {
        packetId := 1;
      }
      id := packetId;
    }

    method BuildPacket(packetType: uint16, data: ByteArray) returns (packet: SimplePacket)
      requires packetId < 0x1FFF_FFFF
      modifies this`packetId
      ensures SimpleBuilt(packet) && packet.data == data && packet.header.packetType == packetType
      ensures 1 <= packet.header.packetId == packetId < 0x1FFF_FFFF
    {
      var id := GenerateNextPacketId();
      packet := BuildSimple(packetType, id, data);
    }
  }

  // ---------- what it guarantees ----------

  lemma {:induction false} MarkStays(a: seq<byte>, b: seq<byte>)
    requires IndexOf(a, MARK).Some?
    ensures IndexOf(a + b, MARK) == IndexOf(a, MARK)
  {
    if a[0] != MARK {
      MarkStays(a[1..], b);
      assert (a + b)[1..] == a[1..] + b;
    }
  }

  lemma SameSimpleHeader(d: seq<byte>, b: seq<byte>)
    requires |d| >= SIMPLE_HEADER_SIZE
    ensures ReadSimpleHeader(d + b) == ReadSimpleHeader(d)
  {
    var e := d + b;
    assert e[..2] == d[..2] && e[2..6] == d[2..6] && e[6..8] == d[6..8];
    assert e[8..12] == d[8..12] && e[12..14] == d[12..14];
  }

  lemma MarkedStable(d: seq<byte>, b: seq<byte>)
    ensures match ExtractMarked(d)
      case Extracted(p, rest) => |rest| < |d| && ExtractMarked(d + b) == Extracted(p, rest + b)
      case Waiting(rest, reason) => rest == d
  {
    if |d| >= SIMPLE_HEADER_SIZE {
      SameSimpleHeader(d, b);
      var end := SIMPLE_HEADER_SIZE + ReadSimpleHeader(d).length;
      if |d| >= end {
        assert (d + b)[SIMPLE_HEADER_SIZE..end] == d[SIMPLE_HEADER_SIZE..end] && (d + b)[end..] == d[end..] + b;
      }
    }
  }

  /** More bytes never change what was found: with Extraction.SegmentationIndependence, chunking does not matter. */
  lemma {:induction false} SimpleFramerStable()
    ensures PrefixStable(SimpleFramer())
  {
    forall a, b ensures PrefixStableAt(SimpleFramer(), a, b) {
      if IndexOf(a, MARK).Some? {
        var k := IndexOf(a, MARK).value;
        var d := a[k..];
        MarkStays(a, b);
        assert (a + b)[k..] == d + b;
        assert (d + b)[0] == MARK && (d + b)[0..] == d + b;
        assert ExtractSimple(d + b) == ExtractMarked(d + b);
        MarkedStable(d, b);
      }
    }
  }

  /** Segmentation independence of this format. */
  lemma {:induction false} SimpleChunkingDoesNotMatter(chunks: seq<seq<byte>>)
    ensures Feed(SimpleFramer(), ExtractAll(SimpleFramer(), []), chunks) == ExtractAll(SimpleFramer(), Flatten(chunks))
  {
    SimpleFramerStable();
    SegmentationIndependence(SimpleFramer(), chunks);
  }

  lemma SimpleHeaderRoundTrip(h: SimpleHeader, tail: seq<byte>)
    ensures ReadSimpleHeader(WriteSimpleHeader(h) + tail) == h
  {
    var s := WriteSimpleHeader(h) + tail;
    assert s[..2] == Le16(h.tag) && s[2..6] == Le32(h.length) && s[6..8] == Le16(h.checkSum);
    assert s[8..12] == Le32(h.packetId) && s[12..14] == Le16(h.packetType);
    Le16RoundTrip(h.tag);
    Le32RoundTrip(h.length);
    Le16RoundTrip(h.checkSum);
    Le32RoundTrip(h.packetId);
    Le16RoundTrip(h.packetType);
  }

  lemma SimplePacketExtracted(p: SimplePacket, tail: seq<byte>)
    requires SimpleBuilt(p)
    ensures ExtractSimple(WriteSimple(p) + tail) == Extracted(p, tail)
  {
    var s := WriteSimple(p);
    SimpleHeaderRoundTrip(p.header, p.data);
    assert s[SIMPLE_HEADER_SIZE..SIMPLE_HEADER_SIZE + p.header.length] == p.data;
    MarkedStable(s, tail);
    assert (s + tail)[0] == MARK && (s + tail)[0..] == s + tail;
    assert [] + tail == tail;
  }

  lemma PartOfSimplePacketWaits(p: SimplePacket, n: nat)
    requires SimpleBuilt(p) && n < |WriteSimple(p)|
    ensures var s := WriteSimple(p)[..n]; ExtractSimple(s).Waiting? && ExtractSimple(s).rest == s
  {
    var s := WriteSimple(p)[..n];
    assert s[0..] == s;
    assert n > 0 ==> s[0] == MARK;
    if n >= SIMPLE_HEADER_SIZE {
      assert s == WriteSimpleHeader(p.header) + p.data[..n - SIMPLE_HEADER_SIZE];
      SimpleHeaderRoundTrip(p.header, p.data[..n - SIMPLE_HEADER_SIZE]);
    }
  }

  /** A built packet is taken off as it was written, whatever follows, and not before it is whole. */
  lemma {:induction false} SimplePacketReadsBack(p: SimplePacket)
    requires SimpleBuilt(p)
    ensures ReadsBack(SimpleFramer(), WriteSimple(p), p)
  {
    forall b: seq<byte> ensures SimpleFramer()(WriteSimple(p) + b) == Extracted(p, b) {
      SimplePacketExtracted(p, b);
    }
    forall n | 0 <= n < |WriteSimple(p)|
      ensures SimpleFramer()(WriteSimple(p)[..n]).Waiting?
      ensures SimpleFramer()(WriteSimple(p)[..n]).rest == WriteSimple(p)[..n]
    {
      PartOfSimplePacketWaits(p, n);
    }
  }

  /** Of any number of bytes of a stream of built packets, exactly the whole packets are extracted. */
  lemma {:induction false} SimpleStreamReadsBack(texts: seq<seq<byte>>, sent: seq<SimplePacket>, n: nat)
    requires |texts| == |sent| && n <= |Flatten(texts)|
    requires forall i :: 0 <= i < |sent| ==> SimpleBuilt(sent[i]) && texts[i] == WriteSimple(sent[i])
    ensures ExtractsWhole(SimpleFramer(), texts, sent, n)
  {
    forall i | 0 <= i < |sent| ensures ReadsBack(SimpleFramer(), texts[i], sent[i]) {
      SimplePacketReadsBack(sent[i]);
    }
    PrefixOfStream(SimpleFramer(), texts, sent, n);
  }
}
