/** DataFramesPacketFactory (Frames/DataFramesPackets.cpp): finding packets in a byte buffer, and writing them. */
module PacketFraming {
  import opened Bytes
  import opened Packets
  import opened Extraction
  import Crc16

  const TAG: uint16 := 0x5A5A
  const HEADER_SIZE := 13

  /** Why an extraction stops (DataFramesFactoryResults). */
  const HEADER_NOT_FOUND: nat := 0
  const NOT_ENOUGH_FOR_HEADER: nat := 1
  const NOT_ENOUGH_FOR_BODY: nat := 2
  const BAD_CHECK_SUM: nat := 3

  datatype Header = Header(tag: uint16, packetType: PacketType, length: uint32, checkSum: uint16, packetId: uint32)

  datatype WirePacket = WirePacket(header: Header, data: seq<byte>)

  // ---------- checksum ----------

  function Bits(s: seq<byte>): seq<bv8> {
    seq(|s|, i requires 0 <= i < |s| => s[i] as bv8)
  }

  /** The two-argument Crc16 takes its length as a 16-bit number. */
  function CheckSum(data: seq<byte>): uint16 {
    Crc16.Bitwise(0xFFFF, Bits(data[..|data| % 0x1_0000])) as int
  }

  // ---------- where a packet may start ----------

  /** The search literal as compiled is the empty string, which is found at 0; as declared it is the tag. */
  datatype TagSearch = AsCompiled | AsDeclared

  function FindStart(search: TagSearch, data: seq<byte>): (k: Option<nat>)
    ensures k.Some? ==> k.value <= |data|
  {
    if search.AsCompiled? then Some(0)
    else if |data| < 2 then None
    else if data[0] == 0x5A && data[1] == 0x5A then Some(0)
    else match FindStart(search, data[1..])
      case None => None
      case Some(k) => Some(k + 1)
  }

  // ---------- extraction ----------

  function ReadHeader(data: seq<byte>): Option<Header>
    requires |data| >= HEADER_SIZE
  {
    match TypeOf(data[2])
    case None => None
    case Some(t) =>
      Some(Header(FromLe16(data[..2]), t, FromLe32(data[3..7]), FromLe16(data[7..9]), FromLe32(data[9..13])))
  }

  /** The attempt once the header is in place and of a known type. */
  function ExtractBody(data: seq<byte>, header: Header): Attempt<WirePacket>
    requires |data| >= HEADER_SIZE
  {
    var end := HEADER_SIZE + header.length;
    if |data| < end then Waiting(data, NOT_ENOUGH_FOR_BODY)
    else
      var payload := data[HEADER_SIZE..end];
      if CheckSum(payload) != header.checkSum then Waiting(data, BAD_CHECK_SUM)
      else Extracted(WirePacket(header, payload), data[end..])
  }

  /** Looks for a start, drops what is before it, and drops one byte more for as long as the type is unknown. */
  function Extract(search: TagSearch, data: seq<byte>): Attempt<WirePacket>
    decreases |data|
  {
    match FindStart(search, data)
    case None => Waiting(data, HEADER_NOT_FOUND)
    case Some(k) =>
      var d := data[k..];
      if |d| < HEADER_SIZE then Waiting(d, NOT_ENOUGH_FOR_HEADER)
      else match ReadHeader(d)
        case None => Extract(search, d[1..])
        case Some(header) => ExtractBody(d, header)
  }

  function Framer(search: TagSearch): Extractor<WirePacket> {
    data => Extract(search, data)
  }

  // ---------- writing ----------

  function WriteHeader(h: Header): (s: seq<byte>)
    ensures |s| == HEADER_SIZE
  {
    Le16(h.tag) + [TypeCode(h.packetType)] + Le32(h.length) + Le16(h.checkSum) + Le32(h.packetId)
  }

  function Write(p: WirePacket): (s: seq<byte>)
    ensures |s| == HEADER_SIZE + |p.data|
  {
    WriteHeader(p.header) + p.data
  }

  /** What the build functions make: tag, length and checksum fit the data. */
  predicate Built(p: WirePacket) {
    p.header.tag == TAG && p.header.length == |p.data| && p.header.checkSum == CheckSum(p.data)
  }

  function Build(packetType: PacketType, packetId: uint32, data: ByteArray): (p: WirePacket)
    ensures Built(p)
  {
    WirePacket(Header(TAG, packetType, |data|, CheckSum(data), packetId), data)
  }

  /** The checksum as the table-driven loop computes it. */
  method ComputeCheckSum(data: seq<byte>) returns (checkSum: uint16)
    ensures checkSum == CheckSum(data)
    ensures |data| < 0x1_0000 ==> checkSum == Crc16.Bitwise(0xFFFF, Bits(data)) as int
  {
    hide Crc16.Bitwise;
    var length := |data| % 0x1_0000;
    var crc := Crc16.Crc(Bits(data), length);
    assert Bits(data)[..length] == Bits(data[..length]);
    assert |data| < 0x1_0000 ==> data[..length] == data;
    checkSum := crc as int;
  }

  /** buildPacket and its like, with the type and id that the caller gives. */
  method BuildPacket(packetType: PacketType, packetId: uint32, data: ByteArray) returns (packet: WirePacket)
    ensures packet == Build(packetType, packetId, data) && Built(packet)
    ensures |data| < 0x1_0000 ==> packet.header.checkSum == Crc16.Bitwise(0xFFFF, Bits(data)) as int
  {
    var checkSum := ComputeCheckSum(data);
    packet := WirePacket(Header(TAG, packetType, |data|, checkSum, packetId), data);
  }

  // ---------- the loop ----------

  /** tryExtractPacket: the packet, if there is one, the buffer it leaves, and the result code otherwise. */
  method TryExtractPacket(search: TagSearch, data: seq<byte>)
    returns (packet: Option<WirePacket>, rest: seq<byte>, result: nat)
    ensures match Extract(search, data)
      case Extracted(p, r) => packet == Some(p) && rest == r
      case Waiting(r, reason) => packet == None && rest == r && result == reason
  {
    rest := data;
    result := HEADER_NOT_FOUND;
    var header: Header;
    while true
      invariant Extract(search, rest) == Extract(search, data)
      decreases |rest|
    {
      var headerPosition := FindStart(search, rest);
      if headerPosition.None? {
        return None, rest, HEADER_NOT_FOUND;
      }
      if headerPosition.value > 0 {
        StartIsKept(search, rest);
        rest := rest[headerPosition.value..];
      }
      if |rest| < HEADER_SIZE {
        return None, rest, NOT_ENOUGH_FOR_HEADER;
      }
      var read := ReadHeader(rest);
      if read.None? {
        rest := rest[1..];
      } else {
        header := read.value;
        break;
      }
    }
    var end := HEADER_SIZE + header.length;
    if |rest| < end {
      return None, rest, NOT_ENOUGH_FOR_BODY;
    }
    var payload := rest[HEADER_SIZE..end];
    var receivedCrc := ComputeCheckSum(payload);
    if receivedCrc != header.checkSum {
      return None, rest, BAD_CHECK_SUM;
    }
    packet := Some(WirePacket(header, payload));
    rest := rest[end..];
  }

  /** After the bytes before a start are dropped, the start is at 0. */
  lemma {:induction false} StartIsKept(search: TagSearch, data: seq<byte>)
    requires FindStart(search, data).Some?
    ensures FindStart(search, data[FindStart(search, data).value..]) == Some(0)
  {
    if FindStart(search, data).value > 0 {
      StartIsKept(search, data[1..]);
      assert data[FindStart(search, data).value..] == data[1..][FindStart(search, data[1..]).value..];
    } else {
      assert data[0..] == data;
    }
  }
}
