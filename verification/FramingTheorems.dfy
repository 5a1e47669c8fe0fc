/** What framing guarantees, for either reading of the search literal. */
module FramingTheorems {
  import opened Bytes
  import opened Packets
  import opened Extraction
  import opened PacketFraming
  import Crc16
  import opened Crc16Bursts

  // ---------- the start search ----------

  predicate TagAt(data: seq<byte>, k: int) {
    0 <= k && k + 2 <= |data| && data[k] == 0x5A && data[k + 1] == 0x5A
  }

  /** The declared search finds the first tag. */
  lemma {:induction false} DeclaredSearchFindsFirstTag(data: seq<byte>)
    ensures match FindStart(AsDeclared, data)
      case None => forall k :: !TagAt(data, k)
      case Some(k) => TagAt(data, k) && forall j :: j < k ==> !TagAt(data, j)
  {
    if |data| >= 2 && !TagAt(data, 0) {
      DeclaredSearchFindsFirstTag(data[1..]);
      assert forall j :: j > 0 ==> TagAt(data, j) == TagAt(data[1..], j - 1);
    }
  }

  lemma {:induction false} StartStays(search: TagSearch, a: seq<byte>, b: seq<byte>)
    requires FindStart(search, a).Some?
    ensures FindStart(search, a + b) == FindStart(search, a)
  {
    if search.AsDeclared? && FindStart(search, a).value > 0 {
      StartStays(search, a[1..], b);
      assert (a + b)[1..] == a[1..] + b;
    }
  }

  // ---------- prefix stability ----------

  lemma SameHeader(d: seq<byte>, b: seq<byte>)
    requires |d| >= HEADER_SIZE
    ensures ReadHeader(d + b) == ReadHeader(d)
  {
    var e := d + b;
    assert e[..2] == d[..2] && e[3..7] == d[3..7] && e[7..9] == d[7..9] && e[9..13] == d[9..13];
  }

  /** The attempt on a buffer that begins with a start. */
  lemma ExtractAtStart(search: TagSearch, d: seq<byte>, b: seq<byte>)
    requires FindStart(search, d) == Some(0) && |d| >= HEADER_SIZE
    ensures Extract(search, d + b)
         == match ReadHeader(d) case None => Extract(search, d[1..] + b) case Some(h) => ExtractBody(d + b, h)
  {
    StartStays(search, d, b);
    SameHeader(d, b);
    assert (d + b)[0..] == d + b && (d + b)[1..] == d[1..] + b;
  }

  lemma BodyStable(d: seq<byte>, b: seq<byte>, h: Header)
    requires |d| >= HEADER_SIZE + h.length
    ensures match ExtractBody(d, h)
      case Extracted(p, rest) => ExtractBody(d + b, h) == Extracted(p, rest + b) && |rest| < |d|
      case Waiting(rest, reason) =>
        rest == d && reason == BAD_CHECK_SUM && ExtractBody(d + b, h) == Waiting(d + b, BAD_CHECK_SUM)
  {
    var end := HEADER_SIZE + h.length;
    assert (d + b)[HEADER_SIZE..end] == d[HEADER_SIZE..end];
    assert (d + b)[end..] == d[end..] + b;
  }

  lemma DropToStart(search: TagSearch, a: seq<byte>, b: seq<byte>)
    requires FindStart(search, a).Some?
    ensures var d := a[FindStart(search, a).value..];
      && FindStart(search, d) == Some(0) && Extract(search, a) == Extract(search, d)
      && Extract(search, a + b) == Extract(search, d + b)
  {
    var k := FindStart(search, a).value;
    var d := a[k..];
    StartIsKept(search, a);
    StartStays(search, a, b);
    StartStays(search, d, b);
    assert (a + b)[k..] == d + b && (d + b)[0..] == d + b && d[0..] == d;
  }

  lemma {:induction false} ExtractStable(search: TagSearch, a: seq<byte>, b: seq<byte>)
    ensures PrefixStableAt(Framer(search), a, b)
    decreases |a|
  {
    if FindStart(search, a).Some? {
      DropToStart(search, a, b);
      var d := a[FindStart(search, a).value..];
      if |d| >= HEADER_SIZE {
        ExtractAtStart(search, d, []);
        ExtractAtStart(search, d, b);
        assert d + [] == d && d[1..] + [] == d[1..];
        match ReadHeader(d)
        case None => ExtractStable(search, d[1..], b);
        case Some(h) =>
          if |d| >= HEADER_SIZE + h.length {
            BodyStable(d, b, h);
          }
      }
    }
  }

  /** More bytes never change what was found, for garbage and bad checksums too. */
  lemma {:induction false} FramerStable(search: TagSearch)
    ensures PrefixStable(Framer(search))
  {
    forall a, b ensures PrefixStableAt(Framer(search), a, b) {
      ExtractStable(search, a, b);
    }
  }

  /** Segmentation independence of this format. */
  lemma {:induction false} ChunkingDoesNotMatter(search: TagSearch, chunks: seq<seq<byte>>)
    ensures Feed(Framer(search), ExtractAll(Framer(search), []), chunks) == ExtractAll(Framer(search), Flatten(chunks))
  {
    FramerStable(search);
    SegmentationIndependence(Framer(search), chunks);
  }

  // ---------- built packets ----------

  lemma HeaderRoundTrip(h: Header, tail: seq<byte>)
    ensures ReadHeader(WriteHeader(h) + tail) == Some(h)
  {
    var s := WriteHeader(h) + tail;
    assert s[..2] == Le16(h.tag) && s[2] == TypeCode(h.packetType);
    assert s[3..7] == Le32(h.length) && s[7..9] == Le16(h.checkSum) && s[9..13] == Le32(h.packetId);
    Le16RoundTrip(h.tag);
    Le32RoundTrip(h.length);
    Le16RoundTrip(h.checkSum);
    Le32RoundTrip(h.packetId);
  }

  lemma TagIsStart(search: TagSearch, data: seq<byte>)
    requires search.AsDeclared? ==> TagAt(data, 0)
    ensures FindStart(search, data) == Some(0)
  {
  }

  /** A built packet is taken off as it was written, whatever follows. */
  lemma {:induction false} BuiltPacketExtracted(search: TagSearch, p: WirePacket, tail: seq<byte>)
    requires Built(p)
    ensures Extract(search, Write(p) + tail) == Extracted(p, tail)
  {
    hide CheckSum, Le32, FromLe32;
    var s := Write(p);
    assert TagAt(s, 0);
    TagIsStart(search, s);
    HeaderRoundTrip(p.header, p.data);
    ExtractAtStart(search, s, tail);
    assert s[HEADER_SIZE..] == p.data && s[HEADER_SIZE..HEADER_SIZE + p.header.length] == p.data;
    BodyStable(s, tail, p.header);
    assert [] + tail == tail;
  }

  /** Part of a built packet stays where it is. */
  lemma PartOfPacketWaits(search: TagSearch, p: WirePacket, n: nat)
    requires Built(p) && n < |Write(p)|
    ensures Extract(search, Write(p)[..n]).Waiting? && Extract(search, Write(p)[..n]).rest == Write(p)[..n]
  {
    var s := Write(p)[..n];
    assert s[0..] == s;
    assert n >= 2 ==> TagAt(s, 0);
    if search.AsCompiled? || n >= 2 {
      TagIsStart(search, s);
      if n >= HEADER_SIZE {
        assert s == WriteHeader(p.header) + p.data[..n - HEADER_SIZE];
        HeaderRoundTrip(p.header, p.data[..n - HEADER_SIZE]);
      }
    }
  }

  lemma {:induction false} BuiltPacketReadsBack(search: TagSearch, p: WirePacket)
    requires Built(p)
    ensures ReadsBack(Framer(search), Write(p), p)
  {
    forall b: seq<byte> ensures Framer(search)(Write(p) + b) == Extracted(p, b) {
      BuiltPacketExtracted(search, p, b);
    }
    forall n | 0 <= n < |Write(p)|
      ensures Framer(search)(Write(p)[..n]).Waiting? && Framer(search)(Write(p)[..n]).rest == Write(p)[..n]
    {
      PartOfPacketWaits(search, p, n);
    }
  }

  // ---------- bad checksums ----------

  /** Once the buffer begins with a packet whose checksum is wrong, nothing is ever extracted again. */
  lemma {:induction false} BadChecksumBlocks(search: TagSearch, a: seq<byte>, b: seq<byte>)
    requires Extract(search, a).Waiting? && Extract(search, a).reason == BAD_CHECK_SUM
    ensures Extract(search, a + b) == Waiting(Extract(search, a).rest + b, BAD_CHECK_SUM)
    decreases |a|
  {
    hide FindStart, ReadHeader, CheckSum;
    DropToStart(search, a, b);
    var d := a[FindStart(search, a).value..];
    ExtractAtStart(search, d, []);
    ExtractAtStart(search, d, b);
    assert d + [] == d && d[1..] + [] == d[1..];
    match ReadHeader(d)
    case None => BadChecksumBlocks(search, d[1..], b);
    case Some(h) => BodyStable(d, b, h);
  }

  lemma BitsInjective(x: byte, y: byte)
    requires x as bv8 == y as bv8
    ensures x == y
  {
    ByteThroughBits(x);
    ByteThroughBits(y);
  }

  lemma OneMoreBit(b: bv8)
    requires b as int < 255
    ensures (b + 1) as int == b as int + 1
  {
  }

  lemma {:induction false} SomeBits(x: byte) returns (b: bv8)
    ensures b as int == x
    decreases x
  {
    if x == 0 {
      b := 0;
    } else {
      var c := SomeBits(x - 1);
      OneMoreBit(c);
      b := c + 1;
    }
  }

  lemma ItsBits(x: byte, b: bv8)
    requires b as int == x
    ensures x as bv8 == b
  {
  }

  lemma ByteThroughBits(x: byte)
    ensures (x as bv8) as int == x
  {
    var b := SomeBits(x);
    ItsBits(x, b);
  }

  lemma CrcValuesInjective(a: bv16, b: bv16)
    requires a as int == b as int
    ensures a == b
  {
    assert (a as int) as bv16 == a;
    assert (b as int) as bv16 == b;
  }

  /** The payload as the bits the checksum takes them in. */
  function PayloadBits(data: seq<byte>): seq<bool> {
    AllBits(Bits(data))
  }

  /** How many bytes of a payload the checksum covers: its length is cut to sixteen bits. */
  function Covered(data: seq<byte>): (n: nat)
    ensures n <= |data|
  {
    |data| % 0x1_0000
  }

  /** A prefix is changed within no more bits than the whole. */
  lemma PrefixesAgree<T>(u: seq<T>, v: seq<T>, i: nat, width: nat, m: nat)
    requires AgreeOutside(u, v, i, width) && m <= |u|
    ensures var (from, to) := (if i < m then i else m, if i + width < m then i + width else m);
      AgreeOutside(u[..m], v[..m], from, to - from)
  {
    if i + width < m {
      assert u[..m][i + width..] == u[i + width..][..m - i - width];
      assert v[..m][i + width..] == v[i + width..][..m - i - width];
    }
    var from := if i < m then i else m;
    assert u[..m][..from] == u[..i][..from] && v[..m][..from] == v[..i][..from];
  }

  lemma PrefixBits(data: seq<byte>, n: nat)
    requires n <= |data|
    ensures PayloadBits(data[..n]) == PayloadBits(data)[..8 * n]
  {
    hide AllBits;
    assert Bits(data)[..n] == Bits(data[..n]);
    SplitBits(Bits(data), n);
  }

  /** A change within sixteen adjacent bits, in a payload of any length, is seen by the checksum iff it touches a
      covered byte. Nothing behind them is protected, so nothing at all in a payload of 65536 bytes. */
  lemma {:induction false} AlterationDetectedIffCovered(p: seq<byte>, q: seq<byte>, i: nat, width: nat)
    requires |p| == |q| && AgreeOutside(PayloadBits(p), PayloadBits(q), i, width) && width <= 16
    ensures CheckSum(p) != CheckSum(q) <==> p[..Covered(p)] != q[..Covered(p)]
  {
    hide Crc16.Bitwise, AllBits, PayloadBits;
    var n := Covered(p);
    if CheckSum(p) == CheckSum(q) {
      CrcValuesInjective(Crc16.Bitwise(0xFFFF, Bits(p[..n])), Crc16.Bitwise(0xFFFF, Bits(q[..n])));
      PrefixBits(p, n);
      PrefixBits(q, n);
      BitsOfPayload(p);
      PrefixesAgree(PayloadBits(p), PayloadBits(q), i, width, 8 * n);
      var (from, to) := (if i < 8 * n then i else 8 * n, if i + width < 8 * n then i + width else 8 * n);
      CoveredBurst(p[..n], q[..n], from, to - from);
    }
  }

  lemma BitsOfPayload(data: seq<byte>)
    ensures |PayloadBits(data)| == 8 * |data|
  {
  }

  lemma CoveredBurst(p: seq<byte>, q: seq<byte>, i: nat, width: nat)
    requires |p| == |q| && AgreeOutside(PayloadBits(p), PayloadBits(q), i, width) && width <= 16
    requires Crc16.Bitwise(0xFFFF, Bits(p)) == Crc16.Bitwise(0xFFFF, Bits(q))
    ensures p == q
  {
    hide Crc16.Bitwise, AllBits;
    BurstDetected(0xFFFF, Bits(p), Bits(q), i, width);
    SameBitsSameBytes(p, q);
  }

  /** Changes within two adjacent bytes are of that kind. */
  lemma TwoBytesAreSixteenBits(p: seq<byte>, q: seq<byte>, i: nat)
    requires AgreeOutside(p, q, i, 2)
    ensures AgreeOutside(PayloadBits(p), PayloadBits(q), 8 * i, 16)
  {
    hide AllBits;
    assert Bits(p)[..i] == Bits(p[..i]) && Bits(q)[..i] == Bits(q[..i]);
    assert Bits(p)[i + 2..] == Bits(p[i + 2..]) && Bits(q)[i + 2..] == Bits(q[i + 2..]);
    BytesAgreeInBits(Bits(p), Bits(q), i, 2);
  }

  lemma SameBitsSameBytes(p: seq<byte>, q: seq<byte>)
    requires |p| == |q| && Bits(p) == Bits(q)
    ensures p == q
  {
    forall k | 0 <= k < |p| ensures p[k] == q[k] {
      assert Bits(p)[k] == Bits(q)[k];
      BitsInjective(p[k], q[k]);
    }
  }

  /** A header in place with a checksum that is not the one of the bytes after it stops the stream. */
  lemma WrongChecksumStops(search: TagSearch, h: Header, q: seq<byte>, tail: seq<byte>)
    requires h.tag == TAG && h.length == |q| && h.checkSum != CheckSum(q)
    ensures var s := WriteHeader(h) + q + tail; Extract(search, s) == Waiting(s, BAD_CHECK_SUM)
  {
    hide CheckSum, Le32, FromLe32;
    var s := WriteHeader(h) + q;
    assert TagAt(s, 0);
    TagIsStart(search, s);
    HeaderRoundTrip(h, q);
    ExtractAtStart(search, s, tail);
    assert s[HEADER_SIZE..HEADER_SIZE + h.length] == q;
    BodyStable(s, tail, h);
  }

  /** Any other payload of the same length and checksum is taken for the one sent. */
  lemma SameChecksumExtracted(search: TagSearch, p: WirePacket, q: seq<byte>, tail: seq<byte>)
    requires Built(p) && |p.data| == |q| && CheckSum(p.data) == CheckSum(q)
    ensures Extract(search, WriteHeader(p.header) + q + tail) == Extracted(WirePacket(p.header, q), tail)
  {
    hide CheckSum;
    BuiltPacketExtracted(search, WirePacket(p.header, q), tail);
  }

  /** A packet altered within sixteen adjacent payload bits, header intact: when the change touches a covered byte the
      packet is never extracted and stops the stream, otherwise it is extracted as it came. */
  lemma {:induction false} AlteredPacketStopsIffCovered(search: TagSearch, p: WirePacket, q: seq<byte>,
                                                        i: nat, width: nat, tail: seq<byte>)
    requires Built(p) && |p.data| == |q|
    requires AgreeOutside(PayloadBits(p.data), PayloadBits(q), i, width) && width <= 16
    ensures var s := WriteHeader(p.header) + q + tail;
      if p.data[..Covered(q)] != q[..Covered(q)] then ExtractAll(Framer(search), s) == Found([], s)
      else Extract(search, s) == Extracted(WirePacket(p.header, q), tail)
  {
    hide PayloadBits, CheckSum;
    AlterationDetectedIffCovered(p.data, q, i, width);
    if p.data[..Covered(q)] != q[..Covered(q)] {
      WrongChecksumStops(search, p.header, q, tail);
    } else {
      SameChecksumExtracted(search, p, q, tail);
    }
  }

  /** Sixteen is the bound: with seventeen adjacent bits altered by the polynomial, the packet passes for a built
      one. */
  lemma {:induction false} LongerAlterationExtracted(search: TagSearch, p: WirePacket, q: seq<byte>,
                                                     i: nat, tail: seq<byte>)
    requires Built(p) && |p.data| == |q| && i + 3 <= Covered(q) && Bits(q) == Altered(Bits(p.data), i)
    ensures AgreeOutside(PayloadBits(p.data), PayloadBits(q), 8 * i, 17) && p.data != q
    ensures Extract(search, WriteHeader(p.header) + q + tail) == Extracted(WirePacket(p.header, q), tail)
  {
    hide AllBits, Crc16.Bitwise, Altered;
    var n := Covered(q);
    LongerBurstMissed(0xFFFF, Bits(p.data), i);
    LongerBurstMissed(0xFFFF, Bits(p.data)[..n], i);
    AlteredPrefix(Bits(p.data), i, n);
    assert Bits(p.data[..n]) == Bits(p.data)[..n] && Bits(q[..n]) == Bits(q)[..n];
    SameChecksumExtracted(search, p, q, tail);
  }

  lemma AlteredPrefix(p: seq<bv8>, i: nat, n: nat)
    requires i + 3 <= n <= |p|
    ensures Altered(p[..n], i) == Altered(p, i)[..n]
  {
    hide Flipped;
    PrefixOfParts(p, i, Flipped(p[i], p[i + 1], p[i + 2]), n);
  }

  lemma PrefixOfParts<T>(p: seq<T>, i: nat, middle: seq<T>, n: nat)
    requires i + |middle| <= n <= |p|
    ensures p[..n][..i] + middle + p[..n][i + |middle|..] == (p[..i] + middle + p[i + |middle|..])[..n]
  {
  }
}
