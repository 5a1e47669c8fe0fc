/** What the packet formats are, byte by byte, and what each attempt on a buffer comes to, told by the bytes alone. */
module FramingOutcomes {
  import opened Bytes
  import opened Packets
  import opened Extraction
  import opened PacketFraming
  import opened FramingTheorems
  import S = SimpleFraming
  import Crc16

  // ---------- the packets of the library ----------

  /** The layout of a packet: the tag 5A 5A, a type of 0, 1 or 2, and length, checksum and id, least significant byte
      first, in 4, 2 and 4 bytes; then the data. */
  lemma {:induction false} PacketLayout(packetType: PacketType, packetId: uint32, data: ByteArray)
    ensures var s := Write(Build(packetType, packetId, data));
      && |s| == 13 + |data| && s[0] == 0x5A && s[1] == 0x5A
      && s[2] == (match packetType case WithoutTicket => 0 case NeedsTicket => 1 case Ticket => 2)
      && Number(s, 3) == |data| && Number(s, 9) == packetId && s[13..] == data
      && ShortNumber(s, 7) == Crc16.Bitwise(0xFFFF, Bits(data[..|data| % 0x1_0000])) as int
  {
    hide Le16, Le32, Crc16.Bitwise, Number, ShortNumber;
    var p := Build(packetType, packetId, data);
    var (h, s) := (p.header, Write(p));
    assert Le16(TAG)[0] == 0x5A && Le16(TAG)[1] == 0x5A by { TagBytes(); }
    var (tag, code) := (Le16(h.tag), [TypeCode(packetType)]);
    var (length, checkSum, id) := (Le32(|data|), Le16(h.checkSum), Le32(packetId));
    NumberWritten(tag + code, |data|, checkSum + id + data);
    NumberWritten(tag + code + length, h.checkSum, id + data);
    NumberWritten(tag + code + length + checkSum, packetId, data);
    assert s == (tag + code) + length + (checkSum + id + data);
    assert s == (tag + code + length) + checkSum + (id + data);
    assert s == (tag + code + length + checkSum) + id + data;
  }

  lemma TagBytes()
    ensures Le16(TAG) == [0x5A, 0x5A]
  {
  }

  /** A packet may start here: there is room for a header, its type is known, and for the search as declared there is a
      tag. */
  predicate Candidate(search: TagSearch, data: seq<byte>, j: int) {
    && 0 <= j && j + 13 <= |data| && data[j + 2] <= 2
    && (search.AsDeclared? ==> data[j] == 0x5A && data[j + 1] == 0x5A)
  }

  ghost predicate FirstCandidate(search: TagSearch, data: seq<byte>, j: int) {
    Candidate(search, data, j) && forall i :: i < j ==> !Candidate(search, data, i)
  }

  lemma CandidateBehind(search: TagSearch, data: seq<byte>, k: nat, j: int)
    requires k <= |data| && j >= 0
    ensures Candidate(search, data[k..], j) <==> Candidate(search, data, k + j)
  {
  }

  /** The first start that the search finds is no candidate only for its type, or because the data ends. */
  lemma StartOrNothing(search: TagSearch, data: seq<byte>)
    ensures match FindStart(search, data)
      case None => forall j :: !Candidate(search, data, j)
      case Some(k) => forall j :: j < k ==> !Candidate(search, data, j)
    ensures search.AsCompiled? ==> FindStart(search, data) == Some(0)
  {
    if search.AsDeclared? {
      DeclaredSearchFindsFirstTag(data);
      forall j | Candidate(search, data, j) ensures TagAt(data, j) {
      }
    }
  }

  /** One turn of the search: what is at the first start decides. */
  lemma ExtractTurn(search: TagSearch, data: seq<byte>)
    requires FindStart(search, data).Some?
    ensures var k := FindStart(search, data).value;
      && (k + 13 > |data| ==> Extract(search, data) == Waiting(data[k..], NOT_ENOUGH_FOR_HEADER))
      && (k + 13 <= |data| && data[k + 2] > 2 ==> Extract(search, data) == Extract(search, data[k + 1..]))
      && (k + 13 <= |data| && data[k + 2] <= 2 ==>
            ReadHeader(data[k..]).Some?
            && Extract(search, data) == ExtractBody(data[k..], ReadHeader(data[k..]).value))
  {
    var k := FindStart(search, data).value;
    var d := data[k..];
    if k + 13 <= |data| {
      assert d[2] == data[k + 2] && d[1..] == data[k + 1..];
    }
  }

  /** The attempt is made at the first candidate, whatever stands before it. */
  lemma {:induction false} TakesFirstCandidate(search: TagSearch, data: seq<byte>, j: nat)
    requires FirstCandidate(search, data, j)
    ensures ReadHeader(data[j..]).Some?
    ensures Extract(search, data) == ExtractBody(data[j..], ReadHeader(data[j..]).value)
    decreases |data|
  {
    hide Extract, ExtractBody, FindStart, ReadHeader;
    StartOrNothing(search, data);
    ExtractTurn(search, data);
    var k := FindStart(search, data).value;
    if data[k + 2] > 2 {
      StartIsTag(search, data);
      var (rest, first) := (data[k + 1..], j - k - 1);
      forall i | i < first ensures !Candidate(search, rest, i) {
        if i >= 0 {
          CandidateBehind(search, data, k + 1, i);
        }
      }
      CandidateBehind(search, data, k + 1, first);
      TakesFirstCandidate(search, rest, first);
      assert rest[first..] == data[j..];
    } else {
      StartIsTag(search, data);
      assert Candidate(search, data, k);
    }
  }

  lemma StartIsTag(search: TagSearch, data: seq<byte>)
    requires FindStart(search, data).Some?
    ensures search.AsDeclared? ==> TagAt(data, FindStart(search, data).value)
  {
    if search.AsDeclared? {
      DeclaredSearchFindsFirstTag(data);
    }
  }

  /** What the bytes at a candidate come to. */
  ghost predicate Decided(d: seq<byte>, attempt: Attempt<WirePacket>)
    requires |d| >= 13 && d[2] <= 2
  {
    var length := Number(d, 3);
    if |d| < 13 + length then attempt == Waiting(d, 2)
    else if Crc16.Bitwise(0xFFFF, Bits(d[13..13 + length % 0x1_0000])) as int != ShortNumber(d, 7)
    then attempt == Waiting(d, 3)
    else
      && attempt.Extracted? && attempt.rest == d[13 + length..] && attempt.packet.data == d[13..13 + length]
      && var h := attempt.packet.header;
         && h.tag == ShortNumber(d, 0) && h.length == length && h.checkSum == ShortNumber(d, 7)
         && h.packetId == Number(d, 9)
         && h.packetType == if d[2] == 0 then WithoutTicket else if d[2] == 1 then NeedsTicket else Ticket
  }

  lemma HeaderIsRead(d: seq<byte>)
    requires |d| >= 13 && d[2] <= 2
    ensures ReadHeader(d) == Some(Header(ShortNumber(d, 0),
      if d[2] == 0 then WithoutTicket else if d[2] == 1 then NeedsTicket else Ticket,
      Number(d, 3), ShortNumber(d, 7), Number(d, 9)))
  {
    hide FromLe16, FromLe32, Number, ShortNumber;
    NumberRead(d, 0);
    NumberRead(d, 3);
    NumberRead(d, 7);
    NumberRead(d, 9);
  }

  lemma BodyIsDecided(d: seq<byte>)
    requires |d| >= 13 && d[2] <= 2
    ensures ReadHeader(d).Some? && Decided(d, ExtractBody(d, ReadHeader(d).value))
  {
    hide Crc16.Bitwise, ReadHeader, Bits, Number, ShortNumber;
    HeaderIsRead(d);
    var length := Number(d, 3);
    if |d| >= 13 + length {
      var payload := d[13..13 + length];
      assert payload[..|payload| % 0x1_0000] == d[13..13 + length % 0x1_0000];
    }
  }

  /** An attempt on any buffer is decided at the first place where a packet may start: it waits for the rest of a packet
      that is not whole, it is stuck at one whose checksum is wrong, and otherwise it takes the packet off, with the
      header, the data and the rest that the bytes say. */
  lemma {:induction false} ExtractIsDecided(search: TagSearch, data: seq<byte>, j: nat)
    requires FirstCandidate(search, data, j)
    ensures Decided(data[j..], Extract(search, data))
  {
    hide Extract, ExtractBody, ReadHeader, Decided;
    TakesFirstCandidate(search, data, j);
    BodyIsDecided(data[j..]);
  }

  /** The first tag behind which there is no room for a header. */
  ghost predicate FirstShortTag(data: seq<byte>, k: int) {
    && 0 <= k <= |data| && TagAt(data, k) && k + 13 > |data|
    && forall i :: i < k && i + 13 > |data| ==> !TagAt(data, i)
  }

  /** Where no packet may start, nothing is taken. The search as compiled keeps the last 12 bytes; the search as
      declared keeps the bytes from the first tag for which the data is too short, or those behind the last
      tag. */
  ghost predicate Undecided(search: TagSearch, data: seq<byte>, attempt: Attempt<WirePacket>) {
    match search
    case AsCompiled => attempt == Waiting(if |data| < 13 then data else data[|data| - 12..], 1)
    case AsDeclared =>
      if exists k :: TagAt(data, k) && k + 13 > |data| then
        exists k :: FirstShortTag(data, k) && attempt == Waiting(data[k..], 1)
      else
        && attempt.Waiting? && attempt.reason == 0
        && exists m :: 0 <= m <= |data| && attempt.rest == data[m..] && (forall i :: i >= m ==> !TagAt(data, i))
                       && (m > 0 ==> TagAt(data, m - 1))
  }

  lemma {:induction false} NothingToExtract(search: TagSearch, data: seq<byte>)
    requires forall j :: !Candidate(search, data, j)
    ensures Undecided(search, data, Extract(search, data))
    decreases |data|
  {
    hide Extract, FindStart, Undecided, Candidate, TagAt;
    if FindStart(search, data).None? {
      NoStart(search, data);
    } else {
      var k := FindStart(search, data).value;
      ExtractTurn(search, data);
      FirstStart(search, data);
      if k + 13 > |data| {
        ShortStart(search, data, k);
      } else {
        UnknownType(search, data, k);
        var rest := data[k + 1..];
        forall j ensures !Candidate(search, rest, j) {
          NotCandidate(search, data, k + 1, j);
        }
        NothingToExtract(search, rest);
        UndecidedBehind(search, data, k, rest, Extract(search, rest));
      }
    }
  }

  lemma FirstStart(search: TagSearch, data: seq<byte>)
    requires FindStart(search, data).Some?
    ensures search.AsCompiled? ==> FindStart(search, data).value == 0
    ensures search.AsDeclared? ==>
      TagAt(data, FindStart(search, data).value) && forall j :: j < FindStart(search, data).value ==> !TagAt(data, j)
  {
    hide TagAt;
    StartOrNothing(search, data);
    if search.AsDeclared? {
      DeclaredSearchFindsFirstTag(data);
    }
  }

  lemma ShortStart(search: TagSearch, data: seq<byte>, k: nat)
    requires k <= |data| < k + 13
    requires search.AsCompiled? ==> k == 0
    requires search.AsDeclared? ==> TagAt(data, k) && forall j :: j < k ==> !TagAt(data, j)
    ensures Undecided(search, data, Waiting(data[k..], NOT_ENOUGH_FOR_HEADER))
  {
    if search.AsCompiled? {
      assert data[0..] == data;
    }
  }

  lemma UnknownType(search: TagSearch, data: seq<byte>, k: nat)
    requires k + 13 <= |data| && !Candidate(search, data, k) && (search.AsDeclared? ==> TagAt(data, k))
    ensures data[k + 2] > 2
  {
  }

  lemma NotCandidate(search: TagSearch, data: seq<byte>, k: nat, j: int)
    requires k <= |data| && forall i :: !Candidate(search, data, i)
    ensures !Candidate(search, data[k..], j)
  {
    if j >= 0 {
      CandidateBehind(search, data, k, j);
      assert !Candidate(search, data, k + j);
    }
  }

  lemma NoStart(search: TagSearch, data: seq<byte>)
    requires FindStart(search, data).None?
    ensures Extract(search, data) == Waiting(data, HEADER_NOT_FOUND) && Undecided(search, data, Extract(search, data))
  {
    DeclaredSearchFindsFirstTag(data);
    assert data[0..] == data;
  }

  lemma TagBehind(data: seq<byte>, k: nat, rest: seq<byte>, i: int)
    requires k < |data| && rest == data[k + 1..] && i > k
    ensures TagAt(data, i) <==> TagAt(rest, i - k - 1)
  {
  }

  lemma UndecidedBehind(search: TagSearch, data: seq<byte>, k: nat, rest: seq<byte>, attempt: Attempt<WirePacket>)
    requires k + 13 <= |data| && rest == data[k + 1..] && Undecided(search, rest, attempt)
    requires search.AsCompiled? ==> k == 0
    requires search.AsDeclared? ==> TagAt(data, k) && forall j :: j < k ==> !TagAt(data, j)
    ensures Undecided(search, data, attempt)
  {
    hide TagAt;
    if search.AsCompiled? {
      assert |rest| >= 13 ==> rest[|rest| - 12..] == data[|data| - 12..];
      assert |rest| < 13 ==> rest == data[|data| - 12..];
    } else {
      if i :| TagAt(rest, i) && i + 13 > |rest| {
        ShortTagBehind(data, k, rest, attempt);
      } else {
        NoShortTagBehind(data, k, rest, attempt);
      }
    }
  }

  lemma ShortTagBehind(data: seq<byte>, k: nat, rest: seq<byte>, attempt: Attempt<WirePacket>)
    requires k + 13 <= |data| && rest == data[k + 1..] && Undecided(AsDeclared, rest, attempt)
    requires exists i :: TagAt(rest, i) && i + 13 > |rest|
    ensures Undecided(AsDeclared, data, attempt)
  {
    hide TagAt;
    var f :| FirstShortTag(rest, f) && attempt == Waiting(rest[f..], 1);
    FirstShortTagBehind(data, k, rest, f);
    TailBehind(data, k, rest, f);
  }

  lemma FirstShortTagBehind(data: seq<byte>, k: nat, rest: seq<byte>, f: int)
    requires k + 13 <= |data| && rest == data[k + 1..] && FirstShortTag(rest, f)
    ensures FirstShortTag(data, k + 1 + f) && TagAt(data, k + 1 + f) && k + 1 + f + 13 > |data| && 0 <= f <= |rest|
  {
    hide TagAt;
    TagBehind(data, k, rest, k + 1 + f);
    forall i | i < k + 1 + f && i + 13 > |data| ensures !TagAt(data, i) {
      TagBehind(data, k, rest, i);
    }
  }

  lemma TailBehind<T>(data: seq<T>, k: nat, rest: seq<T>, f: nat)
    requires k < |data| && rest == data[k + 1..] && f <= |rest|
    ensures rest[f..] == data[k + 1 + f..]
  {
  }

  lemma NoShortTagBehind(data: seq<byte>, k: nat, rest: seq<byte>, attempt: Attempt<WirePacket>)
    requires k + 13 <= |data| && rest == data[k + 1..] && Undecided(AsDeclared, rest, attempt) && TagAt(data, k)
    requires forall i :: TagAt(rest, i) ==> i + 13 <= |rest|
    ensures Undecided(AsDeclared, data, attempt)
  {
    hide TagAt;
    forall i | TagAt(data, i) ensures i + 13 <= |data| {
      if i > k {
        TagBehind(data, k, rest, i);
      }
    }
    var m :| 0 <= m <= |rest| && attempt.rest == rest[m..] && (forall i :: i >= m ==> !TagAt(rest, i))
      && (m > 0 ==> TagAt(rest, m - 1));
    NothingBehindLast(data, k, rest, m);
    TailBehind(data, k, rest, m);
  }

  lemma NothingBehindLast(data: seq<byte>, k: nat, rest: seq<byte>, m: nat)
    requires k < |data| && rest == data[k + 1..] && TagAt(data, k)
    requires (forall i :: i >= m ==> !TagAt(rest, i)) && (m > 0 ==> TagAt(rest, m - 1))
    ensures (forall i :: i >= k + 1 + m ==> !TagAt(data, i)) && TagAt(data, k + m)
  {
    hide TagAt;
    forall i | i >= k + 1 + m ensures !TagAt(data, i) {
      TagBehind(data, k, rest, i);
    }
    if m > 0 {
      TagBehind(data, k, rest, k + m);
    }
  }

  // ---------- the second format ----------

  /** The layout of a packet of the second format. */
  lemma {:induction false} SimplePacketLayout(packetType: uint16, packetId: uint32, data: ByteArray)
    ensures var s := S.WriteSimple(S.BuildSimple(packetType, packetId, data));
      && |s| == 14 + |data| && s[0] == 0x55 && s[1] == 0xAA
      && Number(s, 2) == |data| && ShortNumber(s, 6) == Crc16.Bitwise(0, Bits(data)) as int
      && Number(s, 8) == packetId && ShortNumber(s, 12) == packetType && s[14..] == data
  {
    hide Le16, Le32, Crc16.Bitwise, Number, ShortNumber;
    var p := S.BuildSimple(packetType, packetId, data);
    var (h, s) := (p.header, S.WriteSimple(p));
    SimpleTagBytes();
    var (tag, length, checkSum) := (Le16(h.tag), Le32(|data|), Le16(h.checkSum));
    var (id, code) := (Le32(packetId), Le16(packetType));
    NumberWritten(tag, |data|, checkSum + id + code + data);
    NumberWritten(tag + length, h.checkSum, id + code + data);
    NumberWritten(tag + length + checkSum, packetId, code + data);
    NumberWritten(tag + length + checkSum + id, packetType, data);
    assert s == tag + length + (checkSum + id + code + data);
    assert s == (tag + length) + checkSum + (id + code + data);
    assert s == (tag + length + checkSum) + id + (code + data);
    assert s == (tag + length + checkSum + id) + code + data;
  }

  lemma SimpleTagBytes()
    ensures Le16(S.SIMPLE_TAG) == [0x55, 0xAA]
  {
  }

  /** What the bytes behind a mark come to. */
  ghost predicate SimpleDecided(d: seq<byte>, attempt: Attempt<S.SimplePacket>) {
    if |d| < 14 then attempt == Waiting(d, 1)
    else
      var length := Number(d, 2);
      if |d| < 14 + length then attempt == Waiting(d, 2)
      else if Crc16.Bitwise(0, Bits(d[14..14 + length])) as int != ShortNumber(d, 6) then attempt == Waiting(d, 3)
      else
        && attempt.Extracted? && attempt.rest == d[14 + length..] && attempt.packet.data == d[14..14 + length]
        && attempt.packet.header
           == S.SimpleHeader(ShortNumber(d, 0), length, ShortNumber(d, 6), Number(d, 8), ShortNumber(d, 12))
  }

  lemma SimpleHeaderIsRead(d: seq<byte>)
    requires |d| >= 14
    ensures S.ReadSimpleHeader(d)
         == S.SimpleHeader(ShortNumber(d, 0), Number(d, 2), ShortNumber(d, 6), Number(d, 8), ShortNumber(d, 12))
  {
    hide FromLe16, FromLe32, Number, ShortNumber;
    NumberRead(d, 0);
    NumberRead(d, 2);
    NumberRead(d, 6);
    NumberRead(d, 8);
    LastNumberRead(d, 12);
  }

  /** An attempt in the second format is decided at the first byte 55, and by its checksum over all of the data; without
      such a byte it keeps everything. */
  lemma {:induction false} SimpleExtractIsDecided(data: seq<byte>, k: nat)
    requires k <= |data| && 0x55 !in data[..k] && (k < |data| ==> data[k] == 0x55)
    ensures if k == |data| then S.ExtractSimple(data) == Waiting(data, 0)
            else SimpleDecided(data[k..], S.ExtractSimple(data))
  {
    hide Crc16.Bitwise, Bits, Number, ShortNumber, S.ReadSimpleHeader;
    var at := S.IndexOf(data, 0x55);
    if k == |data| {
      assert data[..k] == data;
    } else {
      assert data[k] in data;
      if |data[k..]| >= 14 {
        SimpleHeaderIsRead(data[k..]);
      }
    }
  }
}
