/** Bytes, little-endian integers and byte sequences: what the C++ types of the wire formats can hold. */
module Bytes {

  datatype Option<+T> = None | Some(value: T)

  type byte = x: int | 0 <= x < 0x100
  type uint16 = x: int | 0 <= x < 0x1_0000
  type uint32 = x: int | 0 <= x < 0x1_0000_0000

  /** A QByteArray: its length is a signed 32-bit int. */
  type ByteArray = s: seq<byte> | |s| < 0x8000_0000

  /** The bytes of an integer as the (little-endian) machine stores them. */
  function Le16(n: uint16): (s: seq<byte>)
    ensures |s| == 2
  {
    [n % 0x100, n / 0x100]
  }

  function Le32(n: uint32): (s: seq<byte>)
    ensures |s| == 4
  {
    Le16(n % 0x1_0000) + Le16(n / 0x1_0000)
  }

  function FromLe16(s: seq<byte>): uint16
    requires |s| == 2
  {
    s[0] as int + 0x100 * (s[1] as int)
  }

  function FromLe32(s: seq<byte>): uint32
    requires |s| == 4
  {
    FromLe16(s[..2]) as int + 0x1_0000 * (FromLe16(s[2..]) as int)
  }

  lemma Le16RoundTrip(n: uint16)
    ensures FromLe16(Le16(n)) == n
  {
  }

  lemma Le32RoundTrip(n: uint32)
    ensures FromLe32(Le32(n)) == n
  {
    assert Le32(n)[..2] == Le16(n % 0x1_0000);
    assert Le32(n)[2..] == Le16(n / 0x1_0000);
  }

  lemma Le32Inverse(s: seq<byte>)
    requires |s| == 4
    ensures Le32(FromLe32(s)) == s
  {
    var low, high := FromLe16(s[..2]), FromLe16(s[2..]);
    assert FromLe32(s) % 0x1_0000 == low && FromLe32(s) / 0x1_0000 == high;
    assert Le16(low) == s[..2] && Le16(high) == s[2..];
  }

  /** The number that stands in four bytes, or in two, the least significant first. */
  function Number(d: seq<byte>, at: nat): nat
    requires at + 4 <= |d|
  {
    d[at] as int + 0x100 * d[at + 1] as int + 0x1_0000 * d[at + 2] as int + 0x100_0000 * d[at + 3] as int
  }

  function ShortNumber(d: seq<byte>, at: nat): nat
    requires at + 2 <= |d|
  {
    d[at] as int + 0x100 * d[at + 1] as int
  }

  lemma NumberRead(d: seq<byte>, at: nat)
    requires at + 4 <= |d|
    ensures FromLe32(d[at..at + 4]) == Number(d, at)
    ensures FromLe16(d[at..at + 2]) == ShortNumber(d, at)
  {
    var s := d[at..at + 4];
    assert s[..2][0] == d[at] && s[..2][1] == d[at + 1] && s[2..][0] == d[at + 2] && s[2..][1] == d[at + 3];
  }

  lemma NumberWritten(before: seq<byte>, n: uint32, after: seq<byte>)
    ensures Number(before + Le32(n) + after, |before|) == n
    ensures n < 0x1_0000 ==> ShortNumber(before + Le16(n) + after, |before|) == n
  {
    var s := before + Le32(n) + after;
    NumberRead(s, |before|);
    Le32RoundTrip(n);
    assert s[|before|..|before| + 4] == Le32(n);
    if n < 0x1_0000 {
      var t := before + Le16(n) + after;
      assert t[|before|] == Le16(n)[0] && t[|before| + 1] == Le16(n)[1];
    }
  }

  lemma LastNumberRead(d: seq<byte>, at: nat)
    requires at + 2 <= |d|
    ensures FromLe16(d[at..at + 2]) == ShortNumber(d, at)
  {
  }

  /** The concatenation of a sequence of sequences. */
  function Flatten<T>(parts: seq<seq<T>>): (s: seq<T>)
  {
    if parts == [] then [] else parts[0] + Flatten(parts[1..])
  }

  lemma {:induction false} FlattenAppend<T>(left: seq<seq<T>>, right: seq<seq<T>>)
    ensures Flatten(left + right) == Flatten(left) + Flatten(right)
  {
    if left == [] {
      assert left + right == right;
    } else {
      assert (left + right)[1..] == left[1..] + right;
      FlattenAppend(left[1..], right);
    }
  }

  lemma FlattenSnoc<T>(parts: seq<seq<T>>, last: seq<T>)
    ensures Flatten(parts + [last]) == Flatten(parts) + last
  {
    FlattenAppend(parts, [last]);
    assert Flatten([last]) == last + Flatten([last][1..]);
  }
}
