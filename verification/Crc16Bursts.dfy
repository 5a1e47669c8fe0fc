/** What the 0x1021 checksum detects: every change within sixteen adjacent bits, at any bit position, and no more. */
module Crc16Bursts {
  import opened Crc16

  // ---------- the register, bit by bit ----------

  function BitsOf(b: bv8): seq<bool> {
    [b & 0x80 != 0, b & 0x40 != 0, b & 0x20 != 0, b & 0x10 != 0,
     b & 0x08 != 0, b & 0x04 != 0, b & 0x02 != 0, b & 0x01 != 0]
  }

  /** The bits of the bytes in the order they enter the register. */
  function AllBits(data: seq<bv8>): (bits: seq<bool>)
    ensures |bits| == 8 * |data|
  {
    if data == [] then [] else BitsOf(data[0]) + AllBits(data[1..])
  }

  /** A bit enters at the top. */
  function Entered(c: bv16, bit: bool): bv16 {
    Xor(c, if bit then 0x8000 else 0)
  }

  function FeedBit(c: bv16, bit: bool): bv16 {
    BitStep(Entered(c, bit))
  }

  function FeedBits(c: bv16, bits: seq<bool>): bv16
    decreases |bits|
  {
    if bits == [] then c else FeedBits(FeedBit(c, bits[0]), bits[1..])
  }

  lemma {:induction false} FeedBitsAppend(c: bv16, left: seq<bool>, right: seq<bool>)
    ensures FeedBits(c, left + right) == FeedBits(FeedBits(c, left), right)
    decreases |left|
  {
    hide FeedBit;
    if left == [] {
      assert left + right == right;
    } else {
      assert (left + right)[1..] == left[1..] + right;
      FeedBitsAppend(FeedBit(c, left[0]), left[1..], right);
    }
  }

  predicate Top(y: bv16) {
    y & 0x8000 != 0
  }

  lemma TopAndRest(y: bv16)
    ensures y == Xor(if Top(y) then 0x8000 else 0, y & 0x7FFF) && BitStep(y & 0x7FFF) == y << 1
  {
  }

  /** Bits mixed into the whole register: the top one enters, the others move up. */
  lemma OneBit(c: bv16, y: bv16)
    ensures BitStep(Xor(c, y)) == Xor(FeedBit(c, Top(y)), y << 1)
  {
    hide BitStep, Xor, Top;
    TopAndRest(y);
    XorAssociates(c, if Top(y) then 0x8000 else 0, y & 0x7FFF);
    BitStepLinear(Entered(c, Top(y)), y & 0x7FFF);
  }

  /** The bits that are at the top of a register while it moves up a byte. */
  function Tops(y: bv16): seq<bool> {
    [Top(y), Top(y << 1), Top(y << 2), Top(y << 3), Top(y << 4), Top(y << 5), Top(y << 6), Top(y << 7)]
  }

  lemma FeedFour(c: bv16, u: seq<bool>)
    requires |u| >= 4
    ensures FeedBits(c, u) == FeedBits(FeedBit(FeedBit(FeedBit(FeedBit(c, u[0]), u[1]), u[2]), u[3]), u[4..])
  {
    hide FeedBit;
    var c1 := FeedBit(c, u[0]);
    var c2 := FeedBit(c1, u[1]);
    var c3 := FeedBit(c2, u[2]);
    assert u[1..][1..] == u[2..] && u[2..][1..] == u[3..] && u[3..][1..] == u[4..];
    assert FeedBits(c1, u[1..]) == FeedBits(c2, u[2..]);
    assert FeedBits(c2, u[2..]) == FeedBits(c3, u[3..]);
  }

  lemma FeedEight(c: bv16, u: seq<bool>)
    requires |u| == 8
    ensures FeedBits(c, u) ==
      FeedBit(FeedBit(FeedBit(FeedBit(FeedBit(FeedBit(FeedBit(FeedBit(c,
        u[0]), u[1]), u[2]), u[3]), u[4]), u[5]), u[6]), u[7])
  {
    hide FeedBit;
    FeedFour(c, u);
    FeedFour(FeedBit(FeedBit(FeedBit(FeedBit(c, u[0]), u[1]), u[2]), u[3]), u[4..]);
    assert u[4..][4..] == [];
  }

  function FeedTop(c: bv16, y: bv16): bv16 {
    FeedBit(c, Top(y))
  }

  lemma EightTops(c: bv16, y: bv16)
    ensures EightSteps(Xor(c, y)) ==
      Xor(FeedTop(FeedTop(FeedTop(FeedTop(FeedTop(FeedTop(FeedTop(FeedTop(c,
        y), y << 1), y << 2), y << 3), y << 4), y << 5), y << 6), y << 7), y << 8)
  {
    hide FeedBit, Xor, BitStep, Top;
    var c1 := FeedTop(c, y);
    var c2 := FeedTop(c1, y << 1);
    var c3 := FeedTop(c2, y << 2);
    var c4 := FeedTop(c3, y << 3);
    var c5 := FeedTop(c4, y << 4);
    var c6 := FeedTop(c5, y << 5);
    var c7 := FeedTop(c6, y << 6);
    OneBit(c, y);
    OneBit(c1, y << 1);
    OneBit(c2, y << 2);
    OneBit(c3, y << 3);
    OneBit(c4, y << 4);
    OneBit(c5, y << 5);
    OneBit(c6, y << 6);
    OneBit(c7, y << 7);
  }

  lemma TopsFed(c: bv16, y: bv16)
    ensures EightSteps(Xor(c, y)) == Xor(FeedBits(c, Tops(y)), y << 8)
  {
    hide FeedBit, Xor, BitStep, EightSteps, Top, FeedBits;
    EightTops(c, y);
    FeedEight(c, Tops(y));
  }

  /** A byte in the upper half moves out bit by bit, and nothing is left of it then. */
  lemma TopsAreBits(b: bv8, y: bv16)
    requires y == (b as bv16) << 8
    ensures BitsOf(b) == Tops(y) && y << 8 == 0
  {
  }

  lemma NothingLeft(c: bv16)
    ensures Xor(c, 0) == c
  {
  }

  lemma ByteIsBits(c: bv16, b: bv8)
    ensures ByteStep(c, b) == FeedBits(c, BitsOf(b))
  {
    hide FeedBits, EightSteps, Tops, BitsOf;
    var y := (b as bv16) << 8;
    TopsFed(c, y);
    TopsAreBits(b, y);
  }

  /** The checksum of bytes is that of their bits. */
  lemma {:induction false} BitwiseIsBits(c: bv16, data: seq<bv8>)
    ensures Bitwise(c, data) == FeedBits(c, AllBits(data))
    decreases |data|
  {
    hide ByteStep, FeedBit, BitsOf;
    if data != [] {
      ByteIsBits(c, data[0]);
      BitwiseIsBits(ByteStep(c, data[0]), data[1..]);
      FeedBitsAppend(c, BitsOf(data[0]), AllBits(data[1..]));
    }
  }

  lemma {:induction false} AllBitsAppend(left: seq<bv8>, right: seq<bv8>)
    ensures AllBits(left + right) == AllBits(left) + AllBits(right)
  {
    hide BitsOf;
    if left == [] {
      assert left + right == right;
    } else {
      assert (left + right)[1..] == left[1..] + right;
      AllBitsAppend(left[1..], right);
    }
  }

  lemma BitsOfInjective(b: bv8, b': bv8)
    requires BitsOf(b) == BitsOf(b')
    ensures b == b'
  {
    var u, u' := BitsOf(b), BitsOf(b');
    assert u[0] == u'[0] && u[1] == u'[1] && u[2] == u'[2] && u[3] == u'[3];
    assert u[4] == u'[4] && u[5] == u'[5] && u[6] == u'[6] && u[7] == u'[7];
  }

  lemma {:induction false} AllBitsInjective(p: seq<bv8>, q: seq<bv8>)
    requires |p| == |q| && AllBits(p) == AllBits(q)
    ensures p == q
  {
    hide BitsOf;
    if p != [] {
      assert BitsOf(p[0]) == AllBits(p)[..8] && BitsOf(q[0]) == AllBits(q)[..8];
      assert AllBits(p[1..]) == AllBits(p)[8..] && AllBits(q[1..]) == AllBits(q)[8..];
      BitsOfInjective(p[0], q[0]);
      AllBitsInjective(p[1..], q[1..]);
    }
  }

  // ---------- sixteen bits are told apart ----------

  /** The lowest m bits. */
  function Low(m: nat): bv16
    requires m <= 16
  {
    match m
    case 0 => 0 case 1 => 0x1 case 2 => 0x3 case 3 => 0x7 case 4 => 0xF case 5 => 0x1F case 6 => 0x3F case 7 => 0x7F
    case 8 => 0xFF case 9 => 0x1FF case 10 => 0x3FF case 11 => 0x7FF case 12 => 0xFFF case 13 => 0x1FFF
    case 14 => 0x3FFF case 15 => 0x7FFF case _ => 0xFFFF
  }

  lemma LowGrows(m: nat)
    requires m < 16
    ensures Low(m + 1) == (Low(m) << 1) | 1 && Low(m) & 0x8000 == 0 && 0x1021 & Low(m + 1) != 0
  {
  }

  /** The register after one bit has its low bits clear only if it had the bits below them clear before. */
  lemma ClearBefore(x: bv16, low: bv16)
    requires low & 0x8000 == 0 && BitStep(x) & ((low << 1) | 1) == 0
    ensures x & low == 0 && Xor(x, 0x8000) & low == 0
  {
    hide BitStep, Xor;
    MaskWithLowest(BitStep(x), low);
    EvenMeansShifted(x);
    ShiftedBack(x, low);
    TopIsOutside(x, low);
  }

  lemma MaskWithLowest(y: bv16, low: bv16)
    requires y & ((low << 1) | 1) == 0
    ensures y & 1 == 0 && y & (low << 1) == 0
  {
  }

  lemma EvenMeansShifted(x: bv16)
    requires BitStep(x) & 1 == 0
    ensures x & 0x8000 == 0 && BitStep(x) == x << 1
  {
  }

  lemma ShiftedBack(x: bv16, low: bv16)
    requires low & 0x8000 == 0 && (x << 1) & (low << 1) == 0
    ensures x & low == 0
  {
  }

  lemma TopIsOutside(x: bv16, low: bv16)
    requires low & 0x8000 == 0 && x & low == 0
    ensures Xor(x, 0x8000) & low == 0
  {
  }

  lemma EnteredTogether(s: bv16, t: bv16, bit: bool, bit': bool)
    ensures Xor(s, t) == Xor(Entered(s, bit), Entered(t, bit'))
         || Xor(s, t) == Xor(Xor(Entered(s, bit), Entered(t, bit')), 0x8000)
  {
    var x := if bit then 0x8000 else 0;
    var x' := if bit' then 0x8000 else 0;
    TwoIn(s, t, x, x');
    if bit == bit' {
      assert Xor(x, x') == 0;
    } else {
      assert Xor(x, x') == 0x8000;
    }
  }

  lemma Interchange(s: bv16, x: bv16, t: bv16, x': bv16)
    ensures Xor(Xor(s, x), Xor(t, x')) == Xor(Xor(s, t), Xor(x, x'))
  {
    hide Xor;
    XorAssociates(s, x, Xor(t, x'));
    XorAssociates(x, t, x');
    XorCommutes(x, t);
    XorAssociates(t, x, x');
    XorAssociates(s, t, Xor(x, x'));
  }

  lemma TwoIn(s: bv16, t: bv16, x: bv16, x': bv16)
    ensures Xor(s, t) == Xor(Xor(Xor(s, x), Xor(t, x')), Xor(x, x'))
  {
    hide Xor;
    Interchange(s, x, t, x');
    XorTwice(Xor(s, t), Xor(x, x'));
  }

  lemma XorTwice(a: bv16, x: bv16)
    ensures Xor(Xor(a, x), x) == a
  {
  }

  /** Two registers that are equal after n bits differed in their top n bits only. */
  lemma {:induction false} DifferenceIsHigh(s: bv16, t: bv16, u: seq<bool>, v: seq<bool>)
    requires |u| == |v| <= 16 && FeedBits(s, u) == FeedBits(t, v)
    ensures Xor(s, t) & Low(16 - |u|) == 0
    decreases |u|
  {
    hide BitStep, Entered, Xor, Low;
    if u == [] {
      SameIsZero(s);
      assert 0 & Low(16) == 0;
    } else {
      var m := 16 - |u|;
      DifferenceIsHigh(FeedBit(s, u[0]), FeedBit(t, v[0]), u[1..], v[1..]);
      BitStepLinear(Entered(s, u[0]), Entered(t, v[0]));
      LowGrows(m);
      ClearBefore(Xor(Entered(s, u[0]), Entered(t, v[0])), Low(m));
      EnteredTogether(s, t, u[0], v[0]);
    }
  }

  lemma SameIsZero(s: bv16)
    ensures Xor(s, s) == 0
  {
  }

  lemma DifferentBits(c: bv16, bit: bool)
    ensures Xor(FeedBit(c, bit), FeedBit(c, !bit)) == 0x1021
  {
    hide BitStep, Entered, Xor;
    BitStepLinear(Entered(c, bit), Entered(c, !bit));
    OnlyTopDiffers(c, bit);
    OnlyTop();
  }

  lemma OnlyTopDiffers(c: bv16, bit: bool)
    ensures Xor(Entered(c, bit), Entered(c, !bit)) == 0x8000
  {
    hide Xor;
    TwoIn(c, c, if bit then 0x8000 else 0, if bit then 0 else 0x8000);
    SameIsZero(c);
    OneIsTop(Xor(Entered(c, bit), Entered(c, !bit)));
  }

  lemma OneIsTop(x: bv16)
    ensures Xor(0x8000, 0) == Xor(0, 0x8000) == 0x8000
    ensures Xor(x, 0x8000) == 0 ==> x == 0x8000
  {
  }

  lemma OnlyTop()
    ensures BitStep(0x8000) == 0x1021
  {
  }

  /** Up to sixteen bits, different bits leave different registers. */
  lemma {:induction false} ShortBitsInjective(c: bv16, u: seq<bool>, v: seq<bool>)
    requires |u| == |v| <= 16 && FeedBits(c, u) == FeedBits(c, v)
    ensures u == v
    decreases |u|
  {
    hide FeedBit, Low, Xor;
    if u != [] {
      if u[0] != v[0] {
        DifferenceIsHigh(FeedBit(c, u[0]), FeedBit(c, v[0]), u[1..], v[1..]);
        DifferentBits(c, u[0]);
        LowGrows(16 - |u|);
        assert false;
      }
      ShortBitsInjective(FeedBit(c, u[0]), u[1..], v[1..]);
      assert u == [u[0]] + u[1..] && v == [v[0]] + v[1..];
    }
  }

  /** Equal registers were equal before any bits. */
  lemma {:induction false} FeedBitsInjective(c: bv16, d: bv16, u: seq<bool>)
    requires FeedBits(c, u) == FeedBits(d, u)
    ensures c == d
    decreases |u|
  {
    hide BitStep, Xor;
    if u != [] {
      FeedBitsInjective(FeedBit(c, u[0]), FeedBit(d, u[0]), u[1..]);
      BitStepInjective(Entered(c, u[0]), Entered(d, u[0]));
      XorCancels(c, d, if u[0] then 0x8000 else 0);
    }
  }

  /** The two sequences have equal length and agree outside `width` places from i on. */
  ghost predicate AgreeOutside<T>(p: seq<T>, q: seq<T>, i: nat, width: nat) {
    |p| == |q| && i + width <= |p| && p[..i] == q[..i] && p[i + width..] == q[i + width..]
  }

  lemma Around<T>(p: seq<T>, i: nat, width: nat)
    requires i + width <= |p|
    ensures p == p[..i] + p[i..i + width] + p[i + width..]
  {
  }

  /** A change within some bytes is one within their bits. */
  lemma BytesAgreeInBits(p: seq<bv8>, q: seq<bv8>, i: nat, width: nat)
    requires AgreeOutside(p, q, i, width)
    ensures AgreeOutside(AllBits(p), AllBits(q), 8 * i, 8 * width)
  {
    hide AllBits;
    SplitBits(p, i);
    SplitBits(q, i);
    SplitBits(p, i + width);
    SplitBits(q, i + width);
  }

  lemma SplitBits(p: seq<bv8>, k: nat)
    requires k <= |p|
    ensures AllBits(p)[..8 * k] == AllBits(p[..k]) && AllBits(p)[8 * k..] == AllBits(p[k..])
  {
    hide AllBits, BitsOf;
    Joined(p, k);
    AllBitsAppend(p[..k], p[k..]);
    Cut(AllBits(p[..k]), AllBits(p[k..]));
  }

  lemma Joined<T>(p: seq<T>, k: nat)
    requires k <= |p|
    ensures p == p[..k] + p[k..]
  {
  }

  lemma Cut<T>(a: seq<T>, b: seq<T>)
    ensures (a + b)[..|a|] == a && (a + b)[|a|..] == b
  {
  }

  /** Data that differ only within sixteen adjacent bits, wherever these start in a byte, have different checksums. */
  lemma {:induction false} BurstDetected(start: bv16, p: seq<bv8>, q: seq<bv8>, i: nat, width: nat)
    requires |p| == |q| && AgreeOutside(AllBits(p), AllBits(q), i, width) && width <= 16
    requires Bitwise(start, p) == Bitwise(start, q)
    ensures p == q
  {
    hide Bitwise, AllBits, FeedBits;
    var u, v := AllBits(p), AllBits(q);
    BitwiseIsBits(start, p);
    BitwiseIsBits(start, q);
    Around(u, i, width);
    Around(v, i, width);
    var c := FeedBits(start, u[..i]);
    FeedBitsAppend(start, u[..i] + u[i..i + width], u[i + width..]);
    FeedBitsAppend(start, u[..i] + v[i..i + width], u[i + width..]);
    FeedBitsAppend(start, u[..i], u[i..i + width]);
    FeedBitsAppend(start, u[..i], v[i..i + width]);
    FeedBitsInjective(FeedBits(c, u[i..i + width]), FeedBits(c, v[i..i + width]), u[i + width..]);
    ShortBitsInjective(c, u[i..i + width], v[i..i + width]);
    AllBitsInjective(p, q);
  }

  // ---------- seventeen are not ----------

  /** A difference d in the register and e in the byte leave a difference that depends on nothing else. */
  lemma DifferenceThroughByte(c: bv16, d: bv16, b: bv8, e: bv8)
    ensures ByteStep(Xor(c, d), b ^ e) == Xor(ByteStep(c, b), EightSteps(Xor(d, (e as bv16) << 8)))
  {
    hide EightSteps, Xor;
    var x, y := (b as bv16) << 8, (e as bv16) << 8;
    BytesXor(b, e);
    Interchange(c, d, x, y);
    EightStepsLinear(Xor(c, x), Xor(d, y));
  }

  lemma BytesXor(b: bv8, e: bv8)
    ensures ((b ^ e) as bv16) << 8 == Xor((b as bv16) << 8, (e as bv16) << 8)
  {
  }

  lemma PolynomialRunsOut()
    ensures EightSteps(Xor(0, (0x88 as bv16) << 8)) == 0x1080
    ensures EightSteps(Xor(0x1080, (0x10 as bv16) << 8)) == 0x8000
    ensures EightSteps(Xor(0x8000, (0x80 as bv16) << 8)) == 0
  {
    hide EightSteps;
    TableIsBitwise(0x88);
    LowByteShifts(0x80);
    LowByteShifts(0);
  }

  function Flipped(a: bv8, b: bv8, c: bv8): (s: seq<bv8>)
    ensures |s| == 3
  {
    [a ^ 0x88, b ^ 0x10, c ^ 0x80]
  }

  /** The data with three adjacent bytes altered by the polynomial: seventeen adjacent bits, four of them changed. */
  function Altered(p: seq<bv8>, i: nat): seq<bv8>
    requires i + 3 <= |p|
  {
    p[..i] + Flipped(p[i], p[i + 1], p[i + 2]) + p[i + 3..]
  }

  lemma ThreeBytes(start: bv16, p: seq<bv8>, i: nat)
    requires i + 3 <= |p|
    ensures Bitwise(start, p)
         == Bitwise(ByteStep(ByteStep(ByteStep(Bitwise(start, p[..i]), p[i]), p[i + 1]), p[i + 2]), p[i + 3..])
  {
    hide ByteStep;
    var c := Bitwise(start, p[..i]);
    assert p == p[..i] + ([p[i]] + ([p[i + 1]] + ([p[i + 2]] + p[i + 3..])));
    BitwiseAppend(start, p[..i], p[i..]);
    assert p[..i] + p[i..] == p;
    assert p[i..][1..] == p[i + 1..] && p[i + 1..][1..] == p[i + 2..] && p[i + 2..][1..] == p[i + 3..];
    assert Bitwise(ByteStep(c, p[i]), p[i + 1..]) == Bitwise(ByteStep(ByteStep(c, p[i]), p[i + 1]), p[i + 2..]);
  }

  /** Sixteen is the bound: altering seventeen adjacent bits by the polynomial never changes the checksum. */
  lemma {:induction false} LongerBurstMissed(start: bv16, p: seq<bv8>, i: nat)
    requires i + 3 <= |p|
    ensures Altered(p, i) != p && Bitwise(start, Altered(p, i)) == Bitwise(start, p)
    ensures AgreeOutside(AllBits(p), AllBits(Altered(p, i)), 8 * i, 17)
  {
    hide ByteStep, EightSteps, Bitwise, Xor, AllBits;
    var q := Altered(p, i);
    assert q[..i] == p[..i] && q[i + 3..] == p[i + 3..];
    ThreeBytes(start, p, i);
    ThreeBytes(start, q, i);
    var c := Bitwise(start, p[..i]);
    var c1 := ByteStep(c, p[i]);
    var c2 := ByteStep(c1, p[i + 1]);
    NothingLeft(c);
    NothingLeft(ByteStep(c2, p[i + 2]));
    PolynomialRunsOut();
    DifferenceThroughByte(c, 0, p[i], 0x88);
    DifferenceThroughByte(c1, 0x1080, p[i + 1], 0x10);
    DifferenceThroughByte(c2, 0x8000, p[i + 2], 0x80);
    assert q[i] != p[i] by { ChangesTopBit(p[i], 0x88); }
    AlteredBits(p, i);
  }

  lemma ChangesTopBit(b: bv8, e: bv8)
    requires e & 0x80 == 0x80
    ensures b ^ e != b
  {
  }

  lemma AlteredShape(p: seq<bv8>, i: nat)
    requires i + 3 <= |p|
    ensures var q := Altered(p, i);
      |q| == |p| && q[..i] == p[..i] && q[i + 2] == p[i + 2] ^ 0x80 && q[i + 3..] == p[i + 3..]
  {
  }

  lemma AlteredBits(p: seq<bv8>, i: nat)
    requires i + 3 <= |p|
    ensures AgreeOutside(AllBits(p), AllBits(Altered(p, i)), 8 * i, 17)
  {
    hide BitsOf, AllBits, Altered;
    var q := Altered(p, i);
    AlteredShape(p, i);
    BitsAround(p, i);
    BitsAround(q, i);
    LowerBitsStay(p[i + 2]);
  }

  lemma LowerBitsStay(b: bv8)
    ensures BitsOf(b ^ 0x80)[1..] == BitsOf(b)[1..]
  {
  }

  lemma BitsAround(p: seq<bv8>, i: nat)
    requires i + 3 <= |p|
    ensures AllBits(p)[..8 * i] == AllBits(p[..i])
    ensures AllBits(p)[8 * i + 17..] == BitsOf(p[i + 2])[1..] + AllBits(p[i + 3..])
  {
    hide BitsOf, AllBits;
    SplitBits(p, i);
    SplitBits(p, i + 2);
    FirstBits(p[i + 2..]);
    assert p[i + 2..][1..] == p[i + 3..];
    DropOne(AllBits(p), 8 * (i + 2), BitsOf(p[i + 2]), AllBits(p[i + 3..]));
  }

  lemma FirstBits(p: seq<bv8>)
    requires p != []
    ensures AllBits(p) == BitsOf(p[0]) + AllBits(p[1..])
  {
  }

  lemma DropOne<T>(s: seq<T>, k: nat, c: seq<T>, d: seq<T>)
    requires k <= |s| && s[k..] == c + d && c != []
    ensures s[k + 1..] == c[1..] + d
  {
    assert s[k + 1..] == s[k..][1..];
  }
}
