/** Crc16 with the polynomial 0x1021 (Utils/CrcUtils.cpp): table-driven loops against the shift register. */
module Crc16 {

  /** One step of the shift register, most significant bit first. */
  function BitStep(c: bv16): bv16 {
    (c << 1) ^ Feed(c)
  }

  function Feed(c: bv16): bv16 {
    if c & 0x8000 == 0 then 0 else 0x1021
  }

  function Xor(a: bv16, b: bv16): bv16 {
    a ^ b
  }

  function EightSteps(c: bv16): bv16 {
    BitStep(BitStep(BitStep(BitStep(BitStep(BitStep(BitStep(BitStep(c))))))))
  }

  /** One byte through the register. */
  function ByteStep(c: bv16, b: bv8): bv16 {
    EightSteps(Xor(c, (b as bv16) << 8))
  }

  /** The bytes through the register, first to last. */
  function Bitwise(start: bv16, data: seq<bv8>): bv16
    decreases |data|
  {
    if data == [] then start else Bitwise(ByteStep(start, data[0]), data[1..])
  }

  // ---------- the table ----------

  function Pick(k: bv8,
      v0: bv16, v1: bv16, v2: bv16, v3: bv16, v4: bv16, v5: bv16, v6: bv16, v7: bv16,
      v8: bv16, v9: bv16, vA: bv16, vB: bv16, vC: bv16, vD: bv16, vE: bv16, vF: bv16): bv16
  {
    if k == 0 then v0 else if k == 1 then v1 else if k == 2 then v2 else if k == 3 then v3 else if k == 4 then v4
    else if k == 5 then v5 else if k == 6 then v6 else if k == 7 then v7 else if k == 8 then v8 else if k == 9 then v9
    else if k == 10 then vA else if k == 11 then vB else if k == 12 then vC
    else if k == 13 then vD else if k == 14 then vE else vF
  }

  /** The constant table: one line for each value of the high half of the index. */
  function Entry(i: bv8): bv16 {
    var k := i & 0x0F;
    match i >> 4
    case 0 => Pick(k, 0x0000, 0x1021, 0x2042, 0x3063, 0x4084, 0x50A5, 0x60C6, 0x70E7,
        0x8108, 0x9129, 0xA14A, 0xB16B, 0xC18C, 0xD1AD, 0xE1CE, 0xF1EF)
    case 1 => Pick(k, 0x1231, 0x0210, 0x3273, 0x2252, 0x52B5, 0x4294, 0x72F7, 0x62D6,
        0x9339, 0x8318, 0xB37B, 0xA35A, 0xD3BD, 0xC39C, 0xF3FF, 0xE3DE)
    case 2 => Pick(k, 0x2462, 0x3443, 0x0420, 0x1401, 0x64E6, 0x74C7, 0x44A4, 0x5485,
        0xA56A, 0xB54B, 0x8528, 0x9509, 0xE5EE, 0xF5CF, 0xC5AC, 0xD58D)
    case 3 => Pick(k, 0x3653, 0x2672, 0x1611, 0x0630, 0x76D7, 0x66F6, 0x5695, 0x46B4,
        0xB75B, 0xA77A, 0x9719, 0x8738, 0xF7DF, 0xE7FE, 0xD79D, 0xC7BC)
    case 4 => Pick(k, 0x48C4, 0x58E5, 0x6886, 0x78A7, 0x0840, 0x1861, 0x2802, 0x3823,
        0xC9CC, 0xD9ED, 0xE98E, 0xF9AF, 0x8948, 0x9969, 0xA90A, 0xB92B)
    case 5 => Pick(k, 0x5AF5, 0x4AD4, 0x7AB7, 0x6A96, 0x1A71, 0x0A50, 0x3A33, 0x2A12,
        0xDBFD, 0xCBDC, 0xFBBF, 0xEB9E, 0x9B79, 0x8B58, 0xBB3B, 0xAB1A)
    case 6 => Pick(k, 0x6CA6, 0x7C87, 0x4CE4, 0x5CC5, 0x2C22, 0x3C03, 0x0C60, 0x1C41,
        0xEDAE, 0xFD8F, 0xCDEC, 0xDDCD, 0xAD2A, 0xBD0B, 0x8D68, 0x9D49)
    case 7 => Pick(k, 0x7E97, 0x6EB6, 0x5ED5, 0x4EF4, 0x3E13, 0x2E32, 0x1E51, 0x0E70,
        0xFF9F, 0xEFBE, 0xDFDD, 0xCFFC, 0xBF1B, 0xAF3A, 0x9F59, 0x8F78)
    case 8 => Pick(k, 0x9188, 0x81A9, 0xB1CA, 0xA1EB, 0xD10C, 0xC12D, 0xF14E, 0xE16F,
        0x1080, 0x00A1, 0x30C2, 0x20E3, 0x5004, 0x4025, 0x7046, 0x6067)
    case 9 => Pick(k, 0x83B9, 0x9398, 0xA3FB, 0xB3DA, 0xC33D, 0xD31C, 0xE37F, 0xF35E,
        0x02B1, 0x1290, 0x22F3, 0x32D2, 0x4235, 0x5214, 0x6277, 0x7256)
    case 10 => Pick(k, 0xB5EA, 0xA5CB, 0x95A8, 0x8589, 0xF56E, 0xE54F, 0xD52C, 0xC50D,
        0x34E2, 0x24C3, 0x14A0, 0x0481, 0x7466, 0x6447, 0x5424, 0x4405)
    case 11 => Pick(k, 0xA7DB, 0xB7FA, 0x8799, 0x97B8, 0xE75F, 0xF77E, 0xC71D, 0xD73C,
        0x26D3, 0x36F2, 0x0691, 0x16B0, 0x6657, 0x7676, 0x4615, 0x5634)
    case 12 => Pick(k, 0xD94C, 0xC96D, 0xF90E, 0xE92F, 0x99C8, 0x89E9, 0xB98A, 0xA9AB,
        0x5844, 0x4865, 0x7806, 0x6827, 0x18C0, 0x08E1, 0x3882, 0x28A3)
    case 13 => Pick(k, 0xCB7D, 0xDB5C, 0xEB3F, 0xFB1E, 0x8BF9, 0x9BD8, 0xABBB, 0xBB9A,
        0x4A75, 0x5A54, 0x6A37, 0x7A16, 0x0AF1, 0x1AD0, 0x2AB3, 0x3A92)
    case 14 => Pick(k, 0xFD2E, 0xED0F, 0xDD6C, 0xCD4D, 0xBDAA, 0xAD8B, 0x9DE8, 0x8DC9,
        0x7C26, 0x6C07, 0x5C64, 0x4C45, 0x3CA2, 0x2C83, 0x1CE0, 0x0CC1)
    case _ => Pick(k, 0xEF1F, 0xFF3E, 0xCF5D, 0xDF7C, 0xAF9B, 0xBFBA, 0x8FD9, 0x9FF8,
        0x6E17, 0x7E36, 0x4E55, 0x5E74, 0x2E93, 0x3EB2, 0x0ED1, 0x1EF0)
  }

  lemma Entries0(i: bv8)
    requires i < 0x10
    ensures Entry(i) == EightSteps((i as bv16) << 8)
  {
    if i < 0x08 {
    } else {
    }
  }

  lemma Entries1(i: bv8)
    requires 0x10 <= i <= 0x4F
    ensures Entry(i) == EightSteps((i as bv16) << 8)
  {
    if i >> 4 == 1 {
    } else if i >> 4 == 2 {
    } else if i >> 4 == 3 {
    } else {
      assert i >> 4 == 4;
    }
  }

  lemma Entries2(i: bv8)
    requires 0x50 <= i <= 0x8F
    ensures Entry(i) == EightSteps((i as bv16) << 8)
  {
    if i >> 4 == 5 {
    } else if i >> 4 == 6 {
    } else if i >> 4 == 7 {
    } else {
      assert i >> 4 == 8;
    }
  }

  lemma Entries3(i: bv8)
    requires 0x90 <= i <= 0xCF
    ensures Entry(i) == EightSteps((i as bv16) << 8)
  {
    if i >> 4 == 9 {
    } else if i >> 4 == 10 {
    } else if i >> 4 == 11 {
    } else {
      assert i >> 4 == 12;
    }
  }

  lemma Entries4(i: bv8)
    requires 0xD0 <= i <= 0xFF
    ensures Entry(i) == EightSteps((i as bv16) << 8)
  {
    if i >> 4 == 13 {
    } else if i >> 4 == 14 {
    } else {
      assert i >> 4 == 15;
    }
  }

  /** Every entry of the table is eight bit steps of its index. */
  lemma {:induction false} TableIsBitwise(i: bv8)
    ensures Entry(i) == EightSteps((i as bv16) << 8)
  {
    if i < 0x10 {
      Entries0(i);
    } else if i < 0x50 {
      Entries1(i);
    } else if i < 0x90 {
      Entries2(i);
    } else if i < 0xD0 {
      Entries3(i);
    } else {
      Entries4(i);
    }
  }

  // ---------- the register ----------

  lemma BitStepOfXor(a: bv16, b: bv16)
    ensures BitStep(a ^ b) == BitStep(a) ^ BitStep(b)
  {
    if a & 0x8000 == 0 {
      if b & 0x8000 == 0 {
      } else {
      }
    } else {
      if b & 0x8000 == 0 {
      } else {
      }
    }
  }

  lemma BitStepLinear(a: bv16, b: bv16)
    ensures BitStep(Xor(a, b)) == Xor(BitStep(a), BitStep(b))
  {
    BitStepOfXor(a, b);
  }

  /** The register is linear over exclusive or. */
  lemma EightStepsLinear(a: bv16, b: bv16)
    ensures EightSteps(Xor(a, b)) == Xor(EightSteps(a), EightSteps(b))
  {
    hide BitStep, Xor;
    BitStepLinear(a, b);
    BitStepLinear(BitStep(a), BitStep(b));
    BitStepLinear(BitStep(BitStep(a)), BitStep(BitStep(b)));
    BitStepLinear(BitStep(BitStep(BitStep(a))), BitStep(BitStep(BitStep(b))));
    BitStepLinear(BitStep(BitStep(BitStep(BitStep(a)))), BitStep(BitStep(BitStep(BitStep(b)))));
    BitStepLinear(BitStep(BitStep(BitStep(BitStep(BitStep(a))))), BitStep(BitStep(BitStep(BitStep(BitStep(b))))));
    BitStepLinear(BitStep(BitStep(BitStep(BitStep(BitStep(BitStep(a)))))),
                  BitStep(BitStep(BitStep(BitStep(BitStep(BitStep(b)))))));
    BitStepLinear(BitStep(BitStep(BitStep(BitStep(BitStep(BitStep(BitStep(a))))))),
                  BitStep(BitStep(BitStep(BitStep(BitStep(BitStep(BitStep(b))))))));
  }

  lemma BitStepInjective(a: bv16, b: bv16)
    requires BitStep(a) == BitStep(b)
    ensures a == b
  {
    if a & 0x8000 == 0 {
      if b & 0x8000 == 0 {
      } else {
      }
    } else {
      if b & 0x8000 == 0 {
      } else {
      }
    }
  }

  lemma EightStepsInjective(a: bv16, b: bv16)
    requires EightSteps(a) == EightSteps(b)
    ensures a == b
  {
    hide BitStep;
    BitStepInjective(BitStep(BitStep(BitStep(BitStep(BitStep(BitStep(BitStep(a))))))),
                     BitStep(BitStep(BitStep(BitStep(BitStep(BitStep(BitStep(b))))))));
    BitStepInjective(BitStep(BitStep(BitStep(BitStep(BitStep(BitStep(a)))))),
                     BitStep(BitStep(BitStep(BitStep(BitStep(BitStep(b)))))));
    BitStepInjective(BitStep(BitStep(BitStep(BitStep(BitStep(a))))), BitStep(BitStep(BitStep(BitStep(BitStep(b))))));
    BitStepInjective(BitStep(BitStep(BitStep(BitStep(a)))), BitStep(BitStep(BitStep(BitStep(b)))));
    BitStepInjective(BitStep(BitStep(BitStep(a))), BitStep(BitStep(BitStep(b))));
    BitStepInjective(BitStep(BitStep(a)), BitStep(BitStep(b)));
    BitStepInjective(BitStep(a), BitStep(b));
    BitStepInjective(a, b);
  }

  lemma PlainShift(c: bv16)
    requires c & 0x8000 == 0
    ensures BitStep(c) == c << 1
  {
  }

  /** A low byte is only shifted: nothing of it reaches the top bit in time. */
  lemma LowByteShifts(c: bv16)
    requires c < 0x100
    ensures EightSteps(c) == c << 8
  {
    hide BitStep;
    PlainShift(c);
    PlainShift(c << 1);
    PlainShift(c << 2);
    PlainShift(c << 3);
    PlainShift(c << 4);
    PlainShift(c << 5);
    PlainShift(c << 6);
    PlainShift(c << 7);
  }

  // ---------- one table step is one byte through the register ----------

  function TableIndex(c: bv16, b: bv8): bv8 {
    ((c >> 8) as bv8) ^ b
  }

  function TableStep(c: bv16, b: bv8): bv16 {
    Xor(c << 8, Entry(TableIndex(c, b)))
  }

  lemma Halves(c: bv16, b: bv8)
    ensures Xor(c, (b as bv16) << 8) == Xor((TableIndex(c, b) as bv16) << 8, c & 0xFF)
    ensures (c & 0xFF) < 0x100 && (c & 0xFF) << 8 == c << 8
  {
  }

  lemma TableStepIsByteStep(c: bv16, b: bv8)
    ensures TableStep(c, b) == ByteStep(c, b)
  {
    hide BitStep, EightSteps, Entry, Xor, TableIndex;
    var i := TableIndex(c, b);
    Halves(c, b);
    EightStepsLinear((i as bv16) << 8, c & 0xFF);
    LowByteShifts(c & 0xFF);
    TableIsBitwise(i);
    XorCommutes(c << 8, Entry(i));
  }

  lemma XorCommutes(a: bv16, b: bv16)
    ensures Xor(a, b) == Xor(b, a)
  {
  }

  /** The same in the words of the code. */
  lemma LoopBodyIsByteStep(c: bv16, b: bv8)
    ensures (c << 8) ^ Entry(((c >> 8) as bv8) ^ b) == ByteStep(c, b)
  {
    hide Entry, ByteStep;
    TableStepIsByteStep(c, b);
  }

  // ---------- the loops ----------

  /** The three-argument form: resumes from a given value; a count of 0 or less leaves it. */
  method CrcFrom(start: bv16, data: seq<bv8>, count: int) returns (crc: bv16)
    requires count <= |data|
    ensures crc == Bitwise(start, if count > 0 then data[..count] else [])
  {
    crc := start;
    if count > 0 {
      for i := 0 to count
        invariant crc == Bitwise(start, data[..i])
      {
        crc := CrcStep(start, data, i, crc);
      }
    }
  }

  /** The two-argument form: starts from all ones; the length is a 16-bit number. */
  method Crc(data: seq<bv8>, length: nat) returns (crc: bv16)
    requires length <= |data| && length < 0x1_0000
    ensures crc == Bitwise(0xFFFF, data[..length])
  {
    crc := 0xFFFF;
    var i, left := 0, length;
    while left != 0
      invariant i + left == length
      invariant crc == Bitwise(0xFFFF, data[..i])
    {
      left := left - 1;
      crc := CrcStep(0xFFFF, data, i, crc);
      i := i + 1;
    }
  }

  /** The loop body: one table step. */
  method CrcStep(ghost start: bv16, data: seq<bv8>, i: nat, crc: bv16) returns (next: bv16)
    requires i < |data| && crc == Bitwise(start, data[..i])
    ensures next == Bitwise(start, data[..i + 1])
  {
    hide Entry, ByteStep, BitStep;
    var b := data[i];
    next := (crc << 8) ^ Entry(((crc >> 8) as bv8) ^ b);
    LoopBodyIsByteStep(crc, b);
    BitwiseSnoc(start, data[..i], b);
    assert data[..i] + [b] == data[..i + 1];
  }

  /** Feeding a concatenation is feeding its parts one after the other. */
  lemma {:induction false} BitwiseAppend(start: bv16, left: seq<bv8>, right: seq<bv8>)
    ensures Bitwise(start, left + right) == Bitwise(Bitwise(start, left), right)
    decreases |left|
  {
    hide ByteStep;
    if left == [] {
      assert left + right == right;
    } else {
      assert (left + right)[1..] == left[1..] + right;
      BitwiseAppend(ByteStep(start, left[0]), left[1..], right);
    }
  }

  lemma BitwiseSnoc(start: bv16, data: seq<bv8>, b: bv8)
    ensures Bitwise(start, data + [b]) == ByteStep(Bitwise(start, data), b)
  {
    hide ByteStep;
    BitwiseAppend(start, data, [b]);
    var c := Bitwise(start, data);
    assert [b][1..] == [];
    assert Bitwise(c, [b]) == Bitwise(ByteStep(c, b), []);
  }

  // ---------- what the checksum detects ----------

  lemma ByteStepInjective(c: bv16, d: bv16, b: bv8)
    requires ByteStep(c, b) == ByteStep(d, b)
    ensures c == d
  {
    hide EightSteps, Xor;
    EightStepsInjective(Xor(c, (b as bv16) << 8), Xor(d, (b as bv16) << 8));
    XorCancels(c, d, (b as bv16) << 8);
  }

  lemma XorCancels(c: bv16, d: bv16, x: bv16)
    requires Xor(c, x) == Xor(d, x)
    ensures c == d
  {
    assert (c ^ x) ^ x == c && (d ^ x) ^ x == d;
  }

  /** Different states stay different whatever is fed next. */
  lemma {:induction false} BitwiseInjective(c: bv16, d: bv16, data: seq<bv8>)
    requires Bitwise(c, data) == Bitwise(d, data)
    ensures c == d
    decreases |data|
  {
    hide ByteStep;
    if data != [] {
      BitwiseInjective(ByteStep(c, data[0]), ByteStep(d, data[0]), data[1..]);
      ByteStepInjective(c, d, data[0]);
    }
  }

  lemma XorAssociates(a: bv16, b: bv16, c: bv16)
    ensures Xor(Xor(a, b), c) == Xor(a, Xor(b, c))
  {
    assert (a ^ b) ^ c == a ^ (b ^ c);
  }
}
