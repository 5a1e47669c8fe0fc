/** Crc8 of Utils/CrcUtils.cpp: a table of 256 entries against the bit-serial definition (polynomial x^8 + x^5 +
    x^4 + 1, low bit first, start 0). */
module Crc8 {

  function BitStep(c: bv8): bv8 {
    if c & 1 != 0 then (c >> 1) ^ 0x8C else c >> 1
  }

  function EightSteps(c: bv8): bv8 {
    BitStep(BitStep(BitStep(BitStep(BitStep(BitStep(BitStep(BitStep(c))))))))
  }

  /** The checksum bit by bit. */
  function Bitwise(start: bv8, data: seq<bv8>): bv8
    decreases |data|
  {
    if data == [] then start else Bitwise(EightSteps(start ^ data[0]), data[1..])
  }

  // ---------- the table ----------

  function Pick(k: bv8,
      v0: bv8, v1: bv8, v2: bv8, v3: bv8, v4: bv8, v5: bv8, v6: bv8, v7: bv8,
      v8: bv8, v9: bv8, vA: bv8, vB: bv8, vC: bv8, vD: bv8, vE: bv8, vF: bv8): bv8
  {
    if k == 0 then v0 else if k == 1 then v1 else if k == 2 then v2 else if k == 3 then v3 else if k == 4 then v4
    else if k == 5 then v5 else if k == 6 then v6 else if k == 7 then v7 else if k == 8 then v8 else if k == 9 then v9
    else if k == 10 then vA else if k == 11 then vB else if k == 12 then vC
    else if k == 13 then vD else if k == 14 then vE else vF
  }

  /** The constant table: one line for each value of the high half of the index. */
  function Entry(i: bv8): bv8 {
    var k := i & 0x0F;
    match i >> 4
    case 0 => Pick(k, 0x00, 0x5E, 0xBC, 0xE2, 0x61, 0x3F, 0xDD, 0x83,
        0xC2, 0x9C, 0x7E, 0x20, 0xA3, 0xFD, 0x1F, 0x41)
    case 1 => Pick(k, 0x9D, 0xC3, 0x21, 0x7F, 0xFC, 0xA2, 0x40, 0x1E,
        0x5F, 0x01, 0xE3, 0xBD, 0x3E, 0x60, 0x82, 0xDC)
    case 2 => Pick(k, 0x23, 0x7D, 0x9F, 0xC1, 0x42, 0x1C, 0xFE, 0xA0,
        0xE1, 0xBF, 0x5D, 0x03, 0x80, 0xDE, 0x3C, 0x62)
    case 3 => Pick(k, 0xBE, 0xE0, 0x02, 0x5C, 0xDF, 0x81, 0x63, 0x3D,
        0x7C, 0x22, 0xC0, 0x9E, 0x1D, 0x43, 0xA1, 0xFF)
    case 4 => Pick(k, 0x46, 0x18, 0xFA, 0xA4, 0x27, 0x79, 0x9B, 0xC5,
        0x84, 0xDA, 0x38, 0x66, 0xE5, 0xBB, 0x59, 0x07)
    case 5 => Pick(k, 0xDB, 0x85, 0x67, 0x39, 0xBA, 0xE4, 0x06, 0x58,
        0x19, 0x47, 0xA5, 0xFB, 0x78, 0x26, 0xC4, 0x9A)
    case 6 => Pick(k, 0x65, 0x3B, 0xD9, 0x87, 0x04, 0x5A, 0xB8, 0xE6,
        0xA7, 0xF9, 0x1B, 0x45, 0xC6, 0x98, 0x7A, 0x24)
    case 7 => Pick(k, 0xF8, 0xA6, 0x44, 0x1A, 0x99, 0xC7, 0x25, 0x7B,
        0x3A, 0x64, 0x86, 0xD8, 0x5B, 0x05, 0xE7, 0xB9)
    case 8 => Pick(k, 0x8C, 0xD2, 0x30, 0x6E, 0xED, 0xB3, 0x51, 0x0F,
        0x4E, 0x10, 0xF2, 0xAC, 0x2F, 0x71, 0x93, 0xCD)
    case 9 => Pick(k, 0x11, 0x4F, 0xAD, 0xF3, 0x70, 0x2E, 0xCC, 0x92,
        0xD3, 0x8D, 0x6F, 0x31, 0xB2, 0xEC, 0x0E, 0x50)
    case 10 => Pick(k, 0xAF, 0xF1, 0x13, 0x4D, 0xCE, 0x90, 0x72, 0x2C,
        0x6D, 0x33, 0xD1, 0x8F, 0x0C, 0x52, 0xB0, 0xEE)
    case 11 => Pick(k, 0x32, 0x6C, 0x8E, 0xD0, 0x53, 0x0D, 0xEF, 0xB1,
        0xF0, 0xAE, 0x4C, 0x12, 0x91, 0xCF, 0x2D, 0x73)
    case 12 => Pick(k, 0xCA, 0x94, 0x76, 0x28, 0xAB, 0xF5, 0x17, 0x49,
        0x08, 0x56, 0xB4, 0xEA, 0x69, 0x37, 0xD5, 0x8B)
    case 13 => Pick(k, 0x57, 0x09, 0xEB, 0xB5, 0x36, 0x68, 0x8A, 0xD4,
        0x95, 0xCB, 0x29, 0x77, 0xF4, 0xAA, 0x48, 0x16)
    case 14 => Pick(k, 0xE9, 0xB7, 0x55, 0x0B, 0x88, 0xD6, 0x34, 0x6A,
        0x2B, 0x75, 0x97, 0xC9, 0x4A, 0x14, 0xF6, 0xA8)
    case _ => Pick(k, 0x74, 0x2A, 0xC8, 0x96, 0x15, 0x4B, 0xA9, 0xF7,
        0xB6, 0xE8, 0x0A, 0x54, 0xD7, 0x89, 0x6B, 0x35)
  }

  lemma FirstEight(i: bv8)
    requires i <= 0x07
    ensures Entry(i) == EightSteps(i)
  {
    if i == 0 {
    } else if i == 1 {
    } else if i == 2 {
    } else if i == 3 {
    } else if i == 4 {
    } else if i == 5 {
    } else if i == 6 {
    } else {
      assert i == 7;
    }
  }

  lemma NextEight(i: bv8)
    requires 0x08 <= i <= 0x0F
    ensures Entry(i) == EightSteps(i)
  {
    if i == 8 {
    } else if i == 9 {
    } else if i == 10 {
    } else if i == 11 {
    } else if i == 12 {
    } else if i == 13 {
    } else if i == 14 {
    } else {
      assert i == 15;
    }
  }

  lemma FirstEntries(i: bv8)
    requires i <= 0x0F
    ensures Entry(i) == EightSteps(i)
  {
    hide Entry, EightSteps;
    if i <= 0x07 {
      FirstEight(i);
    } else {
      NextEight(i);
    }
  }

  lemma Entries0(i: bv8)
    requires 0x10 <= i <= 0x3F
    ensures Entry(i) == EightSteps(i)
  {
  }

  lemma Entries1(i: bv8)
    requires 0x40 <= i <= 0x7F
    ensures Entry(i) == EightSteps(i)
  {
  }

  lemma Entries2(i: bv8)
    requires 0x80 <= i <= 0xBF
    ensures Entry(i) == EightSteps(i)
  {
  }

  lemma Entries3(i: bv8)
    requires 0xC0 <= i <= 0xFF
    ensures Entry(i) == EightSteps(i)
  {
  }

  lemma {:induction false} TableIsBitwise(i: bv8)
    ensures Entry(i) == EightSteps(i)
  {
    hide Entry, EightSteps;
    if i < 0x10 {
      FirstEntries(i);
    } else if i < 0x40 {
      Entries0(i);
    } else if i < 0x80 {
      Entries1(i);
    } else if i < 0xC0 {
      Entries2(i);
    } else {
      Entries3(i);
    }
  }

  /** The loop: the length is an 8-bit number. */
  method Crc(data: seq<bv8>, length: nat) returns (crc: bv8)
    requires length <= |data| && length < 0x100
    ensures crc == Bitwise(0, data[..length])
  {
    crc := 0;
    var i, left := 0, length;
    while left != 0
      invariant i + left == length
      invariant Bitwise(crc, data[i..length]) == Bitwise(0, data[..length])
    {
      left := left - 1;
      crc := CrcStep(data[i..length], crc);
      assert data[i..length][1..] == data[i + 1..length];
      i := i + 1;
    }
    assert data[i..length] == [];
  }

  /** The loop body: one table step. */
  method CrcStep(rest: seq<bv8>, crc: bv8) returns (next: bv8)
    requires rest != []
    ensures Bitwise(next, rest[1..]) == Bitwise(crc, rest)
  {
    hide Entry, EightSteps;
    next := Entry(crc ^ rest[0]);
    TableIsBitwise(crc ^ rest[0]);
  }
}
