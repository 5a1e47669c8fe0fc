/** Crc32 as section 8 of RFC 1952 defines it (Utils/CrcUtils.cpp): the table-driven loop against the reflected
    register. */
module Crc32 {

  /** One step of the reflected register. */
  function BitStep(c: bv32): bv32 {
    if c & 1 == 0 then c >> 1 else (c >> 1) ^ 0xEDB88320
  }

  function Xor(a: bv32, b: bv32): bv32 {
    a ^ b
  }

  function EightSteps(c: bv32): bv32 {
    BitStep(BitStep(BitStep(BitStep(BitStep(BitStep(BitStep(BitStep(c))))))))
  }

  /** One byte through the register. */
  function ByteStep(c: bv32, b: bv8): bv32 {
    EightSteps(Xor(c, b as bv32))
  }

  /** The bytes through the register, first to last. */
  function Bitwise(start: bv32, data: seq<bv8>): bv32
    decreases |data|
  {
    if data == [] then start else Bitwise(ByteStep(start, data[0]), data[1..])
  }

  // ---------- the table ----------

  function Pick(k: bv8,
      v0: bv32, v1: bv32, v2: bv32, v3: bv32, v4: bv32, v5: bv32, v6: bv32, v7: bv32,
      v8: bv32, v9: bv32, vA: bv32, vB: bv32, vC: bv32, vD: bv32, vE: bv32, vF: bv32): bv32
  {
    if k == 0 then v0 else if k == 1 then v1 else if k == 2 then v2 else if k == 3 then v3 else if k == 4 then v4
    else if k == 5 then v5 else if k == 6 then v6 else if k == 7 then v7 else if k == 8 then v8 else if k == 9 then v9
    else if k == 10 then vA else if k == 11 then vB else if k == 12 then vC
    else if k == 13 then vD else if k == 14 then vE else vF
  }

  /** The constant table: one line for each value of the high half of the index. */
  function Entry(i: bv8): bv32 {
    var k := i & 0x0F;
    match i >> 4
    case 0 => Pick(k, 0x00000000, 0x77073096, 0xEE0E612C, 0x990951BA, 0x076DC419, 0x706AF48F, 0xE963A535, 0x9E6495A3,
        0x0EDB8832, 0x79DCB8A4, 0xE0D5E91E, 0x97D2D988, 0x09B64C2B, 0x7EB17CBD, 0xE7B82D07, 0x90BF1D91)
    case 1 => Pick(k, 0x1DB71064, 0x6AB020F2, 0xF3B97148, 0x84BE41DE, 0x1ADAD47D, 0x6DDDE4EB, 0xF4D4B551, 0x83D385C7,
        0x136C9856, 0x646BA8C0, 0xFD62F97A, 0x8A65C9EC, 0x14015C4F, 0x63066CD9, 0xFA0F3D63, 0x8D080DF5)
    case 2 => Pick(k, 0x3B6E20C8, 0x4C69105E, 0xD56041E4, 0xA2677172, 0x3C03E4D1, 0x4B04D447, 0xD20D85FD, 0xA50AB56B,
        0x35B5A8FA, 0x42B2986C, 0xDBBBC9D6, 0xACBCF940, 0x32D86CE3, 0x45DF5C75, 0xDCD60DCF, 0xABD13D59)
    case 3 => Pick(k, 0x26D930AC, 0x51DE003A, 0xC8D75180, 0xBFD06116, 0x21B4F4B5, 0x56B3C423, 0xCFBA9599, 0xB8BDA50F,
        0x2802B89E, 0x5F058808, 0xC60CD9B2, 0xB10BE924, 0x2F6F7C87, 0x58684C11, 0xC1611DAB, 0xB6662D3D)
    case 4 => Pick(k, 0x76DC4190, 0x01DB7106, 0x98D220BC, 0xEFD5102A, 0x71B18589, 0x06B6B51F, 0x9FBFE4A5, 0xE8B8D433,
        0x7807C9A2, 0x0F00F934, 0x9609A88E, 0xE10E9818, 0x7F6A0DBB, 0x086D3D2D, 0x91646C97, 0xE6635C01)
    case 5 => Pick(k, 0x6B6B51F4, 0x1C6C6162, 0x856530D8, 0xF262004E, 0x6C0695ED, 0x1B01A57B, 0x8208F4C1, 0xF50FC457,
        0x65B0D9C6, 0x12B7E950, 0x8BBEB8EA, 0xFCB9887C, 0x62DD1DDF, 0x15DA2D49, 0x8CD37CF3, 0xFBD44C65)
    case 6 => Pick(k, 0x4DB26158, 0x3AB551CE, 0xA3BC0074, 0xD4BB30E2, 0x4ADFA541, 0x3DD895D7, 0xA4D1C46D, 0xD3D6F4FB,
        0x4369E96A, 0x346ED9FC, 0xAD678846, 0xDA60B8D0, 0x44042D73, 0x33031DE5, 0xAA0A4C5F, 0xDD0D7CC9)
    case 7 => Pick(k, 0x5005713C, 0x270241AA, 0xBE0B1010, 0xC90C2086, 0x5768B525, 0x206F85B3, 0xB966D409, 0xCE61E49F,
        0x5EDEF90E, 0x29D9C998, 0xB0D09822, 0xC7D7A8B4, 0x59B33D17, 0x2EB40D81, 0xB7BD5C3B, 0xC0BA6CAD)
    case 8 => Pick(k, 0xEDB88320, 0x9ABFB3B6, 0x03B6E20C, 0x74B1D29A, 0xEAD54739, 0x9DD277AF, 0x04DB2615, 0x73DC1683,
        0xE3630B12, 0x94643B84, 0x0D6D6A3E, 0x7A6A5AA8, 0xE40ECF0B, 0x9309FF9D, 0x0A00AE27, 0x7D079EB1)
    case 9 => Pick(k, 0xF00F9344, 0x8708A3D2, 0x1E01F268, 0x6906C2FE, 0xF762575D, 0x806567CB, 0x196C3671, 0x6E6B06E7,
        0xFED41B76, 0x89D32BE0, 0x10DA7A5A, 0x67DD4ACC, 0xF9B9DF6F, 0x8EBEEFF9, 0x17B7BE43, 0x60B08ED5)
    case 10 => Pick(k, 0xD6D6A3E8, 0xA1D1937E, 0x38D8C2C4, 0x4FDFF252, 0xD1BB67F1, 0xA6BC5767, 0x3FB506DD, 0x48B2364B,
        0xD80D2BDA, 0xAF0A1B4C, 0x36034AF6, 0x41047A60, 0xDF60EFC3, 0xA867DF55, 0x316E8EEF, 0x4669BE79)
    case 11 => Pick(k, 0xCB61B38C, 0xBC66831A, 0x256FD2A0, 0x5268E236, 0xCC0C7795, 0xBB0B4703, 0x220216B9, 0x5505262F,
        0xC5BA3BBE, 0xB2BD0B28, 0x2BB45A92, 0x5CB36A04, 0xC2D7FFA7, 0xB5D0CF31, 0x2CD99E8B, 0x5BDEAE1D)
    case 12 => Pick(k, 0x9B64C2B0, 0xEC63F226, 0x756AA39C, 0x026D930A, 0x9C0906A9, 0xEB0E363F, 0x72076785, 0x05005713,
        0x95BF4A82, 0xE2B87A14, 0x7BB12BAE, 0x0CB61B38, 0x92D28E9B, 0xE5D5BE0D, 0x7CDCEFB7, 0x0BDBDF21)
    case 13 => Pick(k, 0x86D3D2D4, 0xF1D4E242, 0x68DDB3F8, 0x1FDA836E, 0x81BE16CD, 0xF6B9265B, 0x6FB077E1, 0x18B74777,
        0x88085AE6, 0xFF0F6A70, 0x66063BCA, 0x11010B5C, 0x8F659EFF, 0xF862AE69, 0x616BFFD3, 0x166CCF45)
    case 14 => Pick(k, 0xA00AE278, 0xD70DD2EE, 0x4E048354, 0x3903B3C2, 0xA7672661, 0xD06016F7, 0x4969474D, 0x3E6E77DB,
        0xAED16A4A, 0xD9D65ADC, 0x40DF0B66, 0x37D83BF0, 0xA9BCAE53, 0xDEBB9EC5, 0x47B2CF7F, 0x30B5FFE9)
    case _ => Pick(k, 0xBDBDF21C, 0xCABAC28A, 0x53B39330, 0x24B4A3A6, 0xBAD03605, 0xCDD70693, 0x54DE5729, 0x23D967BF,
        0xB3667A2E, 0xC4614AB8, 0x5D681B02, 0x2A6F2B94, 0xB40BBE37, 0xC30C8EA1, 0x5A05DF1B, 0x2D02EF8D)
  }

  lemma Entries0(i: bv8)
    requires i < 0x10
    ensures Entry(i) == EightSteps(i as bv32)
  {
    if i < 0x08 {
    } else {
    }
  }

  lemma Entries1(i: bv8)
    requires 0x10 <= i <= 0x4F
    ensures Entry(i) == EightSteps(i as bv32)
  {
    if i >> 4 == 1 {
    } else if i >> 4 == 2 {
    } else if i >> 4 == 3 {
    } else {
      assert i >> 4 == 4;
    }
  }

  lemma Entries2(i: bv8)
    requires 0x50 <= i <= 0x8F
    ensures Entry(i) == EightSteps(i as bv32)
  {
    if i >> 4 == 5 {
    } else if i >> 4 == 6 {
    } else if i >> 4 == 7 {
    } else {
      assert i >> 4 == 8;
    }
  }

  lemma Entries3(i: bv8)
    requires 0x90 <= i <= 0xCF
    ensures Entry(i) == EightSteps(i as bv32)
  {
    if i >> 4 == 9 {
    } else if i >> 4 == 10 {
    } else if i >> 4 == 11 {
    } else {
      assert i >> 4 == 12;
    }
  }

  lemma Entries4(i: bv8)
    requires 0xD0 <= i <= 0xFF
    ensures Entry(i) == EightSteps(i as bv32)
  {
    if i >> 4 == 13 {
    } else if i >> 4 == 14 {
    } else {
      assert i >> 4 == 15;
    }
  }

  /** Every entry of the table is eight bit steps of its index. */
  lemma {:induction false} TableIsBitwise(i: bv8)
    ensures Entry(i) == EightSteps(i as bv32)
  {
    if i < 0x10 {
      Entries0(i);
    } else if i < 0x50 {
      Entries1(i);
    } else if i < 0x90 {
      Entries2(i);
    } else if i < 0xD0 {
      Entries3(i);
    } else {
      Entries4(i);
    }
  }

  // ---------- the register ----------

  lemma BothEven(a: bv32, b: bv32)
    requires a & 1 == 0 && b & 1 == 0
    ensures BitStep(a ^ b) == BitStep(a) ^ BitStep(b)
  {
  }

  lemma OddEven(a: bv32, b: bv32)
    requires a & 1 != 0 && b & 1 == 0
    ensures BitStep(a ^ b) == BitStep(a) ^ BitStep(b)
  {
  }

  lemma BothOdd(a: bv32, b: bv32)
    requires a & 1 != 0 && b & 1 != 0
    ensures BitStep(a ^ b) == BitStep(a) ^ BitStep(b)
  {
  }

  lemma BitStepLinear(a: bv32, b: bv32)
    ensures BitStep(Xor(a, b)) == Xor(BitStep(a), BitStep(b))
  {
    hide BitStep;
    if a & 1 == 0 {
      if b & 1 == 0 {
        BothEven(a, b);
      } else {
        OddEven(b, a);
      }
    } else if b & 1 == 0 {
      OddEven(a, b);
    } else {
      BothOdd(a, b);
    }
  }

  /** The register is linear over exclusive or. */
  lemma EightStepsLinear(a: bv32, b: bv32)
    ensures EightSteps(Xor(a, b)) == Xor(EightSteps(a), EightSteps(b))
  {
    hide BitStep, Xor;
    BitStepLinear(a, b);
    BitStepLinear(BitStep(a), BitStep(b));
    BitStepLinear(BitStep(BitStep(a)), BitStep(BitStep(b)));
    BitStepLinear(BitStep(BitStep(BitStep(a))), BitStep(BitStep(BitStep(b))));
    BitStepLinear(BitStep(BitStep(BitStep(BitStep(a)))), BitStep(BitStep(BitStep(BitStep(b)))));
    BitStepLinear(BitStep(BitStep(BitStep(BitStep(BitStep(a))))), BitStep(BitStep(BitStep(BitStep(BitStep(b))))));
    BitStepLinear(BitStep(BitStep(BitStep(BitStep(BitStep(BitStep(a)))))),
                  BitStep(BitStep(BitStep(BitStep(BitStep(BitStep(b)))))));
    BitStepLinear(BitStep(BitStep(BitStep(BitStep(BitStep(BitStep(BitStep(a))))))),
                  BitStep(BitStep(BitStep(BitStep(BitStep(BitStep(BitStep(b))))))));
  }

  lemma PlainShift(c: bv32)
    requires c & 1 == 0
    ensures BitStep(c) == c >> 1
  {
  }

  lemma ShiftsAddUp(c: bv32, c1: bv32, c2: bv32, c3: bv32, c4: bv32, c5: bv32, c6: bv32, c7: bv32)
    requires c & 0xFF == 0 && c1 == c >> 1 && c2 == c1 >> 1 && c3 == c2 >> 1 && c4 == c3 >> 1
    requires c5 == c4 >> 1 && c6 == c5 >> 1 && c7 == c6 >> 1
    ensures c & 1 == 0 && c1 & 1 == 0 && c2 & 1 == 0 && c3 & 1 == 0
    ensures c4 & 1 == 0 && c5 & 1 == 0 && c6 & 1 == 0 && c7 & 1 == 0 && c7 >> 1 == c >> 8
  {
  }

  /** The three high bytes are only shifted: nothing of them reaches the bottom bit in time. */
  lemma HighBytesShift(c: bv32)
    requires c & 0xFF == 0
    ensures EightSteps(c) == c >> 8
  {
    hide BitStep;
    var c1 := c >> 1;
    var c2 := c1 >> 1;
    var c3 := c2 >> 1;
    var c4 := c3 >> 1;
    var c5 := c4 >> 1;
    var c6 := c5 >> 1;
    var c7 := c6 >> 1;
    ShiftsAddUp(c, c1, c2, c3, c4, c5, c6, c7);
    PlainShift(c);
    PlainShift(c1);
    PlainShift(c2);
    PlainShift(c3);
    PlainShift(c4);
    PlainShift(c5);
    PlainShift(c6);
    PlainShift(c7);
  }

  // ---------- one table step is one byte through the register ----------

  function TableIndex(c: bv32, b: bv8): bv8 {
    ((c ^ (b as bv32)) & 0xFF) as bv8
  }

  function TableStep(c: bv32, b: bv8): bv32 {
    Xor(c >> 8, Entry(TableIndex(c, b)))
  }

  lemma Parts(c: bv32, b: bv8)
    ensures Xor(c, b as bv32) == Xor(c & 0xFFFF_FF00, TableIndex(c, b) as bv32)
    ensures (c & 0xFFFF_FF00) & 0xFF == 0 && (c & 0xFFFF_FF00) >> 8 == c >> 8
  {
  }

  lemma TableStepIsByteStep(c: bv32, b: bv8)
    ensures TableStep(c, b) == ByteStep(c, b)
  {
    hide BitStep, EightSteps, Entry, Xor, TableIndex;
    var i := TableIndex(c, b);
    Parts(c, b);
    EightStepsLinear(c & 0xFFFF_FF00, i as bv32);
    HighBytesShift(c & 0xFFFF_FF00);
    TableIsBitwise(i);
  }

  /** The same in the words of the code. */
  lemma LoopBodyIsByteStep(c: bv32, b: bv8)
    ensures (c >> 8) ^ Entry(((c ^ (b as bv32)) & 0xFF) as bv8) == ByteStep(c, b)
  {
    hide Entry, ByteStep;
    TableStepIsByteStep(c, b);
  }

  // ---------- the loop ----------

  /** Starts from all ones and complements the result. */
  method Crc(data: seq<bv8>, length: nat) returns (crc: bv32)
    requires length <= |data| && length < 0x1_0000_0000
    ensures crc == Bitwise(0xFFFF_FFFF, data[..length]) ^ 0xFFFF_FFFF
  {
    hide Entry, ByteStep, BitStep;
    var crc32: bv32 := 0xFFFF_FFFF;
    for i := 0 to length
      invariant crc32 == Bitwise(0xFFFF_FFFF, data[..i])
    {
      var b := data[i];
      LoopBodyIsByteStep(crc32, b);
      BitwiseSnoc(0xFFFF_FFFF, data[..i], b);
      assert data[..i] + [b] == data[..i + 1];
      crc32 := (crc32 >> 8) ^ Entry(((crc32 ^ (b as bv32)) & 0xFF) as bv8);
    }
    crc := crc32 ^ 0xFFFF_FFFF;
  }

  /** Feeding a concatenation is feeding its parts one after the other. */
  lemma {:induction false} BitwiseAppend(start: bv32, left: seq<bv8>, right: seq<bv8>)
    ensures Bitwise(start, left + right) == Bitwise(Bitwise(start, left), right)
    decreases |left|
  {
    hide ByteStep;
    if left == [] {
      assert left + right == right;
    } else {
      assert (left + right)[1..] == left[1..] + right;
      BitwiseAppend(ByteStep(start, left[0]), left[1..], right);
    }
  }

  lemma BitwiseSnoc(start: bv32, data: seq<bv8>, b: bv8)
    ensures Bitwise(start, data + [b]) == ByteStep(Bitwise(start, data), b)
  {
    hide ByteStep;
    BitwiseAppend(start, data, [b]);
    var c := Bitwise(start, data);
    assert [b][1..] == [];
    assert Bitwise(c, [b]) == Bitwise(ByteStep(c, b), []);
  }
}
