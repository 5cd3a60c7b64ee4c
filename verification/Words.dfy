/** 64-bit machine words: the reversible operations that MurmurHash3 is made of
    (src/block/murmur3.rs), each with the operation that undoes it, and little-endian reads. */
module Words {

  type Byte = bv8
  type Word = bv64

  // Multiplication by an odd constant is undone by multiplication by its inverse modulo 2^64.

  function MulC1(x: Word): Word { x * 0x87c3_7b91_1142_53d5 }
  function UnMulC1(x: Word): Word { x * 0xa984_09e8_82ce_4d7d }
  function MulC2(x: Word): Word { x * 0x4cf5_ad43_2745_937f }
  function UnMulC2(x: Word): Word { x * 0xa81e_14ed_d9de_2c7f }
  function MulF1(x: Word): Word { x * 0xff51_afd7_ed55_8ccd }
  function UnMulF1(x: Word): Word { x * 0x4f74_430c_22a5_4005 }
  function MulF2(x: Word): Word { x * 0xc4ce_b9fe_1a85_ec53 }
  function UnMulF2(x: Word): Word { x * 0x9cb4_b2f8_1293_37db }
  function Mul5(x: Word): Word { x * 5 }
  function UnMul5(x: Word): Word { x * 0xcccc_cccc_cccc_cccd }

  function Rotl27(x: Word): Word { x.RotateLeft(27) }
  function Rotr27(x: Word): Word { x.RotateRight(27) }
  function Rotl31(x: Word): Word { x.RotateLeft(31) }
  function Rotr31(x: Word): Word { x.RotateRight(31) }
  function Rotl33(x: Word): Word { x.RotateLeft(33) }
  function Rotr33(x: Word): Word { x.RotateRight(33) }

  /** `x ^ (x >> 33)`, which undoes itself. */
  function Shift33(x: Word): Word { x >> 33 }

  function XorShift(x: Word): Word { Xor(x, Shift33(x)) }

  function Plus(x: Word, y: Word): Word { x + y }
  function Minus(x: Word, y: Word): Word { x - y }
  function Xor(x: Word, y: Word): Word { x ^ y }

  lemma MulC1Undone(x: Word)
    ensures UnMulC1(MulC1(x)) == x
  {
    calc {
      UnMulC1(MulC1(x));
      { assert MulC1(x) == x * 0x87c3_7b91_1142_53d5; }
      UnMulC1(x * 0x87c3_7b91_1142_53d5);
      (x * 0x87c3_7b91_1142_53d5) * 0xa984_09e8_82ce_4d7d;
      x;
    }
  }

  lemma MulC2Undone(x: Word)
    ensures UnMulC2(MulC2(x)) == x
  {
    calc {
      UnMulC2(MulC2(x));
      { assert MulC2(x) == x * 0x4cf5_ad43_2745_937f; }
      UnMulC2(x * 0x4cf5_ad43_2745_937f);
      (x * 0x4cf5_ad43_2745_937f) * 0xa81e_14ed_d9de_2c7f;
      x;
    }
  }

  lemma MulF1Undone(x: Word)
    ensures UnMulF1(MulF1(x)) == x
  {
    calc {
      UnMulF1(MulF1(x));
      { assert MulF1(x) == x * 0xff51_afd7_ed55_8ccd; }
      UnMulF1(x * 0xff51_afd7_ed55_8ccd);
      (x * 0xff51_afd7_ed55_8ccd) * 0x4f74_430c_22a5_4005;
      x;
    }
  }

  lemma MulF2Undone(x: Word)
    ensures UnMulF2(MulF2(x)) == x
  {
    calc {
      UnMulF2(MulF2(x));
      { assert MulF2(x) == x * 0xc4ce_b9fe_1a85_ec53; }
      UnMulF2(x * 0xc4ce_b9fe_1a85_ec53);
      (x * 0xc4ce_b9fe_1a85_ec53) * 0x9cb4_b2f8_1293_37db;
      x;
    }
  }

  lemma Mul5Undone(x: Word)
    ensures UnMul5(Mul5(x)) == x
  {
    calc {
      UnMul5(Mul5(x));
      { assert Mul5(x) == x * 5; }
      UnMul5(x * 5);
      (x * 5) * 0xcccc_cccc_cccc_cccd;
      x;
    }
  }

  lemma RotationsUndone(x: Word)
    ensures Rotr27(Rotl27(x)) == x && Rotr31(Rotl31(x)) == x && Rotr33(Rotl33(x)) == x
  {
  }

  lemma ShiftOfXor(x: Word, y: Word)
    ensures Shift33(Xor(x, y)) == Xor(Shift33(x), Shift33(y))
  {
    calc {
      Shift33(Xor(x, y));
      { assert Xor(x, y) == x ^ y; }
      Shift33(x ^ y);
      (x ^ y) >> 33;
      (x >> 33) ^ (y >> 33);
      Xor(x >> 33, y >> 33);
    }
  }

  lemma ShiftedTwice(x: Word)
    ensures Shift33(Shift33(x)) == 0
  {
    calc {
      Shift33(Shift33(x));
      { assert Shift33(x) == x >> 33; }
      Shift33(x >> 33);
      (x >> 33) >> 33;
      0;
    }
  }

  lemma XorTwice(x: Word, y: Word)
    ensures Xor(Xor(x, y), Xor(y, 0)) == x
  {
  }

  lemma XorShiftUndone(x: Word)
    ensures XorShift(XorShift(x)) == x
  {
    hide Xor, Shift33;
    ShiftOfXor(x, Shift33(x));
    ShiftedTwice(x);
    XorTwice(x, Shift33(x));
  }

  lemma PlusUndone(x: Word, y: Word)
    ensures Minus(Plus(x, y), y) == x
  {
    calc {
      Minus(Plus(x, y), y);
      { assert Plus(x, y) == x + y; }
      Minus(x + y, y);
      (x + y) - y;
      x;
    }
  }

  lemma XorUndone(x: Word, y: Word)
    ensures Xor(Xor(x, y), y) == x && Xor(x, Xor(x, y)) == y
  {
  }

  // ----- Bytes -----

  function Wide(b: Byte): Word { b as Word }

  /** `u64::from_le_bytes`. */
  function ReadLE(b: seq<Byte>): Word
    requires |b| == 8
  {
    Wide(b[0]) | (Wide(b[1]) << 8) | (Wide(b[2]) << 16) | (Wide(b[3]) << 24)
    | (Wide(b[4]) << 32) | (Wide(b[5]) << 40) | (Wide(b[6]) << 48) | (Wide(b[7]) << 56)
  }

  /** The low byte of a word. */
  function Low(x: Word): Byte { (x & 0xff) as Byte }

  /** `u64::to_le_bytes`. */
  function WriteLE(x: Word): (b: seq<Byte>)
    ensures |b| == 8
  {
    [Low(x), Low(x >> 8), Low(x >> 16), Low(x >> 24), Low(x >> 32), Low(x >> 40), Low(x >> 48), Low(x >> 56)]
  }

  lemma WriteThenRead(x: Word)
    ensures ReadLE(WriteLE(x)) == x
  {
  }

  lemma ReadThenWrite(b: seq<Byte>)
    requires |b| == 8
    ensures WriteLE(ReadLE(b)) == b
  {
  }
}
