/** MurmurHash3_x64_128 (src/block/murmur3.rs): the hand-unrolled loop and tail of the source
    against a plain pad-and-mix definition, and what the 128-bit digest can tell apart. */
module Murmur3 {
  import opened Words

  datatype Hash = Hash(h1: Word, h2: Word)
  datatype Keys = Keys(k1: Word, k2: Word)

  // ----- The definition -----

  function Mix1(k: Word): Word { MulC2(Rotl31(MulC1(k))) }
  function Mix2(k: Word): Word { MulC1(Rotl33(MulC2(k))) }

  /** One 16-byte block. */
  function Block(h: Hash, k: Keys): Hash {
    var h1 := Plus(Mul5(Plus(Rotl27(Xor(h.h1, Mix1(k.k1))), h.h2)), 0x52dc_e729);
    var h2 := Plus(Mul5(Plus(Rotl31(Xor(h.h2, Mix2(k.k2))), h1)), 0x3849_5ab5);
    Hash(h1, h2)
  }

  /** The last, incomplete block. */
  function Absorb(h: Hash, k: Keys): Hash {
    Hash(Xor(h.h1, Mix1(k.k1)), Xor(h.h2, Mix2(k.k2)))
  }

  function Fmix(k: Word): Word {
    XorShift(MulF2(XorShift(MulF1(XorShift(k)))))
  }

  function Finalize(h: Hash, len: Word): Hash {
    var a1 := Xor(h.h1, len);
    var a2 := Xor(h.h2, len);
    var b1 := Plus(a1, a2);
    var b2 := Plus(a2, b1);
    var c1 := Fmix(b1);
    var c2 := Fmix(b2);
    var d1 := Plus(c1, c2);
    Hash(d1, Plus(c2, d1))
  }

  /** A block of 16 bytes as two little-endian words. */
  function KeysOf(b: seq<Byte>): Keys
    requires |b| == 16
  {
    Keys(ReadLE(b[..8]), ReadLE(b[8..]))
  }

  function BlockAt(data: seq<Byte>, i: nat): (b: seq<Byte>)
    requires 16 * i + 16 <= |data|
    ensures |b| == 16
  {
    data[16 * i..16 * i + 16]
  }

  /** The state after the first `n` blocks. */
  function Body(data: seq<Byte>, n: nat, h: Hash): Hash
    requires 16 * n <= |data|
  {
    if n == 0 then h else Block(Body(data, n - 1, h), KeysOf(BlockAt(data, n - 1)))
  }

  function TailOf(data: seq<Byte>): (t: seq<Byte>)
    ensures |t| < 16
  {
    data[|data| / 16 * 16..]
  }

  /** The tail, filled up with zeros. */
  function Padded(tail: seq<Byte>): (b: seq<Byte>)
    requires |tail| < 16
    ensures |b| == 16 && tail <= b
    ensures forall j :: |tail| <= j < 16 ==> b[j] == 0
  {
    tail + seq(16 - |tail|, _ => 0)
  }

  function Length(data: seq<Byte>): Word
    requires |data| < 0x1_0000_0000_0000_0000
  {
    |data| as Word
  }

  function Seeded(seed: bv32): Hash {
    Hash(seed as Word, seed as Word)
  }

  /** The whole digest: all blocks, the zero-padded tail, the finalizer. */
  function Digest(data: seq<Byte>, seed: bv32): Hash
    requires |data| < 0x1_0000_0000_0000_0000
  {
    Finalize(Absorb(Body(data, |data| / 16, Seeded(seed)), KeysOf(Padded(TailOf(data)))), Length(data))
  }

  // ----- The source's code -----

  lemma MixZero()
    ensures Mix1(0) == 0 && Mix2(0) == 0
  {
  }

  /** The unrolled second half of the tail: bytes 8 to 14. */
  method TailSecond(tail: seq<Byte>) returns (k2: Word)
    requires 9 <= |tail| < 16
    ensures k2 == KeysOf(Padded(tail)).k2
  {
    var n := |tail|;
    k2 := 0;
    if n >= 15 { k2 := k2 ^ (Wide(tail[14]) << 48); }
    if n >= 14 { k2 := k2 ^ (Wide(tail[13]) << 40); }
    if n >= 13 { k2 := k2 ^ (Wide(tail[12]) << 32); }
    if n >= 12 { k2 := k2 ^ (Wide(tail[11]) << 24); }
    if n >= 11 { k2 := k2 ^ (Wide(tail[10]) << 16); }
    if n >= 10 { k2 := k2 ^ (Wide(tail[9]) << 8); }
    k2 := k2 ^ Wide(tail[8]);
  }

  /** The unrolled first half of the tail: bytes 0 to 7. */
  method TailFirst(tail: seq<Byte>) returns (k1: Word)
    requires 1 <= |tail| < 16
    ensures k1 == KeysOf(Padded(tail)).k1
  {
    var n := |tail|;
    k1 := 0;
    if n >= 8 { k1 := k1 ^ (Wide(tail[7]) << 56); }
    if n >= 7 { k1 := k1 ^ (Wide(tail[6]) << 48); }
    if n >= 6 { k1 := k1 ^ (Wide(tail[5]) << 40); }
    if n >= 5 { k1 := k1 ^ (Wide(tail[4]) << 32); }
    if n >= 4 { k1 := k1 ^ (Wide(tail[3]) << 24); }
    if n >= 3 { k1 := k1 ^ (Wide(tail[2]) << 16); }
    if n >= 2 { k1 := k1 ^ (Wide(tail[1]) << 8); }
    k1 := k1 ^ Wide(tail[0]);
  }

  /** Short tails leave one or both words zero. */
  lemma ShortTail(tail: seq<Byte>)
    requires |tail| < 16
    ensures |tail| < 9 ==> KeysOf(Padded(tail)).k2 == 0
    ensures |tail| < 1 ==> KeysOf(Padded(tail)).k1 == 0
  {
  }

  lemma XorZero(x: Word)
    ensures Xor(x, 0) == x
  {
  }

  method FmixInPlace(x: Word) returns (k: Word)
    ensures k == Fmix(x)
  {
    hide XorShift, MulF1, MulF2;
    k := x;
    k := XorShift(k);
    k := MulF1(k);
    k := XorShift(k);
    k := MulF2(k);
    k := XorShift(k);
  }

  /** The tail switch of the source: the second word is mixed in only if the tail reaches it. */
  method AbsorbTail(g1: Word, g2: Word, tail: seq<Byte>) returns (h1: Word, h2: Word)
    requires |tail| < 16
    ensures Hash(h1, h2) == Absorb(Hash(g1, g2), KeysOf(Padded(tail)))
  {
    hide MulC1, MulC2, Rotl31, Rotl33, Xor, KeysOf, Padded;
    h1, h2 := g1, g2;
    ShortTail(tail);
    MixZero();
    XorZero(h1);
    XorZero(h2);
    if |tail| >= 9 {
      var k2 := TailSecond(tail);
      k2 := MulC2(k2);
      k2 := Rotl33(k2);
      k2 := MulC1(k2);
      h2 := Xor(h2, k2);
    }
    if |tail| >= 1 {
      var k1 := TailFirst(tail);
      k1 := MulC1(k1);
      k1 := Rotl31(k1);
      k1 := MulC2(k1);
      h1 := Xor(h1, k1);
    }
  }

  /** `murmurhash3_x64_128`. */
  method Murmurhash3(data: seq<Byte>, seed: bv32) returns (h1: Word, h2: Word)
    requires |data| < 0x1_0000_0000_0000_0000
    ensures Hash(h1, h2) == Digest(data, seed)
  {
    hide MulC1, MulC2, Mul5, Rotl27, Rotl31, Rotl33, Xor, Plus, ReadLE, Fmix, Padded, Length;
    var nblocks := |data| / 16;
    h1, h2 := seed as Word, seed as Word;
    for i := 0 to nblocks
      invariant Hash(h1, h2) == Body(data, i, Seeded(seed))
    {
      var off := 16 * i;
      var block := BlockAt(data, i);
      assert block[..8] == data[off..off + 8] && block[8..] == data[off + 8..off + 16];
      var k1 := ReadLE(data[off..off + 8]);
      var k2 := ReadLE(data[off + 8..off + 16]);

      k1 := MulC1(k1);
      k1 := Rotl31(k1);
      k1 := MulC2(k1);
      h1 := Xor(h1, k1);
      h1 := Rotl27(h1);
      h1 := Plus(h1, h2);
      h1 := Plus(Mul5(h1), 0x52dc_e729);

      k2 := MulC2(k2);
      k2 := Rotl33(k2);
      k2 := MulC1(k2);
      h2 := Xor(h2, k2);
      h2 := Rotl31(h2);
      h2 := Plus(h2, h1);
      h2 := Plus(Mul5(h2), 0x3849_5ab5);
    }
    h1, h2 := AbsorbTail(h1, h2, data[nblocks * 16..]);
    var len := Length(data);
    h1 := Xor(h1, len);
    h2 := Xor(h2, len);
    h1 := Plus(h1, h2);
    h2 := Plus(h2, h1);
    h1 := FmixInPlace(h1);
    h2 := FmixInPlace(h2);
    h1 := Plus(h1, h2);
    h2 := Plus(h2, h1);
  }

  // ----- Every step can be undone -----

  function UnMix1(k: Word): Word { UnMulC1(Rotr31(UnMulC2(k))) }
  function UnMix2(k: Word): Word { UnMulC2(Rotr33(UnMulC1(k))) }

  lemma MixUndone(k: Word)
    ensures UnMix1(Mix1(k)) == k && UnMix2(Mix2(k)) == k
  {
    hide MulC1, MulC2, UnMulC1, UnMulC2, Rotl31, Rotr31, Rotl33, Rotr33;
    MulC1Undone(k);
    RotationsUndone(MulC1(k));
    MulC2Undone(Rotl31(MulC1(k)));
    MulC2Undone(k);
    RotationsUndone(MulC2(k));
    MulC1Undone(Rotl33(MulC2(k)));
  }

  function UnFmix(k: Word): Word {
    XorShift(UnMulF1(XorShift(UnMulF2(XorShift(k)))))
  }

  lemma FmixUndone(k: Word)
    ensures UnFmix(Fmix(k)) == k
  {
    hide XorShift, MulF1, MulF2, UnMulF1, UnMulF2;
    var a := XorShift(k);
    var b := XorShift(MulF1(a));
    XorShiftUndone(k);
    MulF1Undone(a);
    XorShiftUndone(MulF1(a));
    MulF2Undone(b);
    XorShiftUndone(MulF2(b));
  }

  function UnScale(x: Word, c: Word): Word { UnMul5(Minus(x, c)) }

  /** The state before a block, from the state after it and the block. */
  function UnBlock(h: Hash, k: Keys): Hash {
    var h2 := Xor(Rotr31(Minus(UnScale(h.h2, 0x3849_5ab5), h.h1)), Mix2(k.k2));
    var h1 := Xor(Rotr27(Minus(UnScale(h.h1, 0x52dc_e729), h2)), Mix1(k.k1));
    Hash(h1, h2)
  }

  lemma ScaleUndone(x: Word, c: Word)
    ensures UnScale(Plus(Mul5(x), c), c) == x
  {
    hide Mul5, UnMul5, Plus, Minus;
    PlusUndone(Mul5(x), c);
    Mul5Undone(x);
  }

  /** Each block step is a bijection of the state. */
  lemma BlockUndone(h: Hash, k: Keys)
    ensures UnBlock(Block(h, k), k) == h
  {
    hide Mul5, Plus, Minus, Xor, Rotl27, Rotr27, Rotl31, Rotr31, Mix1, Mix2, UnScale;
    var m1, m2 := Mix1(k.k1), Mix2(k.k2);
    var r1 := Rotl27(Xor(h.h1, m1));
    var r2 := Rotl31(Xor(h.h2, m2));
    var g := Block(h, k);
    ScaleUndone(Plus(r2, g.h1), 0x3849_5ab5);
    PlusUndone(r2, g.h1);
    RotationsUndone(Xor(h.h2, m2));
    XorUndone(h.h2, m2);
    ScaleUndone(Plus(r1, h.h2), 0x52dc_e729);
    PlusUndone(r1, h.h2);
    RotationsUndone(Xor(h.h1, m1));
    XorUndone(h.h1, m1);
  }

  /** The block, from the states before and after it. */
  function BlockBetween(h: Hash, g: Hash): Keys {
    var m2 := Xor(h.h2, Rotr31(Minus(UnScale(g.h2, 0x3849_5ab5), g.h1)));
    var m1 := Xor(h.h1, Rotr27(Minus(UnScale(g.h1, 0x52dc_e729), h.h2)));
    Keys(UnMix1(m1), UnMix2(m2))
  }

  /** Each block step is injective in the block. */
  lemma BlockRecovered(h: Hash, k: Keys)
    ensures BlockBetween(h, Block(h, k)) == k
  {
    hide Mul5, Plus, Minus, Xor, Rotl27, Rotr27, Rotl31, Rotr31, Mix1, Mix2, UnMix1, UnMix2, UnScale;
    var m1, m2 := Mix1(k.k1), Mix2(k.k2);
    var r1 := Rotl27(Xor(h.h1, m1));
    var r2 := Rotl31(Xor(h.h2, m2));
    var g := Block(h, k);
    ScaleUndone(Plus(r2, g.h1), 0x3849_5ab5);
    PlusUndone(r2, g.h1);
    RotationsUndone(Xor(h.h2, m2));
    XorUndone(h.h2, m2);
    ScaleUndone(Plus(r1, h.h2), 0x52dc_e729);
    PlusUndone(r1, h.h2);
    RotationsUndone(Xor(h.h1, m1));
    XorUndone(h.h1, m1);
    MixUndone(k.k1);
    MixUndone(k.k2);
  }

  function TailBetween(h: Hash, g: Hash): Keys {
    Keys(UnMix1(Xor(h.h1, g.h1)), UnMix2(Xor(h.h2, g.h2)))
  }

  /** Absorbing the tail is injective in the tail, and a bijection of the state. */
  lemma AbsorbUndone(h: Hash, k: Keys)
    ensures TailBetween(h, Absorb(h, k)) == k
    ensures Absorb(Absorb(h, k), k) == h
  {
    hide Xor, Mix1, Mix2, UnMix1, UnMix2;
    XorUndone(h.h1, Mix1(k.k1));
    XorUndone(h.h2, Mix2(k.k2));
    MixUndone(k.k1);
    MixUndone(k.k2);
  }

  function UnFinalize(g: Hash, len: Word): Hash {
    var c2 := Minus(g.h2, g.h1);
    var c1 := Minus(g.h1, c2);
    var b1 := UnFmix(c1);
    var b2 := UnFmix(c2);
    var a2 := Minus(b2, b1);
    var a1 := Minus(b1, a2);
    Hash(Xor(a1, len), Xor(a2, len))
  }

  /** The finalizer is a bijection of the state. */
  lemma FinalizeUndone(h: Hash, len: Word)
    ensures UnFinalize(Finalize(h, len), len) == h
  {
    hide Xor, Plus, Minus, Fmix, UnFmix;
    var a1, a2 := Xor(h.h1, len), Xor(h.h2, len);
    var b1 := Plus(a1, a2);
    var b2 := Plus(a2, b1);
    var c1, c2 := Fmix(b1), Fmix(b2);
    PlusUndone(c2, Plus(c1, c2));
    PlusUndone(c1, c2);
    FmixUndone(b1);
    FmixUndone(b2);
    PlusUndone(a2, b1);
    PlusUndone(a1, a2);
    XorUndone(h.h1, len);
    XorUndone(h.h2, len);
  }

  lemma KeysOfInjective(b: seq<Byte>, c: seq<Byte>)
    requires |b| == |c| == 16 && KeysOf(b) == KeysOf(c)
    ensures b == c
  {
    hide ReadLE, WriteLE;
    ReadThenWrite(b[..8]);
    ReadThenWrite(b[8..]);
    ReadThenWrite(c[..8]);
    ReadThenWrite(c[8..]);
    assert b == b[..8] + b[8..] && c == c[..8] + c[8..];
  }
}
