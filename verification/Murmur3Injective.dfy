/** What the digest of MurmurHash3 tells apart (src/block/murmur3.rs:31-142), and what its
    first word alone does not. */
module Murmur3Injective {
  import opened Words
  import opened Murmur3
  import opened Pigeonhole

  /** `a` and `b` differ inside block `i` (which may be the incomplete last one), and nowhere else. */
  ghost predicate DifferOnlyIn(a: seq<Byte>, b: seq<Byte>, i: nat) {
    && |a| == |b| && a != b && 16 * i <= |a|
    && (forall j :: 0 <= j < |a| && !(16 * i <= j < 16 * i + 16) ==> a[j] == b[j])
  }

  /** Blocks before the difference lead to the same state; the block with the difference to
      different states; and the blocks after it keep them different. */
  lemma {:induction false} BodyDiffers(a: seq<Byte>, b: seq<Byte>, i: nat, n: nat, h: Hash)
    requires DifferOnlyIn(a, b, i) && 16 * n <= |a|
    ensures n <= i ==> Body(a, n, h) == Body(b, n, h)
    ensures n > i ==> Body(a, n, h) != Body(b, n, h)
  {
    hide Block, KeysOf, BlockAt;
    if n > 0 {
      BodyDiffers(a, b, i, n - 1, h);
      var ha, hb := Body(a, n - 1, h), Body(b, n - 1, h);
      var ka, kb := KeysOf(BlockAt(a, n - 1)), KeysOf(BlockAt(b, n - 1));
      if n - 1 == i {
        BlocksDiffer(a, b, i);
        BlockRecovered(ha, ka);
        BlockRecovered(hb, kb);
      } else {
        SameBlock(a, b, i, n - 1);
        BlockUndone(ha, ka);
        BlockUndone(hb, kb);
      }
    }
  }

  lemma SameBlock(a: seq<Byte>, b: seq<Byte>, i: nat, n: nat)
    requires DifferOnlyIn(a, b, i) && 16 * n + 16 <= |a| && n != i
    ensures BlockAt(a, n) == BlockAt(b, n)
  {
  }

  lemma BlocksDiffer(a: seq<Byte>, b: seq<Byte>, i: nat)
    requires DifferOnlyIn(a, b, i) && 16 * i + 16 <= |a|
    ensures KeysOf(BlockAt(a, i)) != KeysOf(BlockAt(b, i))
  {
    hide KeysOf;
    var j :| 0 <= j < |a| && a[j] != b[j];
    assert BlockAt(a, i)[j - 16 * i] != BlockAt(b, i)[j - 16 * i];
    if KeysOf(BlockAt(a, i)) == KeysOf(BlockAt(b, i)) {
      KeysOfInjective(BlockAt(a, i), BlockAt(b, i));
    }
  }

  lemma TailsDiffer(a: seq<Byte>, b: seq<Byte>, i: nat)
    requires DifferOnlyIn(a, b, i)
    ensures i < |a| / 16 ==> TailOf(a) == TailOf(b)
    ensures i == |a| / 16 ==> KeysOf(Padded(TailOf(a))) != KeysOf(Padded(TailOf(b)))
  {
    hide KeysOf;
    if i == |a| / 16 {
      var j :| 0 <= j < |a| && a[j] != b[j];
      assert Padded(TailOf(a))[j - 16 * i] != Padded(TailOf(b))[j - 16 * i];
      if KeysOf(Padded(TailOf(a))) == KeysOf(Padded(TailOf(b))) {
        KeysOfInjective(Padded(TailOf(a)), Padded(TailOf(b)));
      }
    }
  }

  /** Two inputs of the same length that differ in one 16-byte block only, or in the tail
      only, have different digests, for every seed. */
  lemma OneBlockDiffers(a: seq<Byte>, b: seq<Byte>, i: nat, seed: bv32)
    requires |a| < 0x1_0000_0000_0000_0000 && DifferOnlyIn(a, b, i)
    ensures Digest(a, seed) != Digest(b, seed)
  {
    hide Absorb, Finalize, KeysOf, Padded, Seeded, Length;
    var n := |a| / 16;
    var ha, hb := Body(a, n, Seeded(seed)), Body(b, n, Seeded(seed));
    var ka, kb := KeysOf(Padded(TailOf(a))), KeysOf(Padded(TailOf(b)));
    BodyDiffers(a, b, i, n, Seeded(seed));
    TailsDiffer(a, b, i);
    AbsorbUndone(ha, ka);
    AbsorbUndone(hb, kb);
    assert Absorb(ha, ka) != Absorb(hb, kb);
    FinalizeUndone(Absorb(ha, ka), Length(a));
    FinalizeUndone(Absorb(hb, kb), Length(b));
    SameLength(a, b);
  }

  lemma SameLength(a: seq<Byte>, b: seq<Byte>)
    requires |a| == |b| < 0x1_0000_0000_0000_0000
    ensures Length(a) == Length(b)
  {
  }

  // ----- The ring key: putLong(key).putInt(index) -----

  /** The twelve bytes that the pair is written to. Both numbers stand for their two's
      complement patterns, `i64` and `i32`. */
  function Buffer(key: Word, index: bv32): (b: seq<Byte>)
    ensures |b| == 12
  {
    WriteLE(key) + WriteLE(index as Word)[..4]
  }

  /** `murmur3_128_as_long_put_long_int`, as the pattern of the `i64` it returns. */
  method RingKey(key: Word, index: bv32) returns (r: Word)
    ensures r == Digest(Buffer(key, index), 0).h1
  {
    hide Digest;
    var h1, h2 := Murmurhash3(Buffer(key, index), 0);
    r := h1;
  }

  lemma IndexRecovered(index: bv32, other: bv32)
    requires WriteLE(index as Word)[..4] == WriteLE(other as Word)[..4]
    ensures index == other
  {
    var a, b := WriteLE(index as Word), WriteLE(other as Word);
    assert a[0] == a[..4][0] && a[1] == a[..4][1] && a[2] == a[..4][2] && a[3] == a[..4][3];
    assert b[0] == b[..4][0] && b[1] == b[..4][1] && b[2] == b[..4][2] && b[3] == b[..4][3];
  }

  lemma BufferInjective(key: Word, index: bv32, key': Word, index': bv32)
    requires Buffer(key, index) == Buffer(key', index')
    ensures key == key' && index == index'
  {
    hide WriteLE, ReadLE;
    var b, b' := Buffer(key, index), Buffer(key', index');
    assert b[..8] == WriteLE(key) && b'[..8] == WriteLE(key');
    assert b[8..] == WriteLE(index as Word)[..4] && b'[8..] == WriteLE(index' as Word)[..4];
    WriteThenRead(key);
    WriteThenRead(key');
    IndexRecovered(index, index');
  }

  /** The 128-bit digest of the pair is injective over all keys and indices. */
  lemma PairDigestInjective(key: Word, index: bv32, key': Word, index': bv32)
    ensures Digest(Buffer(key, index), 0) == Digest(Buffer(key', index'), 0) <==> key == key' && index == index'
  {
    hide Digest, Buffer;
    if key != key' || index != index' {
      if Buffer(key, index) == Buffer(key', index') {
        BufferInjective(key, index, key', index');
      }
      OneBlockDiffers(Buffer(key, index), Buffer(key', index'), 0, 0);
    }
  }

  // ----- The first word alone -----

  /** The ring key as a function. */
  function FirstWord(key: Word, index: bv32): Word {
    Digest(Buffer(key, index), 0).h1
  }

  /** The twelve bytes are all tail, and they read back as the pair. */
  lemma PairDigest(key: Word, index: bv32)
    ensures Digest(Buffer(key, index), 0) == Finalize(Absorb(Hash(0, 0), Keys(key, index as Word)), 12)
  {
    PairKeys(key, index);
    WholeTail(Buffer(key, index));
    TwelveBytes(Buffer(key, index));
    SeedZero();
    hide Finalize, Absorb, KeysOf, Padded, TailOf, Buffer, Length, Seeded, Block, BlockAt;
  }

  lemma PairKeys(key: Word, index: bv32)
    ensures KeysOf(Padded(Buffer(key, index))) == Keys(key, index as Word)
  {
    hide ReadLE, WriteLE;
    var p := Padded(Buffer(key, index));
    assert p[..8] == WriteLE(key);
    IndexBytes(index);
    assert p[8..] == WriteLE(index as Word);
    WriteThenRead(key);
    WriteThenRead(index as Word);
  }

  lemma TwelveBytes(data: seq<Byte>)
    requires |data| == 12
    ensures Length(data) == 12
  {
    calc {
      Length(data);
      { assert |data| == 12; }
      12 as Word;
      12;
    }
  }

  lemma SeedZero()
    ensures Seeded(0) == Hash(0, 0)
  {
  }

  lemma IndexBytes(index: bv32)
    ensures WriteLE(index as Word)[4..] == [0, 0, 0, 0]
  {
  }

  /** The vectors that the source checks against Guava, as two's complement patterns. */
  lemma GoldenVectors()
    ensures FirstWord(1, 0) == 0x785f_21fd_6d4b_4912
    ensures FirstWord(42, 7) == 0x1b54_cd65_9e11_5019
    ensures FirstWord(100, 1) == 0x851d_da87_3183_7c57
    ensures FirstWord(0xffff_ffff_ffff_ffff, 0) == 0x6280_de87_7ef9_d397
  {
    hide Digest, Buffer;
    PairDigest(1, 0);
    PairDigest(42, 7);
    PairDigest(100, 1);
    PairDigest(0xffff_ffff_ffff_ffff, 0);
  }

  /** "The quick brown fox jumps over the lazy dog". */
  function Fox(): seq<Byte> {
    [84, 104, 101, 32, 113, 117, 105, 99, 107, 32, 98, 114, 111, 119, 110, 32]
    + [102, 111, 120, 32, 106, 117, 109, 112, 115, 32, 111, 118, 101, 114, 32, 116]
    + [104, 101, 32, 108, 97, 122, 121, 32, 100, 111, 103]
  }

  lemma FoxBlocks()
    ensures KeysOf(BlockAt(Fox(), 0)) == Keys(0x6369_7571_2065_6854, 0x206e_776f_7262_206b)
    ensures KeysOf(BlockAt(Fox(), 1)) == Keys(0x706d_756a_2078_6f66, 0x7420_7265_766f_2073)
  {
    assert Fox()[0..16][..8] == [84, 104, 101, 32, 113, 117, 105, 99]
        && Fox()[0..16][8..] == [107, 32, 98, 114, 111, 119, 110, 32];
    assert Fox()[16..32][..8] == [102, 111, 120, 32, 106, 117, 109, 112]
        && Fox()[16..32][8..] == [115, 32, 111, 118, 101, 114, 32, 116];
  }

  lemma FoxTail()
    ensures KeysOf(Padded(TailOf(Fox()))) == Keys(0x2079_7a61_6c20_6568, 0x0000_0000_0067_6f64)
  {
    assert TailOf(Fox()) == [104, 101, 32, 108, 97, 122, 121, 32, 100, 111, 103];
    assert Padded(TailOf(Fox()))[..8] == [104, 101, 32, 108, 97, 122, 121, 32]
        && Padded(TailOf(Fox()))[8..] == [100, 111, 103, 0, 0, 0, 0, 0];
  }

  lemma FoxBody()
    ensures Block(Hash(0, 0), Keys(0x6369_7571_2065_6854, 0x206e_776f_7262_206b))
         == Hash(0x065f_5407_0009_580c, 0x1185_bfe0_bc38_3732)
    ensures var h, k := Hash(0x065f_5407_0009_580c, 0x1185_bfe0_bc38_3732),
                        Keys(0x706d_756a_2078_6f66, 0x7420_7265_766f_2073);
      Block(h, k) == Hash(0xef7e_f36e_84b3_6d66, 0x2011_2c4d_ac59_411d)
  {
  }

  /** The reference vector of MurmurHash3 x64 128 for a text of two blocks and a tail. */
  lemma ReferenceVector()
    ensures Digest(Fox(), 0) == Hash(0xe34b_bc7b_bc07_1b6c, 0x7a43_3ca9_c49a_9347)
  {
    FoxBlocks();
    FoxTail();
    FoxBody();
    FoxEnd();
    hide KeysOf, BlockAt, Block, Absorb, Finalize, TailOf, Padded;
    assert |Fox()| == 43 && Length(Fox()) == 43;
    assert Seeded(0) == Hash(0, 0);
    hide Fox;
    assert Body(Fox(), 1, Hash(0, 0)) == Block(Body(Fox(), 0, Hash(0, 0)), KeysOf(BlockAt(Fox(), 0)));
    assert Body(Fox(), 2, Hash(0, 0)) == Block(Body(Fox(), 1, Hash(0, 0)), KeysOf(BlockAt(Fox(), 1)));
  }

  lemma FoxEnd()
    ensures var h, k := Hash(0xef7e_f36e_84b3_6d66, 0x2011_2c4d_ac59_411d),
                        Keys(0x2079_7a61_6c20_6568, 0x0000_0000_0067_6f64);
      Finalize(Absorb(h, k), 43) == Hash(0xe34b_bc7b_bc07_1b6c, 0x7a43_3ca9_c49a_9347)
  {
  }

  lemma HelloTail()
    ensures KeysOf(Padded([104, 101, 108, 108, 111])) == Keys(0x0000_006f_6c6c_6568, 0)
  {
    var padded := Padded([104, 101, 108, 108, 111]);
    assert padded[..8] == [104, 101, 108, 108, 111, 0, 0, 0] && padded[8..] == [0, 0, 0, 0, 0, 0, 0, 0];
  }

  lemma HelloEnd()
    ensures Finalize(Absorb(Hash(1, 1), Keys(0x0000_006f_6c6c_6568, 0)), 5)
         == Hash(0xa78d_dff5_adae_8d10, 0x1289_00ef_2090_0135)
  {
  }

  /** The reference vector of "hello", a tail alone, with seed 1. */
  lemma SeedVector()
    ensures Digest([104, 101, 108, 108, 111], 1) == Hash(0xa78d_dff5_adae_8d10, 0x1289_00ef_2090_0135)
  {
    HelloTail();
    HelloEnd();
    SeedOne();
    WholeTail([104, 101, 108, 108, 111]);
    HelloLength();
    hide KeysOf, Padded, Finalize, Absorb, TailOf, Length, Seeded, Block, BlockAt;
  }

  lemma SeedOne()
    ensures Seeded(1) == Hash(1, 1)
  {
  }

  lemma WholeTail(data: seq<Byte>)
    requires |data| < 16
    ensures TailOf(data) == data
  {
  }

  lemma HelloLength()
    ensures Length([104, 101, 108, 108, 111]) == 5
  {
    calc {
      Length([104, 101, 108, 108, 111]);
      { assert |[104, 101, 108, 108, 111]| == 5; }
      5 as Word;
      5;
    }
  }

  function ToWord(x: int): Word
    requires 0 <= x < 0x1_0000_0000_0000_0000
  {
    x as Word
  }

  ghost function AllWords(): set<Word> {
    set x: int | 0 <= x < 0x1_0000_0000_0000_0000 :: ToWord(x)
  }

  lemma EveryWord(w: Word)
    ensures w in AllWords()
  {
    var x := w as int;
    assert ToWord(x) == w;
  }

  /** The first word, which is all that the hash ring keeps, does collide: there are more
      pairs than words. */
  lemma FirstWordCollides() returns (key: Word, index: bv32, key': Word, index': bv32)
    ensures key != key' || index != index'
    ensures FirstWord(key, index) == FirstWord(key', index')
  {
    hide FirstWord;
    forall w: Word ensures w in AllWords() {
      EveryWord(w);
    }
    hide AllWords;
    var collides;
    collides, key, key' := HitsTwiceOrAll(AllWords(), (w: Word) => FirstWord(w, 0), FirstWord(0, 1));
    if collides {
      return key, 0, key', 0;
    }
    return key, 0, 0, 1;
  }
}

/** A counting argument on finite sets. */
module Pigeonhole {

  ghost function Image<T(!new)>(s: set<T>, f: T -> T): set<T> {
    set x | x in s :: f(x)
  }

  ghost predicate Injective<T>(s: set<T>, f: T -> T) {
    forall a, b :: a in s && b in s && f(a) == f(b) ==> a == b
  }

  lemma {:induction false} ImageSize<T(!new)>(s: set<T>, f: T -> T)
    requires Injective(s, f)
    ensures |Image(s, f)| == |s|
    decreases s
  {
    if s != {} {
      var x :| x in s;
      ImageSize(s - {x}, f);
      assert Image(s, f) == Image(s - {x}, f) + {f(x)};
    }
  }

  lemma {:induction false} EqualBySize<T>(a: set<T>, b: set<T>)
    requires a <= b && |a| == |b|
    ensures a == b
    decreases a
  {
    if a != {} {
      var x :| x in a;
      EqualBySize(a - {x}, b - {x});
    } else {
      assert b == {};
    }
  }

  /** A function from a finite set to itself that hits nothing twice hits everything. */
  lemma InjectiveIsSurjective<T(!new)>(s: set<T>, f: T -> T)
    requires forall x :: x in s ==> f(x) in s
    ensures Injective(s, f) ==> forall y :: y in s ==> exists x :: x in s && f(x) == y
  {
    if Injective(s, f) {
      ImageSize(s, f);
      EqualBySize(Image(s, f), s);
    }
  }

  /** A function from a finite type to itself hits something twice, or hits `y`. */
  lemma HitsTwiceOrAll<T(!new)>(all: set<T>, f: T -> T, y: T) returns (twice: bool, a: T, b: T)
    requires forall x :: x in all
    ensures twice ==> a != b && f(a) == f(b)
    ensures !twice ==> f(a) == y
  {
    InjectiveIsSurjective(all, f);
    twice := !Injective(all, f);
    if twice {
      a, b :| a in all && b in all && f(a) == f(b) && a != b;
    } else {
      assert y in all;
      a :| a in all && f(a) == y;
      b := a;
    }
  }
}
