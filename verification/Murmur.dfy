/**
 The 64-bit hash of the Bloom filter (`murmur_hash3`), on machine words: whole chunks of
 eight bytes, the remaining bytes, and the final mixing.
 */
module Murmur {
  import opened Integers

  // ------------------------------------------------------ numbers and words

  function Append(w: bv64, bit: bool): bv64 {
    (w << 1) | if bit then 1 else 0
  }

  /** The word with the given value, bit by bit. */
  function WordOf(n: nat): bv64 {
    if n == 0 then 0 else Append(WordOf(n / 2), n % 2 == 1)
  }

  function Value(w: bv64): (n: nat)
    ensures n < U64
  {
    w as nat
  }

  lemma AppendValue(w: bv64, bit: bool)
    requires Value(w) < 0x8000_0000_0000_0000
    ensures Value(Append(w, bit)) == 2 * Value(w) + if bit then 1 else 0
  {
    SmallHalf(w);
    if bit {
      DoubledAndOne(w);
    } else {
      Doubled(w);
      PlusNothing(w << 1);
    }
  }

  lemma SmallHalf(w: bv64)
    requires w as nat < 0x8000_0000_0000_0000
    ensures w < 0x8000_0000_0000_0000
  {
  }

  lemma Doubled(w: bv64)
    requires w < 0x8000_0000_0000_0000
    ensures (w << 1) as nat == 2 * (w as nat)
  {
  }

  lemma DoubledAndOne(w: bv64)
    requires w < 0x8000_0000_0000_0000
    ensures ((w << 1) | 1) as nat == 2 * (w as nat) + 1
  {
  }

  lemma PlusNothing(w: bv64)
    ensures w | 0 == w
  {
  }

  lemma {:induction false} WordValue(n: nat)
    requires n < U64
    ensures Value(WordOf(n)) == n
  {
    if n == 0 {
    } else {
      hide Value, Append;
      WordValue(n / 2);
      AppendValue(WordOf(n / 2), n % 2 == 1);
    }
  }

  /** `as u32` */
  function Low(w: bv64): bv32 {
    (w & 0xFFFF_FFFF) as bv32
  }

  function Widen(w: bv32): bv64 {
    w as bv64
  }

  function Xor(a: bv64, b: bv64): bv64 {
    a ^ b
  }

  lemma OddLow(n: nat)
    requires n % 2 == 1
    ensures Low(WordOf(n)) != 0
  {
    AppendedLow(WordOf(n / 2));
    hide Low, Append;
  }

  lemma AppendedLow(w: bv64)
    ensures Low(Append(w, true)) != 0
  {
  }

  // ---------------------------------------------------------------- the hash

  function PutByte(k: bv64, b: Byte, i: nat): bv64
    requires i < 8
  {
    k | (WordOf(b) << (8 * i))
  }

  /** At most eight bytes, the first one lowest. */
  function LeWord(bytes: seq<Byte>): bv64
    requires |bytes| <= 8
  {
    if bytes == [] then 0 else PutByte(LeWord(bytes[..|bytes| - 1]), bytes[|bytes| - 1], |bytes| - 1)
  }

  function Scramble(k: bv64): bv64 {
    (k * 0x87c37b91114253d5).RotateLeft(31) * 0x4cf5ad432745937f
  }

  function MixChunk(h: bv64, k: bv64): bv64 {
    (h ^ Scramble(k)).RotateLeft(27) * 5 + 0x52dce729
  }

  /** The first `n` chunks taken in. */
  function Chunks(data: seq<Byte>, seed: bv32, n: nat): bv64
    requires 8 * n <= |data|
  {
    if n == 0 then Widen(seed) else MixChunk(Chunks(data, seed, n - 1), LeWord(data[8 * (n - 1)..8 * n]))
  }

  function Finish(h: bv64): bv64 {
    Spread(Spread(Spread(h) * 0xff51afd7ed558ccd) * 0xc4ceb9fe1a85ec53)
  }

  function Spread(h: bv64): bv64 {
    h ^ (h >> 33)
  }

  function Hash(data: seq<Byte>, seed: bv32): bv64 {
    var n := |data| / 8;
    var h, rest := Chunks(data, seed, n), data[8 * n..];
    Finish(Xor(if rest == [] then h else Xor(h, Scramble(LeWord(rest))), WordOf(|data|)))
  }

  /** `murmur_hash3` with its two loops. */
  method MurmurHash3(data: seq<Byte>, seed: bv32) returns (h: bv64)
    ensures h == Hash(data, seed)
  {
    hide Scramble, MixChunk, Finish, WordOf, PutByte, Widen, Xor;
    h := Widen(seed);
    var chunks := |data| / 8;
    for i := 0 to chunks
      invariant h == Chunks(data, seed, i)
    {
      h := MixChunk(h, LeWord(data[8 * i..8 * (i + 1)]));
    }
    var remaining := data[8 * chunks..];
    var k: bv64 := 0;
    for i := 0 to |remaining|
      invariant k == LeWord(remaining[..i])
    {
      assert remaining[..i + 1][..i] == remaining[..i];
      k := PutByte(k, remaining[i], i);
    }
    assert remaining[..|remaining|] == remaining;
    if remaining != [] {
      h := Xor(h, Scramble(k));
    }
    h := Finish(Xor(h, WordOf(|data|)));
  }

  // -------------------------------------------------------- one zero byte

  lemma OneZeroByte(seed: bv32)
    ensures Hash([0], seed) == Finish(Xor(Widen(seed), 1))
  {
    var data: seq<Byte> := [0];
    assert data[8 * 0..] == data && data[..0] == [];
    SmallWords();
    assert LeWord(data) == PutByte(LeWord([]), 0, 0);
    assert Scramble(0) == 0;
    XorZero(Widen(seed));
    hide Finish, WordOf, PutByte, Scramble, Widen, Xor;
  }

  lemma SmallWords()
    ensures WordOf(0) == 0 && WordOf(1) == 1 && PutByte(0, 0, 0) == 0
  {
    assert WordOf(1) == Append(WordOf(0), true);
  }

  lemma XorZero(w: bv64)
    ensures Xor(w, 0) == w
  {
  }

  /** The two hashes of the key of one zero byte. */
  lemma ZeroByteHashes()
    ensures Hash([0], 0) == 0xb456bcfc34c2cb2c
    ensures Hash([0], Low(0xb456bcfc34c2cb2c)) == 0x2ba37398ca694ff5
  {
    OneZeroByte(0);
    assert Low(0xb456bcfc34c2cb2c) == 0x34c2cb2c;
    OneZeroByte(0x34c2cb2c);
    assert Xor(Widen(0), 1) == 1 && Xor(Widen(0x34c2cb2c), 1) == 0x34c2cb2d;
    hide Hash, Xor, Widen, Low, Finish;
    FinishFirst();
    FinishSecond();
  }

  lemma FinishFirst()
    ensures Finish(1) == 0xb456bcfc34c2cb2c
  {
  }

  lemma FinishSecond()
    ensures Finish(0x34c2cb2d) == 0x2ba37398ca694ff5
  {
  }

  // ---------------------------------------------- nine bytes: a chunk and a rest

  lemma Digits()
    ensures WordOf(1) == 1 && WordOf(2) == 2 && WordOf(3) == 3 && WordOf(4) == 4 && WordOf(5) == 5
    ensures WordOf(6) == 6 && WordOf(7) == 7 && WordOf(8) == 8 && WordOf(9) == 9
  {
    assert WordOf(0) == 0;
    assert WordOf(1) == Append(WordOf(0), true);
    assert WordOf(2) == Append(WordOf(1), false) && WordOf(3) == Append(WordOf(1), true);
    assert WordOf(4) == Append(WordOf(2), false) && WordOf(5) == Append(WordOf(2), true);
    assert WordOf(6) == Append(WordOf(3), false) && WordOf(7) == Append(WordOf(3), true);
    assert WordOf(8) == Append(WordOf(4), false) && WordOf(9) == Append(WordOf(4), true);
  }

  lemma LeWordNext(bytes: seq<Byte>, b: Byte, next: seq<Byte>, w: bv64, v: bv64)
    requires |bytes| < 8 && next == bytes + [b] && LeWord(bytes) == w && PutByte(w, b, |bytes|) == v
    ensures LeWord(next) == v
  {
    assert next[..|bytes|] == bytes;
    hide PutByte;
  }

  lemma PutDigits()
    ensures PutByte(0, 1, 0) == 0x01 && PutByte(0x01, 2, 1) == 0x0201
    ensures PutByte(0x0201, 3, 2) == 0x03_0201 && PutByte(0x03_0201, 4, 3) == 0x0403_0201
    ensures PutByte(0x0403_0201, 5, 4) == 0x05_0403_0201
    ensures PutByte(0x05_0403_0201, 6, 5) == 0x0605_0403_0201
    ensures PutByte(0x0605_0403_0201, 7, 6) == 0x07_0605_0403_0201
    ensures PutByte(0x07_0605_0403_0201, 8, 7) == 0x0807_0605_0403_0201
    ensures PutByte(0, 9, 0) == 9
  {
    Digits();
    hide WordOf;
  }

  lemma NoBytes()
    ensures LeWord([]) == 0
  {
    hide PutByte;
  }

  lemma FourBytes()
    ensures LeWord([1, 2, 3, 4]) == 0x0403_0201 && LeWord([9]) == 9
  {
    hide *;
    PutDigits();
    NoBytes();
    LeWordNext([], 9, [9], 0, 9);
    LeWordNext([], 1, [1], 0, 0x01);
    LeWordNext([1], 2, [1, 2], 0x01, 0x0201);
    LeWordNext([1, 2], 3, [1, 2, 3], 0x0201, 0x03_0201);
    LeWordNext([1, 2, 3], 4, [1, 2, 3, 4], 0x03_0201, 0x0403_0201);
  }

  /** The first byte is the lowest. */
  lemma EightBytes()
    ensures LeWord([1, 2, 3, 4, 5, 6, 7, 8]) == 0x0807_0605_0403_0201
  {
    hide *;
    PutDigits();
    FourBytes();
    LeWordNext([1, 2, 3, 4], 5, [1, 2, 3, 4, 5], 0x0403_0201, 0x05_0403_0201);
    LeWordNext([1, 2, 3, 4, 5], 6, [1, 2, 3, 4, 5, 6], 0x05_0403_0201, 0x0605_0403_0201);
    LeWordNext([1, 2, 3, 4, 5, 6], 7, [1, 2, 3, 4, 5, 6, 7], 0x0605_0403_0201, 0x07_0605_0403_0201);
    LeWordNext([1, 2, 3, 4, 5, 6, 7], 8, [1, 2, 3, 4, 5, 6, 7, 8], 0x07_0605_0403_0201, 0x0807_0605_0403_0201);
  }

  lemma ScrambledNine()
    ensures Scramble(9) == 0xc131_1375_67ed_3df4
  {
  }

  lemma MixedChunk()
    ensures MixChunk(7, 0x0807_0605_0403_0201) == 0x1781_24fc_6793_9672
  {
  }

  lemma FinishNine()
    ensures Finish(0xd6b0_3789_007e_ab8f) == 0xdb11_c3c6_da5d_316b
  {
  }

  /** The hash of the bytes 1 to 9 with seed 7. */
  lemma NineBytesHash()
    ensures Hash([1, 2, 3, 4, 5, 6, 7, 8, 9], 7) == 0xdb11_c3c6_da5d_316b
  {
    var data: seq<Byte> := [1, 2, 3, 4, 5, 6, 7, 8, 9];
    assert |data| == 9 && data[8 * 0..8 * 1] == [1, 2, 3, 4, 5, 6, 7, 8] && data[8 * 1..] == [9];
    NineBytesSteps(data);
    EightBytes();
    FourBytes();
    Digits();
    assert Widen(7) == 7;
    assert Xor(0x1781_24fc_6793_9672, 0xc131_1375_67ed_3df4) == 0xd6b0_3789_007e_ab86;
    assert Xor(0xd6b0_3789_007e_ab86, 9) == 0xd6b0_3789_007e_ab8f;
    hide Hash, LeWord, WordOf, Scramble, MixChunk, Finish, Xor, Widen;
    ScrambledNine();
    MixedChunk();
    FinishNine();
  }

  lemma NineBytesSteps(data: seq<Byte>)
    requires |data| == 9
    ensures Hash(data, 7) ==
            Finish(Xor(Xor(MixChunk(Widen(7), LeWord(data[0..8])), Scramble(LeWord(data[8..]))), WordOf(9)))
  {
    hide LeWord, WordOf, Scramble, MixChunk, Finish, Xor, Widen;
    assert data[8 * 1..] == data[8..] && data[8 * 0..8 * 1] == data[0..8];
    assert Chunks(data, 7, 1) == MixChunk(Chunks(data, 7, 0), LeWord(data[0..8]));
  }
}
