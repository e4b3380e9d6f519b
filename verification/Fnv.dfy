/**
 The 64-bit FNV-1a hash of the columnar rows (`fnv1a_64_update`) on machine words.
 */
module Fnv {
  /** One byte: mixed in first, then multiplied by the FNV prime. */
  function Step(h: bv64, b: bv8): bv64 {
    Multiply(Mix(h, b))
  }

  function Mix(h: bv64, b: bv8): bv64 {
    h ^ (b as bv64)
  }

  function Multiply(x: bv64): bv64 {
    x * 0x100_0000_01b3
  }

  function Update(h: bv64, bytes: seq<bv8>): bv64 {
    if bytes == [] then h else Step(Update(h, bytes[..|bytes| - 1]), bytes[|bytes| - 1])
  }

  method UpdateBytes(h: bv64, data: seq<bv8>) returns (hash: bv64)
    ensures hash == Update(h, data)
  {
    hide Step;
    hash := h;
    for i := 0 to |data|
      invariant hash == Update(h, data[..i])
    {
      assert data[..i + 1][..i] == data[..i];
      hash := Step(hash, data[i]);
    }
    assert data[..|data|] == data;
  }

  /** The hash of a text is that of its parts, one after the other. */
  lemma {:induction false} UpdateConcat(h: bv64, a: seq<bv8>, b: seq<bv8>)
    ensures Update(h, a + b) == Update(Update(h, a), b)
    decreases |b|
  {
    hide Step;
    if b == [] {
      assert a + b == a;
    } else {
      var n := |b| - 1;
      assert (a + b)[..|a + b| - 1] == a + b[..n] && (a + b)[|a + b| - 1] == b[n];
      UpdateConcat(h, a, b[..n]);
    }
  }

  /** The inverse of the prime undoes the multiplication. */
  function Divide(x: bv64): bv64 {
    x * 0xce96_5057_aff6_957b
  }

  lemma MultiplyIs(x: bv64)
    ensures Multiply(x) == x * 0x100_0000_01b3
  {
    hide Divide;
  }

  lemma DivideUndoes(x: bv64)
    ensures Divide(x * 0x100_0000_01b3) == x
  {
    hide Multiply;
  }

  lemma MultiplyIsInjective(x: bv64, y: bv64)
    requires Multiply(x) == Multiply(y)
    ensures x == y
  {
    hide *;
    MultiplyIs(x);
    MultiplyIs(y);
    DivideUndoes(x);
    DivideUndoes(y);
  }

  lemma MixTellsBytes(h: bv64, b: bv8, c: bv8)
    requires Mix(h, b) == Mix(h, c)
    ensures b == c
  {
  }

  lemma MixTellsStates(g: bv64, h: bv64, b: bv8)
    requires Mix(g, b) == Mix(h, b)
    ensures g == h
  {
  }

  lemma StepIsInjective(g: bv64, h: bv64, b: bv8, c: bv8)
    requires Step(g, b) == Step(h, c)
    ensures g == h <==> b == c
  {
    hide Multiply, Mix;
    MultiplyIsInjective(Mix(g, b), Mix(h, c));
    if g == h {
      MixTellsBytes(g, b, c);
    }
    if b == c {
      MixTellsStates(g, h, b);
    }
  }

  lemma {:induction false} UpdateIsInjective(g: bv64, h: bv64, bytes: seq<bv8>)
    requires Update(g, bytes) == Update(h, bytes)
    ensures g == h
    decreases |bytes|
  {
    if bytes != [] {
      var n := |bytes| - 1;
      StepIsInjective(Update(g, bytes[..n]), Update(h, bytes[..n]), bytes[n], bytes[n]);
      UpdateIsInjective(g, h, bytes[..n]);
    }
  }

  /** No change of a single byte goes unnoticed, wherever it is. */
  lemma OneByteApart(h: bv64, a: seq<bv8>, x: bv8, y: bv8, b: seq<bv8>)
    ensures Update(h, a + [x] + b) == Update(h, a + [y] + b) <==> x == y
  {
    UpdateConcat(h, a + [x], b);
    UpdateConcat(h, a + [y], b);
    UpdateConcat(h, a, [x]);
    UpdateConcat(h, a, [y]);
    UpdateOne(Update(h, a), x);
    UpdateOne(Update(h, a), y);
    hide Update, Step;
    if Update(h, a + [x] + b) == Update(h, a + [y] + b) {
      UpdateIsInjective(Update(h, a + [x]), Update(h, a + [y]), b);
      StepIsInjective(Update(h, a), Update(h, a), x, y);
    }
  }

  lemma UpdateOne(h: bv64, x: bv8)
    ensures Update(h, [x]) == Step(h, x)
  {
  }

  lemma UpdateNext(h: bv64, a: seq<bv8>, x: bv8, state: bv64, next: bv64)
    requires Update(h, a) == state && Step(state, x) == next
    ensures Update(h, a + [x]) == next
  {
    assert (a + [x])[..|a|] == a;
  }

  /** The published hashes of "a" and of "foobar" from the FNV offset basis. */
  lemma PublishedHashes()
    ensures Update(0xcbf2_9ce4_8422_2325, [0x61]) == 0xaf63_dc4c_8601_ec8c
    ensures Update(0xcbf2_9ce4_8422_2325, [0x66, 0x6f, 0x6f, 0x62, 0x61, 0x72]) == 0x8594_4171_f739_67e8
  {
    FoobarSteps();
    hide *;
    var h: bv64 := 0xcbf2_9ce4_8422_2325;
    UpdateOne(h, 0x61);
    UpdateOne(h, 0x66);
    var a: seq<bv8> := [0x66];
    UpdateNext(h, a, 0x6f, 0xaf63_db4c_8601_ead9, 0x0898_5907_b541_d342);
    var b := a + [0x6f];
    UpdateNext(h, b, 0x6f, 0x0898_5907_b541_d342, 0xdcb2_7518_fed9_d577);
    var c := b + [0x6f];
    UpdateNext(h, c, 0x62, 0xdcb2_7518_fed9_d577, 0xdd12_0e79_0c25_12af);
    var d := c + [0x62];
    UpdateNext(h, d, 0x61, 0xdd12_0e79_0c25_12af, 0xcac1_65af_a2fe_f40a);
    var e := d + [0x61];
    UpdateNext(h, e, 0x72, 0xcac1_65af_a2fe_f40a, 0x8594_4171_f739_67e8);
    assert e + [0x72] == [0x66, 0x6f, 0x6f, 0x62, 0x61, 0x72];
  }

  lemma FoobarSteps()
    ensures Step(0xcbf2_9ce4_8422_2325, 0x61) == 0xaf63_dc4c_8601_ec8c
    ensures Step(0xcbf2_9ce4_8422_2325, 0x66) == 0xaf63_db4c_8601_ead9
    ensures Step(0xaf63_db4c_8601_ead9, 0x6f) == 0x0898_5907_b541_d342
    ensures Step(0x0898_5907_b541_d342, 0x6f) == 0xdcb2_7518_fed9_d577
    ensures Step(0xdcb2_7518_fed9_d577, 0x62) == 0xdd12_0e79_0c25_12af
    ensures Step(0xdd12_0e79_0c25_12af, 0x61) == 0xcac1_65af_a2fe_f40a
    ensures Step(0xcac1_65af_a2fe_f40a, 0x72) == 0x8594_4171_f739_67e8
  {
  }
}
