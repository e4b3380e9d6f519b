/**
 Single bits of 64-bit words: what each mask and bit operation of the bitmap code
 does to every bit. The facts are first proved with positions as 7-bit vectors and
 then carried over to natural numbers.
 */
module Words {

  type Word = bv64

  const ONES: Word := 0xFFFF_FFFF_FFFF_FFFF

  /** `(w >> i) & 1 == 1` */
  predicate Bit(w: Word, i: nat)
    requires i < 64
  {
    (w >> i) & 1 == 1
  }

  function Or(w: Word, v: Word): Word { w | v }

  function And(w: Word, v: Word): Word { w & v }

  function Not(w: Word): Word { !w }

  /** `w << b` */
  function Shl(w: Word, b: nat): Word
    requires b < 64
  {
    w << b
  }

  /** `(1 << b) - 1` */
  function LowMask(b: nat): Word
    requires b < 64
  {
    ((1 as Word) << b) - 1
  }

  // ------------------------------------------------ positions as bit vectors

  predicate BitAt(w: Word, p: bv7)
    requires p < 64
  {
    (w >> p) & 1 == 1
  }

  function ShlBy(w: Word, q: bv7): Word
    requires q < 64
  {
    w << q
  }

  lemma Position(i: nat)
    requires i <= 64
    ensures (i as bv7) as nat == i && i as bv7 <= 64
    ensures i < 64 ==> i as bv7 < 64
  {
  }

  lemma Order(p: bv7, q: bv7)
    ensures p < q <==> p as nat < q as nat
    ensures p == q <==> p as nat == q as nat
  {
  }

  lemma SamePosition(i: nat, j: nat)
    requires i < 64 && j <= 64
    ensures (i as bv7 < j as bv7 <==> i < j) && (i as bv7 == j as bv7 <==> i == j)
  {
    Position(i);
    Position(j);
    Order(i as bv7, j as bv7);
  }

  lemma NextVector(p: bv7)
    requires p < 64
    ensures (p + 1) as nat == p as nat + 1 && ((p + 1) as nat) as bv7 == p + 1
  {
  }

  lemma NextPosition(i: nat)
    requires i < 64
    ensures (i + 1) as bv7 == (i as bv7) + 1
  {
    Position(i);
    NextVector(i as bv7);
  }

  // --------------------------------------------- the same facts, by bit vector

  lemma AndAt(w: Word, v: Word, p: bv7)
    requires p < 64
    ensures BitAt(And(w, v), p) <==> BitAt(w, p) && BitAt(v, p)
  {
  }

  lemma NotAt(w: Word, p: bv7)
    requires p < 64
    ensures BitAt(Not(w), p) <==> !BitAt(w, p)
  {
  }

  lemma ConstantsAt(p: bv7)
    requires p < 64
    ensures !BitAt(0, p) && BitAt(ONES, p)
  {
  }

  lemma OneAt(q: bv7, p: bv7)
    requires q < 64 && p < 64
    ensures BitAt(ShlBy(1, q), p) <==> p == q
  {
  }

  lemma HighAt(q: bv7, p: bv7)
    requires q < 64 && p < 64
    ensures BitAt(ShlBy(ONES, q), p) <==> q <= p
  {
  }

  lemma ShiftOneAt(w: Word, p: bv7)
    requires p < 63
    ensures BitAt(w << 1, p + 1) == BitAt(w, p)
  {
  }

  predicate Even(q: bv7) {
    q & 1 == 0
  }

  lemma ShiftNextEven(w: Word, q: bv7)
    requires q < 63 && Even(q)
    ensures ShlBy(w, q + 1) == Double(ShlBy(w, q))
  {
  }

  lemma ShiftNextOdd(w: Word, q: bv7)
    requires q < 63 && !Even(q)
    ensures ShlBy(w, q + 1) == Double(ShlBy(w, q))
  {
  }

  lemma ShiftNextAt(w: Word, q: bv7)
    requires q < 63
    ensures ShlBy(w, q + 1) == Double(ShlBy(w, q))
  {
    hide *;
    if Even(q) {
      ShiftNextEven(w, q);
    } else {
      ShiftNextOdd(w, q);
    }
  }

  lemma LowNext(q: bv7)
    requires q < 63
    ensures ((1 as Word) << (q + 1)) - 1 == Or(Double(((1 as Word) << q) - 1), 1)
  {
  }

  // -------------------------------------------------------- facts for callers

  function Double(w: Word): Word {
    w << 1
  }

  lemma BitIs(w: Word, i: nat)
    requires i < 64
    ensures i as bv7 < 64 && Bit(w, i) == BitAt(w, i as bv7) && Shl(w, i) == ShlBy(w, i as bv7)
  {
    Position(i);
  }

  lemma BitAnd(w: Word, v: Word, i: nat)
    requires i < 64
    ensures Bit(And(w, v), i) <==> Bit(w, i) && Bit(v, i)
  {
    hide *;
    BitIs(w, i);
    BitIs(v, i);
    BitIs(And(w, v), i);
    AndAt(w, v, i as bv7);
  }

  lemma BitNot(w: Word, i: nat)
    requires i < 64
    ensures Bit(Not(w), i) <==> !Bit(w, i)
  {
    hide *;
    BitIs(w, i);
    BitIs(Not(w), i);
    NotAt(w, i as bv7);
  }

  lemma DeMorgan(w: Word, v: Word)
    ensures Or(w, v) == Not(And(Not(w), Not(v)))
  {
  }

  lemma BitOr(w: Word, v: Word, i: nat)
    requires i < 64
    ensures Bit(Or(w, v), i) <==> Bit(w, i) || Bit(v, i)
  {
    hide *;
    DeMorgan(w, v);
    BitNot(And(Not(w), Not(v)), i);
    BitAnd(Not(w), Not(v), i);
    BitNot(w, i);
    BitNot(v, i);
  }

  lemma BitConstants(i: nat)
    requires i < 64
    ensures !Bit(0, i) && Bit(ONES, i)
  {
    hide *;
    BitIs(0, i);
    BitIs(ONES, i);
    ConstantsAt(i as bv7);
  }

  lemma BitOne(b: nat, i: nat)
    requires b < 64 && i < 64
    ensures Bit(Shl(1, b), i) <==> i == b
  {
    hide *;
    SamePosition(i, b);
    BitIs(1, b);
    BitIs(Shl(1, b), i);
    OneAt(b as bv7, i as bv7);
  }

  /** The mask of the bits from `b` up. */
  lemma BitHigh(b: nat, i: nat)
    requires b < 64 && i < 64
    ensures Bit(Shl(ONES, b), i) <==> b <= i
  {
    hide *;
    SamePosition(i, b);
    BitIs(ONES, b);
    BitIs(Shl(ONES, b), i);
    HighAt(b as bv7, i as bv7);
    Trichotomy(b as bv7, i as bv7);
  }

  lemma Trichotomy(p: bv7, q: bv7)
    ensures p <= q <==> !(q < p)
  {
  }

  lemma DoubleZero(w: Word)
    ensures !Bit(Double(w), 0)
  {
  }

  lemma DoubleNext(w: Word, i: nat)
    requires i < 63
    ensures Bit(Double(w), i + 1) == Bit(w, i)
  {
    SamePosition(i, 63);
    NextPosition(i);
    ShiftOneAt(w, i as bv7);
  }

  lemma ShiftNext(w: Word, b: nat)
    requires b < 63
    ensures Shl(w, b + 1) == Double(Shl(w, b))
  {
    hide *;
    SamePosition(b, 63);
    NextPosition(b);
    BitIs(w, b);
    BitIs(w, b + 1);
    ShiftNextAt(w, b as bv7);
  }

  lemma ShiftZero(w: Word)
    ensures Shl(w, 0) == w
  {
  }

  lemma {:induction false} BitShift(w: Word, b: nat, i: nat)
    requires b < 64 && i < 64
    ensures Bit(Shl(w, b), i) <==> b <= i && Bit(w, i - b)
  {
    hide *;
    if b == 0 {
      ShiftZero(w);
    } else {
      ShiftNext(w, b - 1);
      if i == 0 {
        DoubleZero(Shl(w, b - 1));
      } else {
        DoubleNext(Shl(w, b - 1), i - 1);
        BitShift(w, b - 1, i - 1);
      }
    }
  }

  lemma LowIs(b: nat)
    requires b < 63
    ensures LowMask(b + 1) == Or(Double(LowMask(b)), 1)
  {
    SamePosition(b, 63);
    NextPosition(b);
    LowNext(b as bv7);
  }

  lemma LowZero()
    ensures LowMask(0) == 0
  {
  }

  /** The mask of the `b` low bits. */
  lemma {:induction false} BitLow(b: nat, i: nat)
    requires b < 64 && i < 64
    ensures Bit(LowMask(b), i) <==> i < b
  {
    hide *;
    if b == 0 {
      LowZero();
      BitConstants(i);
    } else {
      var low := LowMask(b - 1);
      LowIs(b - 1);
      BitOr(Double(low), 1, i);
      ShiftZero(1);
      BitOne(0, i);
      if i == 0 {
        DoubleZero(low);
      } else {
        DoubleNext(low, i - 1);
        BitLow(b - 1, i - 1);
      }
    }
  }
}
