/**
 The bit-packed null bitmap. Bits past `len` may be set, and later operations can
 expose them; the bitmap is compared with a growable sequence of booleans, with the
 exact condition under which each operation agrees with it.
 */
module NullBitmap {
  import opened Words

  datatype Bitmap = Bitmap(data: seq<Word>, len: nat)

  function WordCount(len: nat): nat {
    (len + 63) / 64
  }

  /** The stored bit `i`; clear past the last stored word. */
  predicate At(data: seq<Word>, i: nat) {
    i / 64 < |data| && Bit(data[i / 64], i % 64)
  }

  /** The null flags below `len`. */
  function View(b: Bitmap): (v: seq<bool>)
    ensures |v| == b.len && forall i :: 0 <= i < b.len ==> v[i] == At(b.data, i)
  {
    seq(b.len, i requires 0 <= i < b.len => At(b.data, i))
  }

  predicate Enough(b: Bitmap) {
    WordCount(b.len) <= |b.data|
  }

  /** No bit is set past the end. */
  ghost predicate Clean(b: Bitmap) {
    forall i: nat :: b.len <= i ==> !At(b.data, i)
  }

  // ----------------------------------------------------------- the word layer

  function ResizeWords(data: seq<Word>, n: nat): (r: seq<Word>)
    ensures |r| == n
  {
    if n <= |data| then data[..n] else data + seq(n - |data|, _ => 0)
  }

  function WithBit(data: seq<Word>, i: nat, v: bool): (r: seq<Word>)
    requires i / 64 < |data|
    ensures |r| == |data|
  {
    var w := data[i / 64];
    data[i / 64 := if v then Or(w, Shl(1, i % 64)) else And(w, Not(Shl(1, i % 64)))]
  }

  function FillWords(data: seq<Word>, lo: nat, hi: nat, w: Word): (r: seq<Word>)
    requires lo <= hi <= |data|
    ensures |r| == |data|
    ensures forall k :: 0 <= k < |data| ==> r[k] == if lo <= k < hi then w else data[k]
  {
    data[..lo] + seq(hi - lo, _ => w) + data[hi..]
  }

  /** The three-mask form of `set_null_range`. */
  function RangeWords(data: seq<Word>, start: nat, end: nat): (r: seq<Word>)
    requires start <= end <= 64 * |data|
    ensures |r| == |data|
  {
    if start == end then data
    else
      var sw, sb, ew, eb := start / 64, start % 64, end / 64, end % 64;
      if sw == ew then data[sw := Or(data[sw], Shl(LowMask(eb - sb), sb))]
      else
        var first := data[sw := Or(data[sw], Shl(ONES, sb))];
        var full := FillWords(first, sw + 1, ew, ONES);
        if eb > 0 then full[ew := Or(full[ew], LowMask(eb))] else full
  }

  lemma AtResizeWords(data: seq<Word>, n: nat, i: nat)
    ensures At(ResizeWords(data, n), i) <==> i < 64 * n && At(data, i)
  {
    BitConstants(i % 64);
  }

  lemma AtWithBit(data: seq<Word>, i: nat, v: bool, j: nat)
    requires i / 64 < |data|
    ensures At(WithBit(data, i, v), j) == if j == i then v else At(data, j)
  {
    hide Bit, Or, And, Not, Shl;
    if j / 64 == i / 64 {
      var w, one := data[i / 64], Shl(1, i % 64);
      BitOne(i % 64, j % 64);
      BitOr(w, one, j % 64);
      BitAnd(w, Not(one), j % 64);
      BitNot(one, j % 64);
    }
  }

  lemma AtFillWords(data: seq<Word>, lo: nat, hi: nat, v: bool, j: nat)
    requires lo <= hi <= |data|
    ensures At(FillWords(data, lo, hi, if v then ONES else 0), j) == if 64 * lo <= j < 64 * hi then v else At(data, j)
  {
    hide Bit;
    BitConstants(j % 64);
  }

  /** Word `k` of `data` with every bit in [lo, hi) also set. */
  lemma AtOrWord(data: seq<Word>, k: nat, mask: Word, lo: nat, hi: nat, j: nat)
    requires k < |data| && lo <= hi <= 64
    requires forall i :: 0 <= i < 64 ==> (Bit(mask, i) <==> lo <= i < hi)
    ensures At(data[k := Or(data[k], mask)], j) <==> At(data, j) || 64 * k + lo <= j < 64 * k + hi
  {
    hide Bit, Or;
    if j / 64 == k {
      BitOr(data[k], mask, j % 64);
    }
  }

  lemma AtRangeInWord(data: seq<Word>, start: nat, end: nat, j: nat)
    requires start < end <= 64 * |data| && start / 64 == end / 64
    ensures At(RangeWords(data, start, end), j) <==> start <= j < end || At(data, j)
  {
    hide Bit, Or, Shl, LowMask;
    var sb, eb := start % 64, end % 64;
    var mask := Shl(LowMask(eb - sb), sb);
    forall i | 0 <= i < 64 ensures Bit(mask, i) <==> sb <= i < eb {
      BitShift(LowMask(eb - sb), sb, i);
      if sb <= i {
        BitLow(eb - sb, i - sb);
      }
    }
    AtOrWord(data, start / 64, mask, sb, eb, j);
  }

  lemma AtRangeAcross(data: seq<Word>, start: nat, end: nat, j: nat)
    requires start <= end <= 64 * |data| && start / 64 != end / 64
    ensures At(RangeWords(data, start, end), j) <==> start <= j < end || At(data, j)
  {
    hide Bit, Or, Shl, LowMask, At;
    var sw, sb, ew, eb := start / 64, start % 64, end / 64, end % 64;
    var first := data[sw := Or(data[sw], Shl(ONES, sb))];
    forall i | 0 <= i < 64 ensures Bit(Shl(ONES, sb), i) <==> sb <= i < 64 {
      BitHigh(sb, i);
    }
    AtOrWord(data, sw, Shl(ONES, sb), sb, 64, j);
    var full := FillWords(first, sw + 1, ew, ONES);
    AtFillWords(first, sw + 1, ew, true, j);
    if eb > 0 {
      forall i | 0 <= i < 64 ensures Bit(LowMask(eb), i) <==> 0 <= i < eb {
        BitLow(eb, i);
      }
      AtOrWord(full, ew, LowMask(eb), 0, eb, j);
    }
  }

  /** The mask form sets exactly the bits of [start, end) and keeps every other
      stored bit, for every position of the two word boundaries. */
  lemma AtRangeWords(data: seq<Word>, start: nat, end: nat, j: nat)
    requires start <= end <= 64 * |data|
    ensures At(RangeWords(data, start, end), j) <==> start <= j < end || At(data, j)
  {
    hide At, Bit;
    if start / 64 != end / 64 {
      AtRangeAcross(data, start, end, j);
    } else if start < end {
      AtRangeInWord(data, start, end, j);
    }
  }

  /** The bits of a range set one by one. */
  function OneByOne(data: seq<Word>, start: nat, end: nat): (r: seq<Word>)
    requires start <= end <= 64 * |data|
    ensures |r| == |data|
  {
    if start == end then data else WithBit(OneByOne(data, start, end - 1), end - 1, true)
  }

  lemma {:induction false} RangeIsOneByOne(data: seq<Word>, start: nat, end: nat, j: nat)
    requires start <= end <= 64 * |data|
    ensures At(RangeWords(data, start, end), j) == At(OneByOne(data, start, end), j)
    decreases end
  {
    hide WithBit, RangeWords, At, Bit;
    AtRangeWords(data, start, end, j);
    if start < end {
      AtWithBit(OneByOne(data, start, end - 1), end - 1, true, j);
      AtRangeWords(data, start, end - 1, j);
      RangeIsOneByOne(data, start, end - 1, j);
    }
  }

  // ------------------------------------------------------------ the operations

  datatype Command =
    | Reserve(newLen: nat)
    | Resize(newLen: nat)
    | Set(idx: nat, isNull: bool)
    | Push(isNull: bool)
    | SetNullRange(start: nat, end: nat)
    | Fill(isNull: bool)
    | Invert
    | Clear
    | AndWith(other: Bitmap)
    | OrWith(other: Bitmap)

  function Resized(b: Bitmap, n: nat): Bitmap {
    Bitmap(ResizeWords(b.data, WordCount(n)), n)
  }

  function NotWords(data: seq<Word>): seq<Word> {
    seq(|data|, i requires 0 <= i < |data| => Not(data[i]))
  }

  /** Word `i`, or 0 past the stored words. */
  function WordOr0(data: seq<Word>, i: nat): Word {
    if i < |data| then data[i] else 0
  }

  function Min(a: nat, b: nat): nat {
    if a <= b then a else b
  }

  function Max(a: nat, b: nat): nat {
    if a <= b then b else a
  }

  function Both(a: Bitmap, b: Bitmap): Bitmap {
    var len := Min(a.len, b.len);
    Bitmap(seq(WordCount(len), i requires 0 <= i => And(WordOr0(a.data, i), WordOr0(b.data, i))), len)
  }

  function Either(a: Bitmap, b: Bitmap): Bitmap {
    var len := Max(a.len, b.len);
    Bitmap(seq(WordCount(len), i requires 0 <= i => Or(WordOr0(a.data, i), WordOr0(b.data, i))), len)
  }

  /** A command with every word it touches in place; a range outside the bitmap
      panics before anything is written. */
  function Exec(b: Bitmap, c: Command): Bitmap
    requires Enough(b)
  {
    match c
    case Reserve(n) => if WordCount(n) > |b.data| then b.(data := ResizeWords(b.data, WordCount(n))) else b
    case Resize(n) => Resized(b, n)
    case Set(i, v) =>
      var g := if i >= b.len then Resized(b, i + 1) else b;
      g.(data := WithBit(g.data, i, v))
    case Push(v) =>
      var grown := if WordCount(b.len + 1) > |b.data| then b.data + [0] else b.data;
      Bitmap(if v then WithBit(grown, b.len, true) else grown, b.len + 1)
    case SetNullRange(s, e) => if s <= e <= b.len then b.(data := RangeWords(b.data, s, e)) else b
    case Fill(v) => b.(data := FillWords(b.data, 0, |b.data|, if v then ONES else 0))
    case Invert => b.(data := NotWords(b.data))
    case Clear => Bitmap([], 0)
    case AndWith(o) => Both(b, o)
    case OrWith(o) => Either(b, o)
  }

  // ------------------------------------------- the growable sequence of flags

  function Falses(n: nat): seq<bool> {
    seq(n, _ => false)
  }

  function FlagOr(v: seq<bool>, i: nat, d: bool): bool {
    if i < |v| then v[i] else d
  }

  /** Writing past the end appends non-null elements first. */
  function SpecExec(v: seq<bool>, c: Command): seq<bool> {
    match c
    case Reserve(_) => v
    case Resize(n) => if n <= |v| then v[..n] else v + Falses(n - |v|)
    case Set(i, x) => if i < |v| then v[i := x] else v + Falses(i - |v|) + [x]
    case Push(x) => v + [x]
    case SetNullRange(s, e) => if s <= e <= |v| then v[..s] + seq(e - s, _ => true) + v[e..] else v
    case Fill(x) => seq(|v|, _ => x)
    case Invert => seq(|v|, i requires 0 <= i < |v| => !v[i])
    case Clear => []
    case AndWith(o) =>
      seq(Min(|v|, o.len), i requires 0 <= i < Min(|v|, o.len) => v[i] && View(o)[i])
    case OrWith(o) =>
      seq(Max(|v|, o.len), i requires 0 <= i => FlagOr(v, i, false) || FlagOr(View(o), i, false))
  }

  /** No stray bit of `b` in [lo, hi). */
  ghost predicate ClearIn(b: Bitmap, lo: nat, hi: nat) {
    forall i: nat :: lo <= i < hi ==> !At(b.data, i)
  }

  /** The command makes no stray bit visible. */
  ghost predicate NoExposure(b: Bitmap, c: Command) {
    match c
    case Resize(n) => ClearIn(b, b.len, n)
    case Set(i, _) => ClearIn(b, b.len, i)
    case Push(v) => v || !At(b.data, b.len)
    case OrWith(o) =>
      && (forall i: nat :: b.len <= i < o.len && At(b.data, i) ==> At(o.data, i))
      && (forall i: nat :: o.len <= i < b.len && At(o.data, i) ==> At(b.data, i))
    case _ => true
  }

  /** The stored bit `i` after a command, from the stored bits before it. */
  ghost predicate BitAfter(b: Bitmap, c: Command, i: nat) {
    match c
    case Reserve(_) => At(b.data, i)
    case Resize(n) => i < 64 * WordCount(n) && At(b.data, i)
    case Set(k, v) => if i == k then v else (k < b.len || i < 64 * WordCount(k + 1)) && At(b.data, i)
    case Push(v) => (v && i == b.len) || At(b.data, i)
    case SetNullRange(s, e) => (s <= i < e <= b.len) || At(b.data, i)
    case Fill(v) => v && i < 64 * |b.data|
    case Invert => i < 64 * |b.data| && !At(b.data, i)
    case Clear => false
    case AndWith(o) => i < 64 * WordCount(Min(b.len, o.len)) && At(b.data, i) && At(o.data, i)
    case OrWith(o) => i < 64 * WordCount(Max(b.len, o.len)) && (At(b.data, i) || At(o.data, i))
  }

  lemma AtNotWords(data: seq<Word>, i: nat)
    ensures At(NotWords(data), i) <==> i < 64 * |data| && !At(data, i)
  {
    hide Bit, Not;
    if i / 64 < |data| {
      BitNot(data[i / 64], i % 64);
    }
  }

  lemma AtWordOr0(data: seq<Word>, i: nat)
    ensures Bit(WordOr0(data, i / 64), i % 64) == At(data, i)
  {
    hide Bit;
    BitConstants(i % 64);
  }

  lemma AtBothEither(a: Bitmap, b: Bitmap, i: nat)
    ensures At(Both(a, b).data, i) <==> BitAfter(a, AndWith(b), i)
    ensures At(Either(a, b).data, i) <==> BitAfter(a, OrWith(b), i)
  {
    hide Bit, And, Or;
    AtWordOr0(a.data, i);
    AtWordOr0(b.data, i);
    BitAnd(WordOr0(a.data, i / 64), WordOr0(b.data, i / 64), i % 64);
    BitOr(WordOr0(a.data, i / 64), WordOr0(b.data, i / 64), i % 64);
  }

  lemma AtGrow(data: seq<Word>, i: nat)
    ensures At(data + [0], i) == At(data, i)
  {
    hide Bit;
    BitConstants(i % 64);
  }

  /** Every stored bit after every command. */
  lemma AtExec(b: Bitmap, c: Command, i: nat)
    requires Enough(b)
    ensures At(Exec(b, c).data, i) <==> BitAfter(b, c, i)
  {
    hide At, WithBit, RangeWords, FillWords, ResizeWords, NotWords, Both, Either;
    match c
    case Reserve(n) =>
      AtResizeWords(b.data, WordCount(n), i);
      AtOutside(b.data, i);
    case Resize(n) => AtResizeWords(b.data, WordCount(n), i);
    case Set(k, v) =>
      var g := if k >= b.len then Resized(b, k + 1) else b;
      AtResizeWords(b.data, WordCount(k + 1), i);
      AtWithBit(g.data, k, v, i);
    case Push(v) =>
      var grown := if WordCount(b.len + 1) > |b.data| then b.data + [0] else b.data;
      AtGrow(b.data, i);
      AtWithBit(grown, b.len, true, i);
    case SetNullRange(s, e) =>
      if s <= e <= b.len {
        AtRangeWords(b.data, s, e, i);
      }
    case Fill(v) =>
      AtFillWords(b.data, 0, |b.data|, v, i);
      AtOutside(b.data, i);
    case Invert => AtNotWords(b.data, i);
    case Clear => AtOutside([], i);
    case AndWith(o) => AtBothEither(b, o, i);
    case OrWith(o) => AtBothEither(b, o, i);
  }

  lemma AtOutside(data: seq<Word>, i: nat)
    ensures i >= 64 * |data| ==> !At(data, i)
  {
  }

  // ---------------------------------------------------------------- refinement

  lemma ExecEnough(b: Bitmap, c: Command)
    requires Enough(b)
    ensures Enough(Exec(b, c)) && |SpecExec(View(b), c)| == Exec(b, c).len
  {
    hide At;
  }

  /** Flag `i` of the sequence agrees with the stored bit, stray bits aside. */
  lemma SpecFlag(b: Bitmap, c: Command, i: nat)
    requires Enough(b) && i < Exec(b, c).len
    ensures |SpecExec(View(b), c)| == Exec(b, c).len
    ensures NoExposure(b, c) ==> SpecExec(View(b), c)[i] == BitAfter(b, c, i)
  {
    hide At, RangeWords, FillWords, NotWords, WithBit, ResizeWords;
    ExecEnough(b, c);
  }

  /** A command does to the flags what it does to a sequence of booleans exactly
      when it makes no stray bit visible. */
  lemma StepExact(b: Bitmap, c: Command)
    requires Enough(b)
    ensures Enough(Exec(b, c))
    ensures View(Exec(b, c)) == SpecExec(View(b), c) <==> NoExposure(b, c)
  {
    hide At;
    ExecEnough(b, c);
    var v, spec := View(Exec(b, c)), SpecExec(View(b), c);
    if NoExposure(b, c) {
      forall i | 0 <= i < |v| ensures v[i] == spec[i] {
        AtExec(b, c, i);
        SpecFlag(b, c, i);
      }
    } else {
      var i := Exposed(b, c);
      AtExec(b, c, i);
      assert v[i] != spec[i];
    }
  }

  /** A stray bit that the command makes visible. */
  lemma Exposed(b: Bitmap, c: Command) returns (i: nat)
    requires Enough(b) && !NoExposure(b, c)
    ensures i < Exec(b, c).len && BitAfter(b, c, i)
    ensures |SpecExec(View(b), c)| == Exec(b, c).len && !SpecExec(View(b), c)[i]
  {
    hide At;
    match c
    case Resize(n) => i :| b.len <= i < n && At(b.data, i);
    case Set(k, _) => i :| b.len <= i < k && At(b.data, i);
    case Push(_) => i := b.len;
    case OrWith(o) =>
      if k: nat :| b.len <= k < o.len && At(b.data, k) && !At(o.data, k) {
        i := k;
      } else {
        i :| o.len <= i < b.len && At(o.data, i) && !At(b.data, i);
      }
  }

  /** The operand of AND and OR is clean too. */
  ghost predicate CleanOperand(c: Command) {
    c.AndWith? || c.OrWith? ==> Clean(c.other)
  }

  /** Which commands keep the tail clean: a shrinking resize must not cut inside a
      word that has a set bit past the cut, and setting or inverting whole words
      needs a bitmap that fills its words. */
  ghost predicate KeepsClean(b: Bitmap, c: Command) {
    match c
    case Resize(n) => ClearIn(b, n, 64 * WordCount(n))
    case Fill(v) => v ==> b.len == 64 * |b.data|
    case Invert => b.len == 64 * |b.data|
    case _ => true
  }

  lemma CleanExposesNothing(b: Bitmap, c: Command)
    requires Clean(b) && CleanOperand(c)
    ensures NoExposure(b, c)
  {
    hide At;
  }

  lemma StepClean(b: Bitmap, c: Command)
    requires Enough(b) && Clean(b) && CleanOperand(c)
    ensures Clean(Exec(b, c)) <==> KeepsClean(b, c)
  {
    hide At;
    var e := Exec(b, c);
    forall i: nat ensures At(e.data, i) <==> BitAfter(b, c, i) {
      AtExec(b, c, i);
    }
    if KeepsClean(b, c) {
      forall i: nat | e.len <= i ensures !At(e.data, i) {
        assert At(e.data, i) <==> BitAfter(b, c, i);
      }
    } else if c.Resize? {
      var i: nat :| c.newLen <= i < 64 * WordCount(c.newLen) && At(b.data, i);
      assert At(e.data, i);
    } else {
      assert !At(b.data, b.len);
      assert At(e.data, b.len) <==> BitAfter(b, c, b.len);
    }
  }

  /** Everything a command on one bitmap does, word by word and flag by flag. */
  lemma StepEffect(b: Bitmap, c: Command)
    requires Enough(b) && !c.AndWith? && !c.OrWith?
    ensures var e := Exec(b, c);
            && Enough(e)
            && (View(e) == SpecExec(View(b), c) <==> NoExposure(b, c))
            && (Clean(b) ==> View(e) == SpecExec(View(b), c) && (Clean(e) <==> KeepsClean(b, c)))
            && |View(e)| == e.len && forall i :: 0 <= i < e.len ==> View(e)[i] == BitAfter(b, c, i)
  {
    hide At, Exec, SpecExec, NoExposure, KeepsClean, BitAfter, Clean;
    StepExact(b, c);
    var e := Exec(b, c);
    forall i | 0 <= i < e.len ensures View(e)[i] == BitAfter(b, c, i) {
      AtExec(b, c, i);
    }
    if Clean(b) {
      CleanExposesNothing(b, c);
      StepClean(b, c);
    }
  }

  function Run(b: Bitmap, cs: seq<Command>): (r: Bitmap)
    requires Enough(b)
    ensures Enough(r)
  {
    if cs == [] then b
    else
      var r := Run(b, cs[..|cs| - 1]);
      ExecEnough(r, cs[|cs| - 1]);
      Exec(r, cs[|cs| - 1])
  }

  function SpecRun(v: seq<bool>, cs: seq<Command>): seq<bool> {
    if cs == [] then v else SpecExec(SpecRun(v, cs[..|cs| - 1]), cs[|cs| - 1])
  }

  ghost predicate CleanRun(b: Bitmap, cs: seq<Command>)
    requires Enough(b)
  {
    forall k :: 0 <= k < |cs| ==> CleanOperand(cs[k]) && KeepsClean(Run(b, cs[..k]), cs[k])
  }

  /** Over every run of commands that keep the tail clean, the bitmap is a growable
      sequence of booleans. */
  lemma {:induction false} RunRefines(b: Bitmap, cs: seq<Command>)
    requires Enough(b) && Clean(b) && CleanRun(b, cs)
    ensures Clean(Run(b, cs)) && View(Run(b, cs)) == SpecRun(View(b), cs)
    decreases |cs|
  {
    hide At, Clean, Exec, SpecExec, KeepsClean, CleanOperand, View;
    if cs != [] {
      var n := |cs| - 1;
      assert forall k :: 0 <= k < n ==> cs[..n][..k] == cs[..k];
      RunRefines(b, cs[..n]);
      var r := Run(b, cs[..n]);
      StepClean(r, cs[n]);
      CleanExposesNothing(r, cs[n]);
      StepExact(r, cs[n]);
    }
  }

  /** After the run and after each of its prefixes, the flags are those of the sequence. */
  ghost predicate AlwaysAgrees(b: Bitmap, cs: seq<Command>)
    requires Enough(b)
  {
    View(Run(b, cs)) == SpecRun(View(b), cs) && (cs != [] ==> AlwaysAgrees(b, cs[..|cs| - 1]))
  }

  /** No command of the run makes a stray bit visible. */
  ghost predicate NeverExposes(b: Bitmap, cs: seq<Command>)
    requires Enough(b)
  {
    cs != [] ==>
      var init := cs[..|cs| - 1];
      NeverExposes(b, init) && NoExposure(Run(b, init), cs[|cs| - 1])
  }

  /** From any bitmap, a run agrees with the growable sequence of booleans at every
      moment exactly when no command of it makes a stray bit visible. */
  lemma {:induction false} RunExact(b: Bitmap, cs: seq<Command>)
    requires Enough(b)
    ensures AlwaysAgrees(b, cs) <==> NeverExposes(b, cs)
    decreases |cs|
  {
    hide At, Exec, SpecExec, NoExposure, View;
    if cs != [] {
      var n := |cs| - 1;
      RunExact(b, cs[..n]);
      StepExact(Run(b, cs[..n]), cs[n]);
    }
  }

  /** Commands that keep the tail clean whatever the bitmap holds. */
  ghost predicate AlwaysClean(b: Bitmap, c: Command) {
    CleanOperand(c) && !c.Invert? && (c.Fill? ==> !c.isNull) && (c.Resize? ==> b.len <= c.newLen)
  }

  lemma AlwaysCleanKeeps(b: Bitmap, c: Command)
    requires Clean(b) && AlwaysClean(b, c)
    ensures KeepsClean(b, c)
  {
    hide At;
  }

  function WithLen(len: nat): Bitmap {
    Bitmap(seq(WordCount(len), _ => 0), len)
  }

  function AllNull(len: nat): Bitmap {
    Bitmap(seq(WordCount(len), _ => ONES), len)
  }

  lemma NewBitmaps(len: nat)
    ensures Enough(WithLen(len)) && Clean(WithLen(len)) && View(WithLen(len)) == Falses(len)
    ensures Enough(AllNull(len)) && View(AllNull(len)) == seq(len, _ => true)
    ensures Clean(AllNull(len)) <==> len % 64 == 0
  {
    hide Bit;
    forall i: nat ensures !At(WithLen(len).data, i) && (At(AllNull(len).data, i) <==> i < 64 * WordCount(len)) {
      BitConstants(i % 64);
    }
    if len % 64 != 0 {
      assert At(AllNull(len).data, len);
    }
  }

  /** A bitmap of one null element reports a pushed non-null element as null. */
  lemma PushExposesStrayBit()
    ensures View(Exec(AllNull(1), Push(false))) == [true, true]
  {
    hide At;
    NewBitmaps(1);
    var b := AllNull(1);
    StepExact(b, Push(false));
    AtExec(b, Push(false), 0);
    AtExec(b, Push(false), 1);
    AtAllNull(1);
  }

  lemma AtAllNull(i: nat)
    requires i < 64
    ensures At(AllNull(1).data, i)
  {
    BitConstants(i);
  }

  // ------------------------------------------------------------ boolean algebra

  /** `is_null`: out of bounds reads as null. */
  predicate IsNull(b: Bitmap, i: nat) {
    i >= b.len || At(b.data, i)
  }

  /** As long as no stray bit becomes visible, `is_null` answers from the growable sequence
      of booleans, and with null past its end. */
  lemma IsNullExact(b: Bitmap, cs: seq<Command>, i: nat)
    requires Enough(b) && NeverExposes(b, cs)
    ensures var v := SpecRun(View(b), cs); IsNull(Run(b, cs), i) <==> i >= |v| || v[i]
  {
    hide At, NeverExposes, Run, SpecRun;
    RunExact(b, cs);
    assert AlwaysAgrees(b, cs);
  }

  function Negated(b: Bitmap): Bitmap {
    b.(data := NotWords(b.data))
  }

  /** De Morgan and double negation on `is_null`, whatever lies past the end. */
  lemma BooleanAlgebra(a: Bitmap, b: Bitmap, i: nat)
    requires Enough(a) && Enough(b) && a.len == b.len
    ensures IsNull(Negated(Both(a, b)), i) == IsNull(Either(Negated(a), Negated(b)), i)
    ensures IsNull(Negated(Either(a, b)), i) == IsNull(Both(Negated(a), Negated(b)), i)
    ensures IsNull(Negated(Negated(a)), i) == IsNull(a, i)
    ensures IsNull(Both(a, b), i) <==> IsNull(a, i) && IsNull(b, i)
    ensures i < a.len ==> (IsNull(Negated(a), i) <==> !IsNull(a, i))
  {
    hide At, Both, Either, NotWords;
    BothLens(a, b);
    BothLens(Negated(a), Negated(b));
    AtBothEither(a, b, i);
    AtBothEither(Negated(a), Negated(b), i);
    AtNotWords(a.data, i);
    AtNotWords(b.data, i);
    AtNotWords(NotWords(a.data), i);
    AtNotWords(Both(a, b).data, i);
    AtNotWords(Either(a, b).data, i);
  }

  lemma BothLens(a: Bitmap, b: Bitmap)
    ensures Both(a, b).len == Min(a.len, b.len) && |Both(a, b).data| == WordCount(Both(a, b).len)
    ensures Either(a, b).len == Max(a.len, b.len) && |Either(a, b).data| == WordCount(Either(a, b).len)
    ensures |NotWords(a.data)| == |a.data|
  {
  }

  // ---------------------------------------------------------------- the queries

  function CountTrue(v: seq<bool>): nat {
    if v == [] then 0 else CountTrue(v[..|v| - 1]) + if v[|v| - 1] then 1 else 0
  }

  /** Set bits of a word below position `n`; `count_ones` for n = 64. */
  function OnesBelow(w: Word, n: nat): (k: nat)
    requires n <= 64
    ensures k <= n
  {
    if n == 0 then 0 else OnesBelow(w, n - 1) + if Bit(w, n - 1) then 1 else 0
  }

  function NullsBelow(data: seq<Word>, n: nat): (k: nat)
    ensures k <= n
  {
    if n == 0 then 0 else NullsBelow(data, n - 1) + if At(data, n - 1) then 1 else 0
  }

  lemma {:induction false} NullsBelowView(b: Bitmap, n: nat)
    requires n <= b.len
    ensures NullsBelow(b.data, n) == CountTrue(View(b)[..n])
  {
    hide At;
    if n > 0 {
      assert View(b)[..n][..n - 1] == View(b)[..n - 1];
      NullsBelowView(b, n - 1);
    }
  }

  lemma {:induction false} NullsInWord(data: seq<Word>, q: nat, r: nat)
    requires q < |data| && r <= 64
    ensures NullsBelow(data, 64 * q + r) == NullsBelow(data, 64 * q) + OnesBelow(data[q], r)
  {
    hide Bit;
    if r > 0 {
      NullsInWord(data, q, r - 1);
      assert (64 * q + r - 1) / 64 == q && (64 * q + r - 1) % 64 == r - 1;
    }
  }

  lemma {:induction false} OnesMasked(w: Word, r: nat, n: nat)
    requires r < 64 && n <= 64
    ensures OnesBelow(And(w, LowMask(r)), n) == OnesBelow(w, Min(n, r))
    decreases n
  {
    hide Bit, And, LowMask;
    if n > 0 {
      OnesMasked(w, r, n - 1);
      BitAnd(w, LowMask(r), n - 1);
      BitLow(r, n - 1);
    }
  }

  /** `null_count`: whole words by population count, then the masked last word. */
  method NullCount(b: Bitmap) returns (count: nat)
    requires Enough(b)
    ensures count == CountTrue(View(b)) <= b.len
  {
    hide Bit, And, LowMask, At;
    var full, rest := b.len / 64, b.len % 64;
    count := 0;
    for q := 0 to full
      invariant count == NullsBelow(b.data, 64 * q)
    {
      NullsInWord(b.data, q, 64);
      count := count + OnesBelow(b.data[q], 64);
    }
    if rest > 0 && full < |b.data| {
      OnesMasked(b.data[full], rest, 64);
      NullsInWord(b.data, full, rest);
      count := count + OnesBelow(And(b.data[full], LowMask(rest)), 64);
    }
    NullsBelowView(b, b.len);
    assert View(b)[..b.len] == View(b);
  }

  ghost predicate Increasing(r: seq<nat>) {
    forall i, j :: 0 <= i < j < |r| ==> r[i] < r[j]
  }

  /** `null_indices` (wanted = true) and `valid_indices` (wanted = false): the words
      in order, the 64 bits of each in order, positions below `len` only. */
  method Indices(b: Bitmap, wanted: bool) returns (r: seq<nat>)
    requires Enough(b)
    ensures Increasing(r)
    ensures forall i: nat :: i in r <==> i < b.len && View(b)[i] == wanted
  {
    hide Bit;
    r := [];
    for q := 0 to |b.data|
      invariant Increasing(r)
      invariant forall i: nat :: i in r <==> i < Min(64 * q, b.len) && At(b.data, i) == wanted
    {
      for k := 0 to 64
        invariant Increasing(r)
        invariant forall i: nat :: i in r <==> i < Min(64 * q + k, b.len) && At(b.data, i) == wanted
      {
        var idx := 64 * q + k;
        assert idx / 64 == q && idx % 64 == k;
        if idx < b.len && Bit(b.data[q], k) == wanted {
          assert forall i :: 0 <= i < |r| ==> r[i] in r;
          r := r + [idx];
        }
      }
    }
  }

  // ------------------------------------------------------------- the mutable bitmap

  class NullBitmap {
    var data: seq<Word>
    var len: nat

    function Value(): Bitmap
      reads this
    {
      Bitmap(data, len)
    }

    ghost predicate Valid()
      reads this
    {
      Enough(Value())
    }

    /** The flags a reader sees. */
    ghost function Flags(): seq<bool>
      reads this
    {
      View(Value())
    }

    ghost predicate CleanTail()
      reads this
    {
      Clean(Value())
    }

    /** The words changed by a command. A reader sees what the command does to a
        sequence of flags exactly when it makes no stray bit visible, and a clean tail
        stays clean exactly when the command keeps it. */
    twostate predicate Did(c: Command)
      reads this
    {
      && old(Valid()) && Valid() && Value() == Exec(old(Value()), c)
      && (Flags() == SpecExec(old(Flags()), c) <==> NoExposure(old(Value()), c))
      && (old(CleanTail()) ==> Flags() == SpecExec(old(Flags()), c) && (CleanTail() <==> KeepsClean(old(Value()), c)))
    }

    /** No element is null, and no bit past the end is set. */
    constructor WithLength(n: nat)
      ensures Valid() && Value() == WithLen(n) && Flags() == Falses(n) && CleanTail()
    {
      data := seq(WordCount(n), _ => 0);
      len := n;
      new;
      NewBitmaps(n);
    }

    /** Every element is null; bits past the end are set unless the last word is full. */
    constructor AllNulls(n: nat)
      ensures Valid() && Value() == AllNull(n) && Flags() == seq(n, _ => true) && (CleanTail() <==> n % 64 == 0)
    {
      data := seq(WordCount(n), _ => ONES);
      len := n;
      new;
      NewBitmaps(n);
    }

    /** Kept flags do not change; new ones are clear unless a stray bit was there. */
    method Resize(newLen: nat)
      requires Valid()
      modifies this
      ensures Did(Command.Resize(newLen))
      ensures len == newLen && forall i :: 0 <= i < newLen && i < old(len) ==> Flags()[i] == old(Flags())[i]
      ensures forall i :: old(len) <= i < newLen ==> Flags()[i] == At(old(data), i)
    {
      StepEffect(Value(), Command.Resize(newLen));
      data := ResizeWords(data, WordCount(newLen));
      len := newLen;
    }

    /** The element written is as asked for and, up to the old end, no other changes. */
    method Set(idx: nat, isNull: bool)
      requires Valid()
      modifies this
      ensures Did(Command.Set(idx, isNull))
      ensures len == Max(old(len), idx + 1) && Flags()[idx] == isNull
      ensures forall i :: 0 <= i < old(len) && i != idx ==> Flags()[i] == old(Flags())[i]
    {
      hide WithBit, At, SpecExec, NoExposure, KeepsClean;
      StepEffect(Value(), Command.Set(idx, isNull));
      if idx >= len {
        Resize(idx + 1);
      }
      WriteBit(idx, isNull);
    }

    method WriteBit(idx: nat, isNull: bool)
      requires idx / 64 < |data|
      modifies this
      ensures len == old(len) && data == WithBit(old(data), idx, isNull)
    {
      hide Or, And, Not, Shl;
      if isNull {
        data := data[idx / 64 := Or(data[idx / 64], Shl(1, idx % 64))];
      } else {
        data := data[idx / 64 := And(data[idx / 64], Not(Shl(1, idx % 64)))];
      }
    }

    /** One more element, null if asked for or if its bit was already set. */
    method Push(isNull: bool)
      requires Valid()
      modifies this
      ensures Did(Command.Push(isNull))
      ensures len == old(len) + 1 && Flags() == old(Flags()) + [isNull || At(old(data), old(len))]
    {
      hide WithBit, At, SpecExec, NoExposure, KeepsClean;
      StepEffect(Value(), Command.Push(isNull));
      var idx := len;
      len := len + 1;
      if WordCount(len) > |data| {
        data := data + [0];
      }
      if isNull {
        WriteBit(idx, true);
      }
    }

    /** Panics unless start <= end <= len. */
    method SetNullRange(start: nat, end: nat)
      requires Valid() && start <= end <= len
      modifies this
      ensures Did(Command.SetNullRange(start, end))
      ensures len == old(len)
      ensures forall i :: 0 <= i < len ==> Flags()[i] == (start <= i < end || old(Flags())[i])
    {
      StepEffect(Value(), Command.SetNullRange(start, end));
      SetRangeWords(start, end);
      hide RangeWords, At, SpecExec, NoExposure, KeepsClean, Clean;
    }

    method SetRangeWords(start: nat, end: nat)
      requires start <= end <= 64 * |data|
      modifies this
      ensures len == old(len) && data == RangeWords(old(data), start, end)
    {
      hide Or, Shl, LowMask, FillWords;
      if start == end {
        return;
      }
      var sw, sb, ew, eb := start / 64, start % 64, end / 64, end % 64;
      if sw == ew {
        data := data[sw := Or(data[sw], Shl(LowMask(eb - sb), sb))];
      } else {
        data := data[sw := Or(data[sw], Shl(ONES, sb))];
        SetWholeWords(sw + 1, ew);
        if eb > 0 {
          data := data[ew := Or(data[ew], LowMask(eb))];
        }
      }
    }

    method SetWholeWords(lo: nat, hi: nat)
      requires lo <= hi <= |data|
      modifies this
      ensures len == old(len) && data == FillWords(old(data), lo, hi, ONES)
    {
      ghost var first := data;
      for k := lo to hi
        invariant len == old(len)
        invariant data == FillWords(first, lo, k, ONES)
      {
        data := data[k := ONES];
      }
    }

    /** Every element the same, whatever was stored. */
    method Fill(isNull: bool)
      requires Valid()
      modifies this
      ensures Did(Command.Fill(isNull))
      ensures Flags() == seq(old(len), _ => isNull)
    {
      StepEffect(Value(), Command.Fill(isNull));
      data := FillWords(data, 0, |data|, if isNull then ONES else 0);
    }

    /** Every element the other way round. */
    method Invert()
      requires Valid()
      modifies this
      ensures Did(Command.Invert)
      ensures len == old(len) && forall i :: 0 <= i < len ==> Flags()[i] == !old(Flags())[i]
    {
      hide Not, At, NoExposure, KeepsClean;
      StepEffect(Value(), Command.Invert);
      ghost var before := data;
      for k := 0 to |data|
        invariant |data| == |before| && len == old(len)
        invariant forall j :: 0 <= j < k ==> data[j] == Not(before[j])
        invariant forall j :: k <= j < |data| ==> data[j] == before[j]
      {
        data := data[k := Not(data[k])];
      }
      assert data == NotWords(before);
    }
  }

  /** `&a & &b` and `&a | &b`, word by word into a fresh bitmap. */
  method Combine(a: Bitmap, b: Bitmap, conjunction: bool) returns (r: Bitmap)
    ensures r == if conjunction then Both(a, b) else Either(a, b)
  {
    hide And, Or;
    r := WithLen(if conjunction then Min(a.len, b.len) else Max(a.len, b.len));
    ghost var spec := if conjunction then Both(a, b) else Either(a, b);
    for i := 0 to |r.data|
      invariant r.len == spec.len && |r.data| == |spec.data|
      invariant forall k :: 0 <= k < i ==> r.data[k] == spec.data[k]
    {
      var left, right := WordOr0(a.data, i), WordOr0(b.data, i);
      r := r.(data := r.data[i := if conjunction then And(left, right) else Or(left, right)]);
    }
  }
}
