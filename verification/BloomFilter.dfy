/**
 The Bloom filter, its byte form and its scalable variant. The key hash is any
 deterministic function of the key and a 32-bit seed, and the sizing of a new filter
 any function of the expected number of items.
 */
module BloomFilter {
  import opened Integers
  import opened Options
  import Murmur
  import Remainders

  type Key = seq<Byte>

  /** Key and seed to a 64-bit value; the code uses `Murmur.Hash`. */
  type Hash = (Key, bv32) -> bv64

  /** `bits` may be longer than `bitCount`: a restored filter keeps whole bytes. */
  datatype Filter = Filter(bits: seq<bool>, hashCount: nat, bitCount: nat, itemCount: nat)

  predicate Valid(f: Filter) {
    0 < f.bitCount <= |f.bits| <= 8 * ((f.bitCount + 7) / 8)
  }

  function Empty(bitCount: nat, hashCount: nat): Filter {
    Filter(seq(bitCount, _ => false), hashCount, bitCount, 0)
  }

  /** Position `i` of the probe sequence: double hashing in wrapping 64-bit
      arithmetic, then reduced to the filter. */
  function Probe(hash: Hash, key: Key, i: nat, bitCount: nat): (p: nat)
    requires 0 < bitCount
    ensures p < bitCount
  {
    var h1 := hash(key, 0);
    var h2 := hash(key, Murmur.Low(h1));
    Mix(Murmur.Value(h1), Murmur.Value(h2), i) % bitCount
  }

  /** `h1.wrapping_add(i.wrapping_mul(h2))` */
  function Mix(h1: nat, h2: nat, i: nat): nat {
    (h1 + i * h2) % U64
  }

  /** The first `n` probes of a key set. */
  function SetProbes(hash: Hash, f: Filter, key: Key, n: nat): (bits: seq<bool>)
    requires Valid(f)
    ensures |bits| == |f.bits|
  {
    if n == 0 then f.bits else SetProbes(hash, f, key, n - 1)[Probe(hash, key, n - 1, f.bitCount) := true]
  }

  function Inserted(hash: Hash, f: Filter, key: Key): (r: Filter)
    requires Valid(f)
    ensures Valid(r)
  {
    f.(bits := SetProbes(hash, f, key, f.hashCount), itemCount := f.itemCount + 1)
  }

  predicate MightContain(hash: Hash, f: Filter, key: Key)
    requires Valid(f)
  {
    forall i :: 0 <= i < f.hashCount ==> f.bits[Probe(hash, key, i, f.bitCount)]
  }

  function Max(a: nat, b: nat): nat {
    if a >= b then a else b
  }

  /** Filters of different sizes are left alone. */
  function Merged(f: Filter, other: Filter): (r: Filter)
    requires Valid(f) && Valid(other)
    ensures Valid(r)
  {
    if f.bitCount != other.bitCount then f
    else f.(
           bits := seq(|f.bits|, i requires 0 <= i < |f.bits| => f.bits[i] || (i < f.bitCount && other.bits[i])),
           itemCount := Max(f.itemCount, other.itemCount))
  }

  function Cleared(f: Filter): Filter {
    f.(bits := seq(|f.bits|, _ => false), itemCount := 0)
  }

  // ------------------------------------------------------------ the byte form

  function Le(n: nat, width: nat): (r: seq<Byte>)
    ensures |r| == width
  {
    if width == 0 then [] else [n % 256] + Le(n / 256, width - 1)
  }

  function FromLe(bytes: seq<Byte>): nat {
    if bytes == [] then 0 else bytes[0] + 256 * FromLe(bytes[1..])
  }

  /** Eight flags as a byte, lowest bit first; missing ones are clear. */
  function PackByte(bits: seq<bool>, width: nat): (r: nat)
    ensures r < Pow2(width)
  {
    if width == 0 then 0
    else 2 * PackByte(if bits == [] then [] else bits[1..], width - 1) + if bits != [] && bits[0] then 1 else 0
  }

  function UnpackByte(b: nat, width: nat): (r: seq<bool>)
    ensures |r| == width
  {
    if width == 0 then [] else [b % 2 == 1] + UnpackByte(b / 2, width - 1)
  }

  function Pow2(n: nat): (p: nat)
    ensures p >= 1
  {
    if n == 0 then 1 else 2 * Pow2(n - 1)
  }

  lemma BytePow()
    ensures Pow2(8) == 256
  {
  }

  /** The raw storage of the bit vector. */
  function Pack(bits: seq<bool>): (r: seq<Byte>)
    ensures |r| == (|bits| + 7) / 8
  {
    BytePow();
    if bits == [] then []
    else if |bits| <= 8 then [PackByte(bits, 8)]
    else [PackByte(bits[..8], 8)] + Pack(bits[8..])
  }

  function Unpack(bytes: seq<Byte>): (r: seq<bool>)
    ensures |r| == 8 * |bytes|
  {
    if bytes == [] then [] else UnpackByte(bytes[0], 8) + Unpack(bytes[1..])
  }

  function ToBytes(f: Filter): seq<Byte> {
    Le(f.bitCount, 8) + Le(f.hashCount, 8) + Le(f.itemCount, 8) + Pack(f.bits)
  }

  function FromBytes(data: seq<Byte>): Option<Filter> {
    if |data| < 24 then None
    else
      var bitCount, hashCount, itemCount := FromLe(data[0..8]), FromLe(data[8..16]), FromLe(data[16..24]);
      var raw := data[24..];
      var expected := (bitCount + 7) / 8;
      if |raw| < expected then None
      else Some(Filter(Unpack(raw[..expected]), hashCount, bitCount, itemCount))
  }

  // ---------------------------------------------------------------- membership

  lemma {:induction false} ProbesAreSet(hash: Hash, f: Filter, key: Key, n: nat)
    requires Valid(f)
    ensures var r := SetProbes(hash, f, key, n);
            && (forall k :: 0 <= k < |r| && f.bits[k] ==> r[k])
            && (forall i :: 0 <= i < n ==> r[Probe(hash, key, i, f.bitCount)])
            && (forall k :: 0 <= k < |r| && r[k] && !f.bits[k] ==>
                  exists i :: 0 <= i < n && Probe(hash, key, i, f.bitCount) == k)
  {
    hide Probe;
    if n > 0 {
      ProbesAreSet(hash, f, key, n - 1);
    }
  }

  /** Bits are only ever added. */
  ghost predicate Covers(f: Filter, g: Filter) {
    && f.bitCount == g.bitCount && |g.bits| >= f.bitCount && |f.bits| >= f.bitCount
    && forall k :: 0 <= k < f.bitCount && f.bits[k] ==> g.bits[k]
  }

  /** A filter with more bits and no more hash functions reports the same keys: the
      probe sequence of fewer hashes is a prefix of the longer one. */
  lemma CoversKeeps(hash: Hash, f: Filter, g: Filter, key: Key)
    requires Valid(f) && Valid(g) && Covers(f, g) && g.hashCount <= f.hashCount && MightContain(hash, f, key)
    ensures MightContain(hash, g, key)
  {
    hide Probe;
  }

  lemma InsertedReports(hash: Hash, f: Filter, key: Key)
    requires Valid(f)
    ensures MightContain(hash, Inserted(hash, f, key), key) && Covers(f, Inserted(hash, f, key))
  {
    hide Probe;
    ProbesAreSet(hash, f, key, f.hashCount);
  }

  // ---------------------------------------------------------------- round trip

  function Pad(bits: seq<bool>, n: nat): (r: seq<bool>)
    requires |bits| <= n
    ensures |r| == n && bits <= r
  {
    bits + seq(n - |bits|, _ => false)
  }

  function RoundUp(n: nat): (r: nat)
    ensures n <= r < n + 8
  {
    8 * ((n + 7) / 8)
  }

  /** The filter `from_bytes` gives back: the same one in whole bytes. */
  function Restored(f: Filter): (r: Filter)
    ensures Valid(f) ==> Valid(r)
  {
    f.(bits := Pad(f.bits, RoundUp(|f.bits|)))
  }

  function Pow256(n: nat): nat {
    if n == 0 then 1 else 256 * Pow256(n - 1)
  }

  lemma {:induction false} LeRoundTrip(n: nat, width: nat)
    requires n < Pow256(width)
    ensures FromLe(Le(n, width)) == n
    decreases width
  {
    if width > 0 {
      assert n / 256 < Pow256(width - 1);
      LeRoundTrip(n / 256, width - 1);
      assert Le(n, width)[1..] == Le(n / 256, width - 1);
    }
  }

  lemma WordWidth()
    ensures Pow256(8) == U64
  {
    assert Pow256(4) == 0x1_0000_0000;
  }

  lemma Halve(low: nat, bit: bool)
    ensures var b := 2 * low + if bit then 1 else 0; b / 2 == low && (b % 2 == 1 <==> bit)
  {
  }

  lemma PadCons(bits: seq<bool>, width: nat)
    requires |bits| <= width && width > 0
    ensures bits == [] ==> Pad(bits, width) == [false] + Pad([], width - 1)
    ensures bits != [] ==> Pad(bits, width) == [bits[0]] + Pad(bits[1..], width - 1)
  {
  }

  /** The lowest bit of a packed byte is the first flag, the rest the others. */
  lemma ByteStep(bits: seq<bool>, width: nat)
    requires width > 0
    ensures var b, rest := PackByte(bits, width), if bits == [] then [] else bits[1..];
            UnpackByte(b, width) == [bits != [] && bits[0]] + UnpackByte(PackByte(rest, width - 1), width - 1)
  {
    Halve(PackByte(if bits == [] then [] else bits[1..], width - 1), bits != [] && bits[0]);
  }

  lemma {:induction false} ByteRoundTrip(bits: seq<bool>, width: nat)
    requires |bits| <= width
    ensures UnpackByte(PackByte(bits, width), width) == Pad(bits, width)
    decreases width
  {
    hide UnpackByte, PackByte;
    if width == 0 {
      assert |UnpackByte(PackByte(bits, width), width)| == 0;
    } else {
      hide Pad;
      ByteStep(bits, width);
      PadCons(bits, width);
      ByteRoundTrip(if bits == [] then [] else bits[1..], width - 1);
    }
  }

  lemma {:induction false} PackRoundTrip(bits: seq<bool>)
    ensures Unpack(Pack(bits)) == Pad(bits, RoundUp(|bits|))
    decreases |bits|
  {
    if bits == [] {
    } else if |bits| <= 8 {
      ByteRoundTrip(bits, 8);
      assert Pack(bits)[1..] == [];
      assert UnpackByte(Pack(bits)[0], 8) + [] == Pad(bits, 8);
    } else {
      hide UnpackByte, PackByte;
      ByteRoundTrip(bits[..8], 8);
      PackRoundTrip(bits[8..]);
      var b := PackByte(bits[..8], 8);
      BytePow();
      assert Pack(bits) == [b] + Pack(bits[8..]);
      UnpackCons(b, Pack(bits[8..]));
      PadSplit(bits);
    }
  }

  lemma UnpackCons(b: Byte, bytes: seq<Byte>)
    ensures Unpack([b] + bytes) == UnpackByte(b, 8) + Unpack(bytes)
  {
    assert ([b] + bytes)[1..] == bytes;
  }

  lemma PadSplit(bits: seq<bool>)
    requires |bits| > 8
    ensures Pad(bits, RoundUp(|bits|)) == Pad(bits[..8], 8) + Pad(bits[8..], RoundUp(|bits[8..]|))
  {
  }

  /** Padding bits are clear, so they do not change a byte. */
  lemma {:induction false} PadByte(bits: seq<bool>, n: nat, width: nat)
    requires |bits| <= n
    ensures PackByte(Pad(bits, n), width) == PackByte(bits, width)
    decreases width
  {
    if width > 0 {
      var rest := if bits == [] then [] else bits[1..];
      var p := Pad(bits, n);
      if p != [] {
        PadByte(rest, n - 1, width - 1);
        assert p[1..] == Pad(rest, n - 1);
      }
    }
  }

  lemma {:induction false} PackPadded(bits: seq<bool>)
    ensures Pack(Pad(bits, RoundUp(|bits|))) == Pack(bits)
    decreases |bits|
  {
    var p := Pad(bits, RoundUp(|bits|));
    if 0 < |bits| <= 8 {
      PadByte(bits, 8, 8);
    } else if |bits| > 8 {
      PackPadded(bits[8..]);
      assert p[..8] == bits[..8] && p[8..] == Pad(bits[8..], RoundUp(|bits| - 8));
    }
  }

  ghost predicate Serialisable(f: Filter) {
    Valid(f) && f.bitCount < U64 && f.hashCount < U64 && f.itemCount < U64
  }

  lemma Sections(a: seq<Byte>, b: seq<Byte>, c: seq<Byte>, raw: seq<Byte>)
    requires |a| == |b| == |c| == 8
    ensures var data := a + b + c + raw;
            data[0..8] == a && data[8..16] == b && data[16..24] == c && data[24..] == raw
  {
  }

  lemma CountsRoundTrip(n: nat)
    requires n < U64
    ensures FromLe(Le(n, 8)) == n
  {
    WordWidth();
    LeRoundTrip(n, 8);
  }

  /** Reading back what was written gives a filter with the same counts that
      answers every query alike, and writing it again gives identical bytes. */
  lemma BytesRoundTrip(hash: Hash, f: Filter)
    requires Serialisable(f)
    ensures FromBytes(ToBytes(f)) == Some(Restored(f))
    ensures ToBytes(Restored(f)) == ToBytes(f)
    ensures forall key :: MightContain(hash, Restored(f), key) == MightContain(hash, f, key)
  {
    hide Le, FromLe, Pack, Unpack, Pad, MightContain;
    var raw := Pack(f.bits);
    Sections(Le(f.bitCount, 8), Le(f.hashCount, 8), Le(f.itemCount, 8), raw);
    CountsRoundTrip(f.bitCount);
    CountsRoundTrip(f.hashCount);
    CountsRoundTrip(f.itemCount);
    PackRoundTrip(f.bits);
    assert raw[..(f.bitCount + 7) / 8] == raw;
    PackPadded(f.bits);
    forall key {
      RestoredReports(hash, f, key);
    }
  }

  lemma RestoredReports(hash: Hash, f: Filter, key: Key)
    requires Valid(f)
    ensures MightContain(hash, Restored(f), key) == MightContain(hash, f, key)
  {
    hide Probe, Pad;
  }

  lemma {:induction false} FromLeRoundTrip(bytes: seq<Byte>)
    ensures Le(FromLe(bytes), |bytes|) == bytes
    decreases |bytes|
  {
    if bytes != [] {
      FromLeRoundTrip(bytes[1..]);
      LowByte(bytes[0], FromLe(bytes[1..]));
      assert bytes == [bytes[0]] + bytes[1..];
    }
  }

  lemma LowByte(b: Byte, rest: nat)
    ensures (b + 256 * rest) % 256 == b && (b + 256 * rest) / 256 == rest
  {
  }

  lemma {:induction false} UnpackByteRoundTrip(b: nat, width: nat)
    requires b < Pow2(width)
    ensures PackByte(UnpackByte(b, width), width) == b
    decreases width
  {
    if width > 0 {
      UnpackByteRoundTrip(b / 2, width - 1);
      assert UnpackByte(b, width)[1..] == UnpackByte(b / 2, width - 1);
    }
  }

  lemma {:induction false} UnpackRoundTrip(bytes: seq<Byte>)
    ensures Pack(Unpack(bytes)) == bytes
    decreases |bytes|
  {
    hide UnpackByte, PackByte, Pow2;
    if bytes != [] {
      BytePow();
      UnpackByteRoundTrip(bytes[0], 8);
      UnpackRoundTrip(bytes[1..]);
      var bits := Unpack(bytes);
      assert bits[..8] == UnpackByte(bytes[0], 8) && bits[8..] == Unpack(bytes[1..]);
      if |bytes| == 1 {
        assert bits[..8] == bits;
      }
      assert bytes == [bytes[0]] + bytes[1..];
    }
  }

  /** Of any byte string that is accepted, writing the filter again gives the header
      and the bytes that were needed; anything after them is ignored. */
  lemma AcceptedBytes(data: seq<Byte>)
    requires FromBytes(data).Some?
    ensures var f := FromBytes(data).value;
            ToBytes(f) == data[..24 + (f.bitCount + 7) / 8] && FromBytes(ToBytes(f)) == Some(f)
  {
    hide Le, FromLe, Pack, Unpack;
    var f := FromBytes(data).value;
    var expected := (f.bitCount + 7) / 8;
    var kept := data[..24 + expected];
    FromLeRoundTrip(data[0..8]);
    FromLeRoundTrip(data[8..16]);
    FromLeRoundTrip(data[16..24]);
    UnpackRoundTrip(data[24..][..expected]);
    assert kept == data[0..8] + data[8..16] + data[16..24] + data[24..][..expected];
    Sections(data[0..8], data[8..16], data[16..24], data[24..][..expected]);
    assert kept[24..][..expected] == data[24..][..expected];
  }

  // ------------------------------------------------------------------ histories

  datatype Event =
    | Insert(key: Key)
    | Merge(other: Filter, otherKeys: set<Key>)
    | Reserialise
    | Clear

  function Apply(hash: Hash, f: Filter, e: Event): (r: Filter)
    requires Valid(f) && (e.Merge? ==> Valid(e.other))
    ensures Valid(r) && r.bitCount == f.bitCount && r.hashCount == f.hashCount
  {
    match e
    case Insert(key) => Inserted(hash, f, key)
    case Merge(other, _) => Merged(f, other)
    case Reserialise => Restored(f)
    case Clear => Cleared(f)
  }

  predicate WellFormed(es: seq<Event>) {
    forall i :: 0 <= i < |es| && es[i].Merge? ==> Valid(es[i].other)
  }

  function Run(hash: Hash, f: Filter, es: seq<Event>): (r: Filter)
    requires Valid(f) && WellFormed(es)
    ensures Valid(r) && r.bitCount == f.bitCount && r.hashCount == f.hashCount
  {
    if es == [] then f else Apply(hash, Run(hash, f, es[..|es| - 1]), es[|es| - 1])
  }

  /** A merge brings over the other filter's keys when the sizes agree and this
      filter probes no more positions than the other. */
  predicate Transfers(f: Filter, other: Filter) {
    f.bitCount == other.bitCount && f.hashCount <= other.hashCount
  }

  /** The keys that must be reported after a history: those inserted or brought over
      by a merge since the last clear. */
  ghost function Known(f: Filter, es: seq<Event>): set<Key> {
    if es == [] then {}
    else
      var known, e := Known(f, es[..|es| - 1]), es[|es| - 1];
      match e
      case Insert(key) => known + {key}
      case Merge(other, keys) => if Transfers(f, other) then known + keys else known
      case Reserialise => known
      case Clear => {}
  }

  lemma MergedCovers(f: Filter, other: Filter)
    requires Valid(f) && Valid(other)
    ensures Covers(f, Merged(f, other))
    ensures f.bitCount == other.bitCount ==> Covers(other, Merged(f, other))
  {
  }

  /** No false negatives, over every history. */
  lemma {:induction false} NoFalseNegatives(hash: Hash, f: Filter, es: seq<Event>, key: Key)
    requires Valid(f) && WellFormed(es)
    requires forall i, k :: 0 <= i < |es| && es[i].Merge? && k in es[i].otherKeys ==> MightContain(hash, es[i].other, k)
    requires key in Known(f, es)
    ensures MightContain(hash, Run(hash, f, es), key)
    decreases |es|
  {
    hide MightContain, Covers, SetProbes, Pad;
    var init, e := es[..|es| - 1], es[|es| - 1];
    var g := Run(hash, f, init);
    if key in Known(f, init) && !e.Clear? {
      NoFalseNegatives(hash, f, init, key);
    }
    match e
    case Insert(k) =>
      InsertedReports(hash, g, k);
      if key != k {
        CoversKeeps(hash, g, Inserted(hash, g, k), key);
      }
    case Merge(other, keys) =>
      MergedCovers(g, other);
      if key in Known(f, init) {
        CoversKeeps(hash, g, Merged(g, other), key);
      } else {
        CoversKeeps(hash, other, Merged(g, other), key);
      }
    case Reserialise => RestoredReports(hash, g, key);
    case Clear =>
  }

  /** Whether a key inserted into a filter with `theirs` hashes survives a merge into
      an empty one of the same size with `ours` hashes. */
  ghost predicate Survives(hash: Hash, key: Key, bitCount: nat, ours: nat, theirs: nat)
    requires 0 < bitCount
  {
    MightContain(hash, Merged(Empty(bitCount, ours), Inserted(hash, Empty(bitCount, theirs), key)), key)
  }

  /** One of the first `n` probes of the key is position `p`. */
  ghost predicate Among(hash: Hash, key: Key, bitCount: nat, n: nat, p: nat)
    requires 0 < bitCount
  {
    exists j :: 0 <= j < n && Probe(hash, key, j, bitCount) == p
  }

  /** A key survives exactly when every position this filter looks at is one the other
      filter has set for it. */
  lemma SurvivesExactly(hash: Hash, key: Key, bitCount: nat, ours: nat, theirs: nat)
    requires 0 < bitCount
    ensures Survives(hash, key, bitCount, ours, theirs)
       <==> forall i :: 0 <= i < ours ==> Among(hash, key, bitCount, theirs, Probe(hash, key, i, bitCount))
  {
    hide Probe, SetProbes, Among;
    var f, other := Empty(bitCount, ours), Inserted(hash, Empty(bitCount, theirs), key);
    var merged := Merged(f, other);
    forall p | 0 <= p < bitCount ensures merged.bits[p] <==> Among(hash, key, bitCount, theirs, p) {
      SetExactly(hash, key, bitCount, theirs, p);
      assert merged.bits[p] == other.bits[p];
    }
  }

  lemma SetExactly(hash: Hash, key: Key, bitCount: nat, n: nat, p: nat)
    requires p < bitCount
    ensures Inserted(hash, Empty(bitCount, n), key).bits[p] <==> Among(hash, key, bitCount, n, p)
  {
    hide Probe, SetProbes;
    ProbesAreSet(hash, Empty(bitCount, n), key, n);
    if !Among(hash, key, bitCount, n, p) {
      MissedStaysClear(hash, Empty(bitCount, n), key, n, p);
    }
  }

  /** The hash of the code itself: the key of one zero byte, inserted with one probe
      into a filter of 64 bits, is lost when that is merged into a filter of two. */
  lemma MurmurLosesKey()
    ensures !Survives(Murmur.Hash, [0], 64, 2, 1)
  {
    Murmur.ZeroByteHashes();
    var h1, h2 := 0xb456bcfc34c2cb2c as bv64, 0x2ba37398ca694ff5 as bv64;
    assert Murmur.Value(h1) == 0xb456bcfc34c2cb2c && Murmur.Value(h2) == 0x2ba37398ca694ff5;
    assert Probe(Murmur.Hash, [0], 0, 64) == 44 by {
      assert Mix(0xb456bcfc34c2cb2c, 0x2ba37398ca694ff5, 0) == 0xb456bcfc34c2cb2c;
    }
    assert Probe(Murmur.Hash, [0], 1, 64) == 33 by {
      assert Mix(0xb456bcfc34c2cb2c, 0x2ba37398ca694ff5, 1) == 0xb456bcfc34c2cb2c + 0x2ba37398ca694ff5;
    }
    hide Probe, Survives;
    SurvivesExactly(Murmur.Hash, [0], 64, 2, 1);
    assert !Among(Murmur.Hash, [0], 64, 1, 33);
  }

  ghost predicate AllSurvive(bitCount: nat, ours: nat, theirs: nat)
    requires 0 < bitCount
  {
    forall hash: Hash, key :: Survives(hash, key, bitCount, ours, theirs)
  }

  /** When every key survives a merge, whatever the hash function: always if this filter
      probes no more positions than the other. If the size divides 2^64, probe sequences
      repeat after as many steps as there are bits, so it is also enough that the other
      filter probes that many. If not, the wrap-around of the hash arithmetic breaks
      the repetition and only the first condition helps. */
  lemma MergeNeedsFewerHashes(bitCount: nat, ours: nat, theirs: nat)
    requires 0 < bitCount < U64
    ensures ours <= theirs ==> AllSurvive(bitCount, ours, theirs)
    ensures theirs < bitCount ==> (AllSurvive(bitCount, ours, theirs) <==> ours <= theirs)
    ensures U64 % bitCount == 0 ==> (AllSurvive(bitCount, ours, theirs) <==> ours <= theirs || bitCount <= theirs)
    ensures U64 % bitCount != 0 && theirs * bitCount <= U64 ==> (AllSurvive(bitCount, ours, theirs) <==> ours <= theirs)
  {
    hide Survives;
    if ours <= theirs || (U64 % bitCount == 0 && bitCount <= theirs) {
      forall hash: Hash, key ensures Survives(hash, key, bitCount, ours, theirs) {
        KeyIsCovered(hash, key, bitCount, ours, theirs);
      }
    } else if theirs < bitCount {
      LostKey(bitCount, ours, theirs);
    } else if theirs * bitCount <= U64 {
      LostAtWrap(bitCount, ours, theirs);
    }
  }

  lemma KeyIsCovered(hash: Hash, key: Key, bitCount: nat, ours: nat, theirs: nat)
    requires 0 < bitCount && (ours <= theirs || (U64 % bitCount == 0 && bitCount <= theirs))
    ensures Survives(hash, key, bitCount, ours, theirs)
  {
    hide Probe, Survives;
    SurvivesExactly(hash, key, bitCount, ours, theirs);
    forall i | 0 <= i < ours ensures Among(hash, key, bitCount, theirs, Probe(hash, key, i, bitCount)) {
      if i >= theirs {
        ProbeRepeats(hash, key, i, bitCount);
        assert 0 <= i % bitCount < theirs;
      }
    }
  }

  lemma ProbeRepeats(hash: Hash, key: Key, i: nat, bitCount: nat)
    requires 0 < bitCount && U64 % bitCount == 0
    ensures Probe(hash, key, i, bitCount) == Probe(hash, key, i % bitCount, bitCount)
  {
    hide Mix;
    var h1 := hash(key, 0);
    var h2 := hash(key, Murmur.Low(h1));
    MixRepeats(Murmur.Value(h1), Murmur.Value(h2), i, bitCount);
  }

  lemma MixRepeats(h1: nat, h2: nat, i: nat, m: nat)
    requires 0 < m && U64 % m == 0
    ensures Mix(h1, h2, i) % m == Mix(h1, h2, i % m) % m
  {
    Remainders.Spread(i, h2, m);
    Remainders.Apart(h1 + i % m * h2, h1 + i * h2, i / m * h2, U64, m);
  }

  function ConstantHash(): Hash {
    (key: Key, seed: bv32) => 1
  }

  lemma ConstantProbe(i: nat, bitCount: nat)
    requires i < bitCount < U64
    ensures Probe(ConstantHash(), [], i, bitCount) == if i + 1 < bitCount then i + 1 else 0
  {
    assert Murmur.Value(1) == 1;
    assert Mix(1, 1, i) == i + 1;
    SmallRemainder(i + 1, bitCount);
  }

  lemma SmallRemainder(n: nat, m: nat)
    requires 0 < m && n <= m
    ensures n % m == if n < m then n else 0
  {
    if n == m {
      assert m == 1 * m + 0;
    }
  }

  lemma {:induction false} MissedStaysClear(hash: Hash, f: Filter, key: Key, n: nat, p: nat)
    requires Valid(f) && p < |f.bits| && !f.bits[p]
    requires forall i :: 0 <= i < n ==> Probe(hash, key, i, f.bitCount) != p
    ensures !SetProbes(hash, f, key, n)[p]
  {
    hide Probe;
    if n > 0 {
      MissedStaysClear(hash, f, key, n - 1, p);
    }
  }

  lemma LostKey(bitCount: nat, ours: nat, theirs: nat)
    requires theirs < bitCount < U64 && theirs < ours
    ensures !Survives(ConstantHash(), [], bitCount, ours, theirs)
  {
    hide Probe, ConstantHash, Survives;
    var p := Probe(ConstantHash(), [], theirs, bitCount);
    ConstantProbe(theirs, bitCount);
    forall i | 0 <= i < theirs ensures Probe(ConstantHash(), [], i, bitCount) != p {
      ConstantProbe(i, bitCount);
    }
    assert !Among(ConstantHash(), [], bitCount, theirs, p);
    SurvivesExactly(ConstantHash(), [], bitCount, ours, theirs);
  }

  /** A key whose probes stay in place until the sum of the hashes wraps around. */
  function WrapHash(start: nat, step: nat): Hash {
    (key: Key, seed: bv32) => if seed == 0 then Murmur.WordOf(start) else Murmur.WordOf(step)
  }

  /** Of two neighbours the odd one, which is not taken for the first seed again. */
  function WrapStart(bitCount: nat, theirs: nat): nat
    requires theirs * bitCount <= U64
  {
    var start := U64 - theirs * bitCount;
    if start % 2 == 0 then start + 1 else start
  }

  lemma WrapStarts(bitCount: nat, theirs: nat)
    requires 3 <= bitCount && 1 <= theirs && theirs * bitCount <= U64
    ensures var start := WrapStart(bitCount, theirs);
            start < U64 && start % 2 == 1 && U64 <= start + theirs * bitCount <= U64 + 1
  {
    assert theirs * bitCount >= 3;
  }

  lemma WrapProbeIs(start: nat, bitCount: nat, i: nat)
    requires 0 < bitCount < U64 && start < U64 && start % 2 == 1
    ensures Probe(WrapHash(start, bitCount), [], i, bitCount) == (start + i * bitCount) % U64 % bitCount
  {
    assert Mix(start, bitCount, i) == (start + i * bitCount) % U64;
    hide Mix, Murmur.WordOf, Murmur.Value, Murmur.Low;
    Murmur.WordValue(start);
    Murmur.WordValue(bitCount);
    Murmur.OddLow(start);
    WrapHashes(start, bitCount);
  }

  lemma WrapHashes(start: nat, step: nat)
    requires Murmur.Low(Murmur.WordOf(start)) != 0
    ensures var hash := WrapHash(start, step);
            && hash([], 0) == Murmur.WordOf(start)
            && hash([], Murmur.Low(Murmur.WordOf(start))) == Murmur.WordOf(step)
  {
    hide Murmur.WordOf, Murmur.Low;
  }

  lemma WrapProbe(bitCount: nat, theirs: nat, i: nat)
    requires 3 <= bitCount < U64 && 1 <= theirs && theirs * bitCount <= U64 && i <= theirs
    ensures var start := WrapStart(bitCount, theirs);
            Probe(WrapHash(start, bitCount), [], i, bitCount) ==
            if i < theirs then start % bitCount else start + theirs * bitCount - U64
  {
    hide Probe, WrapHash, WrapStart;
    WrapStarts(bitCount, theirs);
    var start := WrapStart(bitCount, theirs);
    WrapProbeIs(start, bitCount, i);
    if i < theirs {
      Remainders.Steps(i, theirs, bitCount);
      Remainders.Small(start + i * bitCount, U64);
      Remainders.DropMultiples(start, i, bitCount);
    } else {
      var t := start + theirs * bitCount - U64;
      Remainders.Of(U64 + t, 1, t, U64);
      Remainders.Small(t, bitCount);
    }
  }

  lemma LostAtWrap(bitCount: nat, ours: nat, theirs: nat)
    requires 0 < bitCount < U64 && U64 % bitCount != 0
    requires 1 <= theirs < ours && theirs * bitCount <= U64
    ensures !Survives(WrapHash(WrapStart(bitCount, theirs), bitCount), [], bitCount, ours, theirs)
  {
    hide Probe, Survives, WrapHash, WrapStart;
    assert 3 <= bitCount;
    WrapStarts(bitCount, theirs);
    var start := WrapStart(bitCount, theirs);
    var hash := WrapHash(start, bitCount);
    var p := Probe(hash, [], theirs, bitCount);
    WrapProbe(bitCount, theirs, theirs);
    assert start % bitCount != p by {
      var t := start + theirs * bitCount - U64;
      Remainders.DropMultiples(start, theirs, bitCount);
      if start % bitCount == t {
        Remainders.TellApart(U64, t, bitCount);
      }
    }
    forall i | 0 <= i < theirs ensures Probe(hash, [], i, bitCount) != p {
      WrapProbe(bitCount, theirs, i);
    }
    assert !Among(hash, [], bitCount, theirs, p);
    SurvivesExactly(hash, [], bitCount, ours, theirs);
  }

  // --------------------------------------------------------- exact membership

  function InsertAll(hash: Hash, f: Filter, keys: seq<Key>): (r: Filter)
    requires Valid(f)
    ensures Valid(r) && r.bitCount == f.bitCount && r.hashCount == f.hashCount && |r.bits| == |f.bits|
  {
    if keys == [] then f else Inserted(hash, InsertAll(hash, f, keys[..|keys| - 1]), keys[|keys| - 1])
  }

  /** Some key in the list probes position `p`. */
  ghost predicate Lit(hash: Hash, keys: seq<Key>, hashCount: nat, bitCount: nat, p: nat)
    requires 0 < bitCount
  {
    exists j, i :: 0 <= j < |keys| && 0 <= i < hashCount && Probe(hash, keys[j], i, bitCount) == p
  }

  lemma {:induction false} BitsAreLit(hash: Hash, bitCount: nat, hashCount: nat, keys: seq<Key>, p: nat)
    requires p < bitCount
    ensures InsertAll(hash, Empty(bitCount, hashCount), keys).bits[p] <==> Lit(hash, keys, hashCount, bitCount, p)
    decreases |keys|
  {
    hide Probe;
    if keys != [] {
      var n := |keys| - 1;
      var f := InsertAll(hash, Empty(bitCount, hashCount), keys[..n]);
      BitsAreLit(hash, bitCount, hashCount, keys[..n], p);
      ProbesAreSet(hash, f, keys[n], hashCount);
      if Lit(hash, keys[..n], hashCount, bitCount, p) {
        var j, i :| 0 <= j < n && 0 <= i < hashCount && Probe(hash, keys[..n][j], i, bitCount) == p;
        assert Probe(hash, keys[j], i, bitCount) == p;
      }
      if Lit(hash, keys, hashCount, bitCount, p) {
        var j, i :| 0 <= j < |keys| && 0 <= i < hashCount && Probe(hash, keys[j], i, bitCount) == p;
        assert j < n ==> keys[..n][j] == keys[j];
      }
    }
  }

  /** A filter reports a key exactly when each of its probes hits a probe of some
      inserted key. */
  lemma ReportsExactly(hash: Hash, bitCount: nat, hashCount: nat, keys: seq<Key>, key: Key)
    requires 0 < bitCount
    ensures MightContain(hash, InsertAll(hash, Empty(bitCount, hashCount), keys), key)
       <==> forall i :: 0 <= i < hashCount ==> Lit(hash, keys, hashCount, bitCount, Probe(hash, key, i, bitCount))
  {
    hide Probe, Lit;
    var f := InsertAll(hash, Empty(bitCount, hashCount), keys);
    forall p | 0 <= p < bitCount ensures f.bits[p] <==> Lit(hash, keys, hashCount, bitCount, p) {
      BitsAreLit(hash, bitCount, hashCount, keys, p);
    }
  }

  // ------------------------------------------------------- the mutable filter

  class Bloom {
    const hash: Hash
    var f: Filter

    constructor (hash: Hash, bitCount: nat, hashCount: nat)
      requires 0 < bitCount
      ensures this.hash == hash && Valid(f) && f == Empty(bitCount, hashCount)
    {
      this.hash := hash;
      f := Empty(bitCount, hashCount);
    }

    method Insert(key: Key)
      requires Valid(f)
      modifies this
      ensures Valid(f) && f == Inserted(hash, old(f), key)
      ensures MightContain(hash, f, key)
    {
      ghost var before := f;
      for i := 0 to f.hashCount
        invariant Valid(f) && f == before.(bits := SetProbes(hash, before, key, i))
      {
        f := f.(bits := f.bits[Probe(hash, key, i, f.bitCount) := true]);
      }
      f := f.(itemCount := f.itemCount + 1);
      InsertedReports(hash, before, key);
    }

    method Contains(key: Key) returns (r: bool)
      requires Valid(f)
      ensures r == MightContain(hash, f, key)
    {
      for i := 0 to f.hashCount
        invariant forall k :: 0 <= k < i ==> f.bits[Probe(hash, key, k, f.bitCount)]
      {
        if !f.bits[Probe(hash, key, i, f.bitCount)] {
          return false;
        }
      }
      r := true;
    }

    method MergeFrom(other: Filter)
      requires Valid(f) && Valid(other)
      modifies this
      ensures Valid(f) && f == Merged(old(f), other)
    {
      if f.bitCount != other.bitCount {
        return;
      }
      ghost var before := f;
      for i := 0 to f.bitCount
        invariant |f.bits| == |before.bits| && f == before.(bits := f.bits)
        invariant forall k :: 0 <= k < i ==> f.bits[k] == (before.bits[k] || other.bits[k])
        invariant forall k :: i <= k < |f.bits| ==> f.bits[k] == before.bits[k]
      {
        if other.bits[i] {
          f := f.(bits := f.bits[i := true]);
        }
      }
      f := f.(itemCount := Max(f.itemCount, other.itemCount));
      assert f.bits == Merged(before, other).bits;
    }
  }

  // ------------------------------------------------------- the scalable filter

  /** Bits for the expected items and the generation of a filter (its false-positive rate
      is tightened with every generation), and hashes for those bits and items. */
  datatype Sizing = Sizing(bits: (nat, nat) -> nat, hashes: (nat, nat) -> nat)

  const MIN_BITS := 64

  const MAX_HASHES := 20

  /** `BloomFilter::new`: at least 64 bits and between 1 and 20 hashes. */
  function NewFilter(sizing: Sizing, capacity: nat, generation: nat): (f: Filter)
    ensures f == Empty(f.bitCount, f.hashCount)
    ensures 64 <= f.bitCount && 1 <= f.hashCount <= 20
    ensures capacity == 0 ==> f.bitCount == 1024 && f.hashCount == 3
    ensures capacity > 0 ==>
              var bits := sizing.bits(capacity, generation);
              if bits < 64 then f.bitCount == 64 else f.bitCount == bits
    ensures capacity > 0 ==>
              var hashes := sizing.hashes(f.bitCount, capacity);
              && (hashes < 1 ==> f.hashCount == 1) && (hashes > 20 ==> f.hashCount == 20)
              && (1 <= hashes <= 20 ==> f.hashCount == hashes)
  {
    if capacity == 0 then Empty(1024, 3)
    else
      var bits := Max(sizing.bits(capacity, generation), MIN_BITS);
      var hashes := sizing.hashes(bits, capacity);
      Empty(bits, if hashes < 1 then 1 else if hashes > MAX_HASHES then MAX_HASHES else hashes)
  }

  datatype Scalable = Scalable(filters: seq<Filter>, capacity: nat)

  predicate ValidScalable(s: Scalable) {
    s.filters != [] && forall i :: 0 <= i < |s.filters| ==> Valid(s.filters[i])
  }

  function NewScalable(sizing: Sizing, capacity: nat): (s: Scalable)
    ensures ValidScalable(s)
  {
    Scalable([NewFilter(sizing, capacity, 0)], capacity)
  }

  /** A full last filter is followed by one of twice its capacity. */
  function Grown(sizing: Sizing, s: Scalable): (r: Scalable)
    requires ValidScalable(s)
    ensures ValidScalable(r)
  {
    if s.filters[|s.filters| - 1].itemCount >= s.capacity then
      Scalable(s.filters + [NewFilter(sizing, 2 * s.capacity, |s.filters|)], 2 * s.capacity)
    else s
  }

  function ScalableInsert(hash: Hash, sizing: Sizing, s: Scalable, key: Key): (r: Scalable)
    requires ValidScalable(s)
    ensures ValidScalable(r)
  {
    var g := Grown(sizing, s);
    var last := |g.filters| - 1;
    g.(filters := g.filters[last := Inserted(hash, g.filters[last], key)])
  }

  function ScalableRun(hash: Hash, sizing: Sizing, capacity: nat, keys: seq<Key>): (r: Scalable)
    ensures ValidScalable(r)
  {
    if keys == [] then NewScalable(sizing, capacity)
    else ScalableInsert(hash, sizing, ScalableRun(hash, sizing, capacity, keys[..|keys| - 1]), keys[|keys| - 1])
  }

  predicate ScalableContains(hash: Hash, s: Scalable, key: Key)
    requires ValidScalable(s)
  {
    exists i :: 0 <= i < |s.filters| && MightContain(hash, s.filters[i], key)
  }

  function Total(filters: seq<Filter>): nat {
    if filters == [] then 0 else Total(filters[..|filters| - 1]) + filters[|filters| - 1].itemCount
  }

  lemma TotalSnoc(fs: seq<Filter>, f: Filter)
    ensures Total(fs + [f]) == Total(fs) + f.itemCount
  {
    assert (fs + [f])[..|fs|] == fs;
  }

  /** An insert makes the key reported, keeps every key reported before, and is counted
      once, whether or not it opens a filter. */
  lemma ScalableStep(hash: Hash, sizing: Sizing, s: Scalable, key: Key)
    requires ValidScalable(s)
    ensures var r := ScalableInsert(hash, sizing, s, key);
            && ScalableContains(hash, r, key)
            && (forall k :: ScalableContains(hash, s, k) ==> ScalableContains(hash, r, k))
            && Total(r.filters) == Total(s.filters) + 1
  {
    hide MightContain, Probe, SetProbes, NewFilter, Total;
    var g, r := Grown(sizing, s), ScalableInsert(hash, sizing, s, key);
    var last := |g.filters| - 1;
    InsertedReports(hash, g.filters[last], key);
    assert MightContain(hash, r.filters[last], key);
    forall k | ScalableContains(hash, s, k) ensures ScalableContains(hash, r, k) {
      var i :| 0 <= i < |s.filters| && MightContain(hash, s.filters[i], k);
      if i == last {
        CoversKeeps(hash, g.filters[last], r.filters[last], k);
      }
      assert MightContain(hash, r.filters[i], k);
    }
    assert g.filters == g.filters[..last] + [g.filters[last]] && r.filters == g.filters[..last] + [r.filters[last]];
    TotalSnoc(g.filters[..last], g.filters[last]);
    TotalSnoc(g.filters[..last], r.filters[last]);
    if g != s {
      TotalSnoc(s.filters, g.filters[last]);
    }
  }

  lemma {:induction false} ScalableReports(hash: Hash, sizing: Sizing, capacity: nat, keys: seq<Key>, j: nat)
    requires j < |keys|
    ensures ScalableContains(hash, ScalableRun(hash, sizing, capacity, keys), keys[j])
    decreases |keys|
  {
    hide ScalableContains, ScalableInsert;
    var n := |keys| - 1;
    ScalableStep(hash, sizing, ScalableRun(hash, sizing, capacity, keys[..n]), keys[n]);
    if j < n {
      ScalableReports(hash, sizing, capacity, keys[..n], j);
    }
  }

  /** Capacity of filter `k` for initial capacity `c`: c * 2^k. */
  function Capacity(c: nat, k: nat): nat {
    c * Pow2(k)
  }

  lemma CapacityDoubles(c: nat, k: nat)
    ensures Capacity(c, 0) == c && Capacity(c, k + 1) == 2 * Capacity(c, k) && Capacity(c, k) >= c
  {
    assert c * Pow2(k) >= c * 1;
  }

  /** Filter sizes: every filter but the last is full, with doubling capacities. */
  ghost predicate Doubling(s: Scalable, c: nat) {
    && s.filters != []
    && s.capacity == Capacity(c, |s.filters| - 1)
    && (forall i :: 0 <= i < |s.filters| - 1 ==> s.filters[i].itemCount == Capacity(c, i))
    && s.filters[|s.filters| - 1].itemCount <= s.capacity
    && (|s.filters| >= 2 ==> s.filters[|s.filters| - 1].itemCount >= 1)
  }

  lemma {:induction false} TotalPrefix(s: Scalable, c: nat, k: nat)
    requires k < |s.filters|
    requires forall i :: 0 <= i < k ==> s.filters[i].itemCount == Capacity(c, i)
    ensures Total(s.filters[..k]) == Capacity(c, k) - c
  {
    hide Capacity;
    CapacityDoubles(c, k);
    if k > 0 {
      TotalPrefix(s, c, k - 1);
      CapacityDoubles(c, k - 1);
      assert s.filters[..k][..k - 1] == s.filters[..k - 1];
    }
  }

  /** After n inserts into a scalable filter of initial capacity c >= 1 that now has
      m filters: the lengths add up to n, every filter but the last holds exactly
      c * 2^i items, and n lies between the capacities of m - 1 and m filters. */
  lemma {:induction false} ScalableGrowth(hash: Hash, sizing: Sizing, c: nat, keys: seq<Key>)
    requires c >= 1
    ensures var s := ScalableRun(hash, sizing, c, keys);
            var m := |s.filters|;
            && Doubling(s, c)
            && Total(s.filters) == |keys|
            && |keys| <= Capacity(c, m) - c
            && (m >= 2 ==> Capacity(c, m - 1) - c < |keys|)
    decreases |keys|
  {
    hide Inserted, Capacity, NewFilter;
    var s := ScalableRun(hash, sizing, c, keys);
    if keys == [] {
      CapacityDoubles(c, 0);
    } else {
      ScalableGrowth(hash, sizing, c, keys[..|keys| - 1]);
      GrowthStep(hash, sizing, ScalableRun(hash, sizing, c, keys[..|keys| - 1]), c, keys[|keys| - 1]);
    }
    TotalPrefix(s, c, |s.filters| - 1);
    CapacityDoubles(c, |s.filters| - 1);
  }

  lemma GrowthStep(hash: Hash, sizing: Sizing, t: Scalable, c: nat, key: Key)
    requires ValidScalable(t) && c >= 1 && Doubling(t, c)
    ensures Doubling(ScalableInsert(hash, sizing, t, key), c)
    ensures Total(ScalableInsert(hash, sizing, t, key).filters) == Total(t.filters) + 1
  {
    hide SetProbes, NewFilter, Capacity;
    var k := |t.filters|;
    var s := ScalableInsert(hash, sizing, t, key);
    CapacityDoubles(c, k);
    CapacityDoubles(c, k - 1);
    if t.filters[k - 1].itemCount >= t.capacity {
      assert s.filters[..k] == t.filters;
    } else {
      assert s.filters[..k - 1] == t.filters[..k - 1];
    }
  }

  class ScalableBloom {
    const hash: Hash
    const sizing: Sizing
    var s: Scalable

    constructor (hash: Hash, sizing: Sizing, capacity: nat)
      ensures this.hash == hash && this.sizing == sizing && ValidScalable(s) && s == NewScalable(sizing, capacity)
    {
      this.hash, this.sizing := hash, sizing;
      s := NewScalable(sizing, capacity);
    }

    /** The key is reported from now on, no key is forgotten, and the length grows by
        one. */
    method Insert(key: Key)
      requires ValidScalable(s)
      modifies this
      ensures ValidScalable(s) && s == ScalableInsert(hash, sizing, old(s), key)
      ensures ScalableContains(hash, s, key) && Total(s.filters) == Total(old(s).filters) + 1
      ensures forall k :: ScalableContains(hash, old(s), k) ==> ScalableContains(hash, s, k)
    {
      hide ScalableContains, Total;
      ScalableStep(hash, sizing, s, key);
      if s.filters[|s.filters| - 1].itemCount >= s.capacity {
        var newCapacity := 2 * s.capacity;
        s := Scalable(s.filters + [NewFilter(sizing, newCapacity, |s.filters|)], newCapacity);
      }
      var last := |s.filters| - 1;
      s := s.(filters := s.filters[last := Inserted(hash, s.filters[last], key)]);
    }

    method Contains(key: Key) returns (r: bool)
      requires ValidScalable(s)
      ensures r == ScalableContains(hash, s, key)
    {
      for i := 0 to |s.filters|
        invariant forall k :: 0 <= k < i ==> !MightContain(hash, s.filters[k], key)
      {
        if MightContain(hash, s.filters[i], key) {
          return true;
        }
      }
      r := false;
    }

    method Length() returns (n: nat)
      ensures n == Total(s.filters)
    {
      n := 0;
      for i := 0 to |s.filters|
        invariant n == Total(s.filters[..i])
      {
        assert s.filters[..i + 1][..i] == s.filters[..i];
        n := n + s.filters[i].itemCount;
      }
      assert s.filters[..|s.filters|] == s.filters;
    }
  }
}
