/**
 What a Bloom filter holds, exactly: which bits are set after any history, where the
 scalable filter keeps each key, and which bit of which byte is which.
 */
module BloomExact {
  import opened Integers
  import opened Options
  import opened BloomFilter
  import Remainders

  // ----------------------------------------------------------------- histories

  /** No clear from event `i` on. */
  predicate Lasts(es: seq<Event>, i: nat) {
    forall j :: i <= j < |es| ==> es[j] != Clear
  }

  /** The event sets position `p`: a probe of the inserted key, or a bit of a merged
      filter of the same size. */
  ghost predicate Sets(hash: Hash, f: Filter, e: Event, p: nat)
    requires Valid(f) && (e.Merge? ==> Valid(e.other)) && p < f.bitCount
  {
    match e
    case Insert(key) => Among(hash, key, f.bitCount, f.hashCount, p)
    case Merge(other, _) => other.bitCount == f.bitCount && other.bits[p]
    case _ => false
  }

  ghost predicate SetAt(hash: Hash, f: Filter, es: seq<Event>, p: nat, i: nat)
    requires Valid(f) && WellFormed(es) && p < f.bitCount && i < |es|
  {
    Sets(hash, f, es[i], p) && Lasts(es, i)
  }

  /** Position `p` was set at the start or by an event, and no clear followed. */
  ghost predicate SetBy(hash: Hash, f: Filter, es: seq<Event>, p: nat)
    requires Valid(f) && WellFormed(es) && p < f.bitCount
  {
    (f.bits[p] && Lasts(es, 0)) || exists i: nat :: i < |es| && SetAt(hash, f, es, p, i)
  }

  lemma InsertedBit(hash: Hash, f: Filter, key: Key, p: nat)
    requires Valid(f) && p < f.bitCount
    ensures Inserted(hash, f, key).bits[p] <==> f.bits[p] || Among(hash, key, f.bitCount, f.hashCount, p)
  {
    hide Probe;
    ProbesAreSet(hash, f, key, f.hashCount);
  }

  /** What one event does to one bit. */
  lemma AppliedBit(hash: Hash, f: Filter, e: Event, p: nat)
    requires Valid(f) && (e.Merge? ==> Valid(e.other)) && p < f.bitCount
    ensures Apply(hash, f, e).bits[p] <==> e != Clear && (f.bits[p] || Sets(hash, f, e, p))
  {
    if e.Insert? {
      InsertedBit(hash, f, e.key, p);
    }
  }

  lemma LastsSnoc(es: seq<Event>, i: nat)
    requires i < |es|
    ensures var n := |es| - 1; Lasts(es, i) <==> es[n] != Clear && (i < n ==> Lasts(es[..n], i))
  {
    var n := |es| - 1;
    if es[n] != Clear && i < n && Lasts(es[..n], i) {
      forall j | i <= j < |es| ensures es[j] != Clear {
        assert j < n ==> es[j] == es[..n][j];
      }
    }
    if Lasts(es, i) && i < n {
      assert forall j :: i <= j < n ==> es[..n][j] == es[j];
    }
  }

  lemma SetAtSnoc(hash: Hash, f: Filter, es: seq<Event>, p: nat, i: nat)
    requires Valid(f) && WellFormed(es) && p < f.bitCount && i < |es| - 1
    ensures var n := |es| - 1; SetAt(hash, f, es, p, i) <==> es[n] != Clear && SetAt(hash, f, es[..n], p, i)
  {
    hide Sets, Lasts;
    LastsSnoc(es, i);
  }

  lemma SetBySnoc(hash: Hash, f: Filter, es: seq<Event>, p: nat)
    requires Valid(f) && WellFormed(es) && p < f.bitCount && es != []
    ensures var n := |es| - 1;
            SetBy(hash, f, es, p) <==> es[n] != Clear && (SetBy(hash, f, es[..n], p) || Sets(hash, f, es[n], p))
  {
    var n := |es| - 1;
    LastsSnoc(es, 0);
    LastsSnoc(es, n);
    hide Sets, Lasts;
    if i: nat :| i < n && SetAt(hash, f, es[..n], p, i) {
      SetAtSnoc(hash, f, es, p, i);
    }
    if i: nat :| i < |es| && SetAt(hash, f, es, p, i) {
      LastsSnoc(es, i);
      if i < n {
        SetAtSnoc(hash, f, es, p, i);
      }
    }
    if es[n] != Clear && Sets(hash, f, es[n], p) {
      assert SetAt(hash, f, es, p, n);
    }
  }

  /** After every history, exactly those bits are set that were set since the last clear. */
  lemma {:induction false} BitsAfter(hash: Hash, f: Filter, es: seq<Event>, p: nat)
    requires Valid(f) && WellFormed(es) && p < f.bitCount
    ensures Run(hash, f, es).bits[p] <==> SetBy(hash, f, es, p)
    decreases |es|
  {
    if es != [] {
      var n := |es| - 1;
      BitsAfter(hash, f, es[..n], p);
      hide SetBy, Sets, Apply;
      var g := Run(hash, f, es[..n]);
      AppliedBit(hash, g, es[n], p);
      SetBySnoc(hash, f, es, p);
      SameSets(hash, f, g, es[n], p);
    }
  }

  lemma SameSets(hash: Hash, f: Filter, g: Filter, e: Event, p: nat)
    requires Valid(f) && Valid(g) && (e.Merge? ==> Valid(e.other)) && p < f.bitCount
    requires f.bitCount == g.bitCount && f.hashCount == g.hashCount
    ensures Sets(hash, f, e, p) <==> Sets(hash, g, e, p)
  {
    hide Probe;
  }

  /** A key is reported after a history exactly when each of its probes was set since the
      last clear. */
  lemma ReportsAfter(hash: Hash, f: Filter, es: seq<Event>, key: Key)
    requires Valid(f) && WellFormed(es)
    ensures MightContain(hash, Run(hash, f, es), key)
       <==> forall i :: 0 <= i < f.hashCount ==> SetBy(hash, f, es, Probe(hash, key, i, f.bitCount))
  {
    hide Probe, SetBy, Run;
    var g := Run(hash, f, es);
    forall p | 0 <= p < f.bitCount ensures g.bits[p] <==> SetBy(hash, f, es, p) {
      BitsAfter(hash, f, es, p);
    }
  }

  /** Right after a clear nothing is reported, unless the filter has no hash at all. */
  lemma ClearForgets(hash: Hash, f: Filter, es: seq<Event>, key: Key)
    requires Valid(f) && WellFormed(es)
    ensures WellFormed(es + [Clear])
    ensures var g := Run(hash, f, es + [Clear]);
            (MightContain(hash, g, key) <==> f.hashCount == 0) && g.itemCount == 0
  {
    var all := es + [Clear];
    assert all[..|es|] == es;
    var g := Run(hash, f, all);
    hide Probe, Run, Apply;
    if f.hashCount > 0 {
      assert !g.bits[Probe(hash, key, 0, f.bitCount)];
    }
  }

  /** The inserts that no clear followed. */
  ghost function Counted(es: seq<Event>): set<nat> {
    set i: nat | i < |es| && es[i].Insert? && Lasts(es, i)
  }

  lemma CountedSnoc(es: seq<Event>)
    requires es != []
    ensures var n := |es| - 1;
            |Counted(es)| == if es[n] == Clear then 0 else |Counted(es[..n])| + if es[n].Insert? then 1 else 0
  {
    var n := |es| - 1;
    var a, b := Counted(es[..n]), Counted(es);
    forall i: nat | i < |es| ensures Lasts(es, i) <==> es[n] != Clear && (i < n ==> Lasts(es[..n], i)) {
      LastsSnoc(es, i);
    }
    hide Lasts;
    assert b == if es[n] == Clear then {} else if es[n].Insert? then a + {n} else a;
  }

  /** Without merges, the length is the number of inserts since the last clear. */
  lemma {:induction false} LengthAfter(hash: Hash, f: Filter, es: seq<Event>)
    requires Valid(f) && WellFormed(es) && forall i :: 0 <= i < |es| ==> !es[i].Merge?
    ensures Run(hash, f, es).itemCount == |Counted(es)| + if Lasts(es, 0) then f.itemCount else 0
    decreases |es|
  {
    if es != [] {
      var n := |es| - 1;
      LengthAfter(hash, f, es[..n]);
      CountedSnoc(es);
      LastsSnoc(es, 0);
      hide Lasts, Counted, SetProbes;
      NothingCounted();
    } else {
      NothingCounted();
    }
  }

  lemma NothingCounted()
    ensures Counted([]) == {} && Lasts([], 0)
  {
  }

  /** A merge of filters of the same size has the greater of the two lengths. */
  lemma MergeLength(f: Filter, other: Filter)
    requires Valid(f) && Valid(other)
    ensures var n := Merged(f, other).itemCount;
            if f.bitCount != other.bitCount then n == f.itemCount
            else n >= f.itemCount && n >= other.itemCount && (n == f.itemCount || n == other.itemCount)
  {
  }

  // ------------------------------------------------------- the scalable filter

  /** The inserts filter `i` takes, by position: after those of the filters before it, and
      as many as its capacity. */
  function Load(c: nat, i: nat, keys: seq<Key>): seq<Key> {
    CapacityDoubles(c, i);
    Stretch(keys, Capacity(c, i) - c, Capacity(c, i + 1) - c)
  }

  /** The keys from position `lo` up to `hi`, as far as there are any. */
  function Stretch(keys: seq<Key>, lo: nat, hi: nat): seq<Key>
    requires lo <= hi
  {
    if |keys| <= lo then [] else keys[lo..if |keys| <= hi then |keys| else hi]
  }

  lemma StretchSnoc(keys: seq<Key>, key: Key, lo: nat, hi: nat)
    requires lo <= |keys| && lo <= hi
    ensures Stretch(keys + [key], lo, hi) == Stretch(keys, lo, hi) + if |keys| < hi then [key] else []
  {
  }

  /** Filter `i` is a new filter of its generation with its load inserted. */
  ghost predicate Holds(hash: Hash, sizing: Sizing, c: nat, keys: seq<Key>, s: Scalable, i: nat)
    requires i < |s.filters|
  {
    s.filters[i] == InsertAll(hash, NewFilter(sizing, Capacity(c, i), i), Load(c, i, keys))
  }

  ghost predicate AllHold(hash: Hash, sizing: Sizing, c: nat, keys: seq<Key>, s: Scalable) {
    forall i: nat :: i < |s.filters| ==> Holds(hash, sizing, c, keys, s, i)
  }

  /** An insert goes to the load of the last filter; the loads before it are complete. */
  lemma LoadSnoc(c: nat, i: nat, keys: seq<Key>, key: Key, m: nat)
    requires c >= 1 && i < m && Capacity(c, m - 1) - c <= |keys| < Capacity(c, m) - c
    ensures Load(c, i, keys + [key]) == Load(c, i, keys) + if i < m - 1 then [] else [key]
  {
    hide Capacity, Stretch;
    CapacityDoubles(c, i);
    if i < m - 1 {
      CapacityGrows(c, i + 1, m - 1);
    }
    StretchSnoc(keys, key, Capacity(c, i) - c, Capacity(c, i + 1) - c);
  }

  lemma {:induction false} CapacityGrows(c: nat, i: nat, j: nat)
    requires i <= j
    ensures Capacity(c, i) <= Capacity(c, j)
    decreases j
  {
    hide Capacity;
    if i < j {
      CapacityGrows(c, i, j - 1);
      CapacityDoubles(c, j - 1);
    }
  }

  lemma InsertAllSnoc(hash: Hash, f: Filter, keys: seq<Key>, key: Key)
    requires Valid(f)
    ensures InsertAll(hash, f, keys + [key]) == Inserted(hash, InsertAll(hash, f, keys), key)
  {
    assert (keys + [key])[..|keys|] == keys;
  }

  /** The filter that takes an insert, before it does. */
  lemma LastFilter(hash: Hash, sizing: Sizing, c: nat, keys: seq<Key>, t: Scalable)
    requires c >= 1 && ValidScalable(t) && Doubling(t, c) && |keys| <= Capacity(c, |t.filters|) - c
    requires Holds(hash, sizing, c, keys, t, |t.filters| - 1)
    ensures var g := Grown(sizing, t);
            Holds(hash, sizing, c, keys, g, |g.filters| - 1)
  {
    hide Capacity;
    var k := |t.filters|;
    CapacityDoubles(c, k - 1);
    CapacityDoubles(c, k);
    if t.filters[k - 1].itemCount >= t.capacity {
      assert Load(c, k, keys) == [];
    }
  }

  lemma GrownShape(sizing: Sizing, t: Scalable)
    requires ValidScalable(t)
    ensures var g := Grown(sizing, t);
            && |t.filters| <= |g.filters| <= |t.filters| + 1
            && forall i :: 0 <= i < |t.filters| ==> g.filters[i] == t.filters[i]
  {
  }

  lemma InsertShape(hash: Hash, sizing: Sizing, t: Scalable, key: Key)
    requires ValidScalable(t)
    ensures var g, s := Grown(sizing, t), ScalableInsert(hash, sizing, t, key);
            var last := |g.filters| - 1;
            && |s.filters| == |g.filters| && Valid(g.filters[last])
            && s.filters[last] == Inserted(hash, g.filters[last], key)
            && forall i :: 0 <= i < last ==> s.filters[i] == g.filters[i]
  {
    hide Inserted;
  }

  lemma HoldsInserted(hash: Hash, sizing: Sizing, c: nat, keys: seq<Key>, key: Key, g: Scalable, s: Scalable, i: nat)
    requires i < |g.filters| && i < |s.filters| && Holds(hash, sizing, c, keys, g, i) && Valid(g.filters[i])
    requires Load(c, i, keys + [key]) == Load(c, i, keys) + [key] && s.filters[i] == Inserted(hash, g.filters[i], key)
    ensures Holds(hash, sizing, c, keys + [key], s, i)
  {
    InsertAllSnoc(hash, NewFilter(sizing, Capacity(c, i), i), Load(c, i, keys), key);
  }

  lemma HoldsStill(hash: Hash, sizing: Sizing, c: nat, keys: seq<Key>, more: seq<Key>, g: Scalable, s: Scalable, i: nat)
    requires i < |g.filters| && i < |s.filters| && Holds(hash, sizing, c, keys, g, i)
    requires Load(c, i, more) == Load(c, i, keys) && s.filters[i] == g.filters[i]
    ensures Holds(hash, sizing, c, more, s, i)
  {
  }

  /** The insert finds its place: there is room in the last filter, and only there. */
  ghost predicate RoomAtLast(c: nat, keys: seq<Key>, m: nat) {
    c >= 1 && m >= 1 && Capacity(c, m - 1) - c <= |keys| < Capacity(c, m) - c
  }

  lemma OldHolds(hash: Hash, sizing: Sizing, c: nat, keys: seq<Key>, key: Key, t: Scalable, i: nat)
    requires ValidScalable(t) && AllHold(hash, sizing, c, keys, t)
    requires var m := |Grown(sizing, t).filters|; RoomAtLast(c, keys, m) && i < m - 1
    requires i < |ScalableInsert(hash, sizing, t, key).filters|
    ensures Holds(hash, sizing, c, keys + [key], ScalableInsert(hash, sizing, t, key), i)
  {
    hide Grown, ScalableInsert, Load, Capacity;
    GrownShape(sizing, t);
    InsertShape(hash, sizing, t, key);
    LoadSnoc(c, i, keys, key, |Grown(sizing, t).filters|);
    NothingMore(Load(c, i, keys));
    HoldsStill(hash, sizing, c, keys, keys + [key], t, ScalableInsert(hash, sizing, t, key), i);
  }

  lemma LastHolds(hash: Hash, sizing: Sizing, c: nat, keys: seq<Key>, key: Key, t: Scalable)
    requires ValidScalable(t) && AllHold(hash, sizing, c, keys, t)
    requires Doubling(t, c) && |keys| <= Capacity(c, |t.filters|) - c
    requires RoomAtLast(c, keys, |Grown(sizing, t).filters|)
    ensures var s := ScalableInsert(hash, sizing, t, key);
            s.filters != [] && Holds(hash, sizing, c, keys + [key], s, |s.filters| - 1)
  {
    hide Grown, ScalableInsert, Load, Capacity, Holds, Doubling, Inserted;
    var g, s := Grown(sizing, t), ScalableInsert(hash, sizing, t, key);
    assert Holds(hash, sizing, c, keys, t, |t.filters| - 1);
    LastFilter(hash, sizing, c, keys, t);
    InsertShape(hash, sizing, t, key);
    LoadSnoc(c, |g.filters| - 1, keys, key, |g.filters|);
    HoldsInserted(hash, sizing, c, keys, key, g, s, |g.filters| - 1);
  }

  lemma HoldsNext(hash: Hash, sizing: Sizing, c: nat, keys: seq<Key>, key: Key, t: Scalable)
    requires ValidScalable(t) && AllHold(hash, sizing, c, keys, t)
    requires Doubling(t, c) && |keys| <= Capacity(c, |t.filters|) - c
    requires RoomAtLast(c, keys, |Grown(sizing, t).filters|)
    ensures AllHold(hash, sizing, c, keys + [key], ScalableInsert(hash, sizing, t, key))
  {
    var s := ScalableInsert(hash, sizing, t, key);
    InsertShape(hash, sizing, t, key);
    hide Grown, ScalableInsert, Capacity, Holds, Doubling, RoomAtLast, Inserted, Valid;
    LastHolds(hash, sizing, c, keys, key, t);
    forall i: nat | i < |s.filters| ensures Holds(hash, sizing, c, keys + [key], s, i) {
      if i < |s.filters| - 1 {
        OldHolds(hash, sizing, c, keys, key, t, i);
      }
    }
  }

  lemma NothingMore(keys: seq<Key>)
    ensures keys + [] == keys
  {
  }

  lemma FirstHolds(hash: Hash, sizing: Sizing, c: nat)
    ensures AllHold(hash, sizing, c, [], NewScalable(sizing, c))
  {
    CapacityDoubles(c, 0);
    assert Load(c, 0, []) == [];
    hide Capacity, NewFilter, Load;
  }

  /** How many inserts the filters have room for before an insert. */
  lemma GrowthBounds(hash: Hash, sizing: Sizing, c: nat, keys: seq<Key>, key: Key)
    requires c >= 1
    ensures var t := ScalableRun(hash, sizing, c, keys);
            var m := |Grown(sizing, t).filters|;
            && Doubling(t, c) && |keys| <= Capacity(c, |t.filters|) - c
            && RoomAtLast(c, keys, m)
  {
    hide Capacity, Doubling, Inserted, NewFilter, Grown, Total;
    var all := keys + [key];
    var t := ScalableRun(hash, sizing, c, keys);
    ScalableGrowth(hash, sizing, c, keys);
    ScalableGrowth(hash, sizing, c, all);
    assert all[..|keys|] == keys;
    assert ScalableRun(hash, sizing, c, all) == ScalableInsert(hash, sizing, t, key);
    CapacityDoubles(c, 0);
  }

  /** Each filter holds the inserts of its turn, and nothing else. */
  lemma {:induction false} ScalableHolds(hash: Hash, sizing: Sizing, c: nat, keys: seq<Key>)
    requires c >= 1
    ensures AllHold(hash, sizing, c, keys, ScalableRun(hash, sizing, c, keys))
    decreases |keys|
  {
    hide AllHold, Capacity, Doubling, ScalableInsert, NewScalable, Grown;
    if keys == [] {
      FirstHolds(hash, sizing, c);
    } else {
      var n := |keys| - 1;
      ScalableHolds(hash, sizing, c, keys[..n]);
      GrowthBounds(hash, sizing, c, keys[..n], keys[n]);
      HoldsNext(hash, sizing, c, keys[..n], keys[n], ScalableRun(hash, sizing, c, keys[..n]));
      assert keys == keys[..n] + [keys[n]];
    }
  }

  /** Every probe of the key into filter `i` hits a probe of a key of that filter's load. */
  ghost predicate HitsLoad(hash: Hash, f: Filter, load: seq<Key>, key: Key)
    requires Valid(f)
  {
    forall k :: 0 <= k < f.hashCount ==>
      Lit(hash, load, f.hashCount, f.bitCount, Probe(hash, key, k, f.bitCount))
  }

  lemma FilterExact(hash: Hash, sizing: Sizing, c: nat, keys: seq<Key>, s: Scalable, i: nat, key: Key)
    requires ValidScalable(s) && i < |s.filters| && Holds(hash, sizing, c, keys, s, i)
    ensures MightContain(hash, s.filters[i], key) <==> HitsLoad(hash, s.filters[i], Load(c, i, keys), key)
  {
    var f := NewFilter(sizing, Capacity(c, i), i);
    hide Probe, Lit, NewFilter, Load, Capacity;
    ReportsExactly(hash, f.bitCount, f.hashCount, Load(c, i, keys), key);
  }

  ghost predicate SomeHits(hash: Hash, c: nat, keys: seq<Key>, s: Scalable, key: Key)
    requires ValidScalable(s)
  {
    exists i: nat :: i < |s.filters| && HitsLoad(hash, s.filters[i], Load(c, i, keys), key)
  }

  lemma SomeFilterExact(hash: Hash, sizing: Sizing, c: nat, keys: seq<Key>, s: Scalable, key: Key)
    requires ValidScalable(s) && AllHold(hash, sizing, c, keys, s)
    ensures ScalableContains(hash, s, key) <==> SomeHits(hash, c, keys, s, key)
  {
    hide HitsLoad, MightContain, Load, Holds;
    forall i: nat | i < |s.filters|
      ensures MightContain(hash, s.filters[i], key) <==> HitsLoad(hash, s.filters[i], Load(c, i, keys), key)
    {
      FilterExact(hash, sizing, c, keys, s, i, key);
    }
  }

  /** A scalable filter reports a key exactly when the probes of the key into one of its
      filters all hit probes of the keys inserted while that filter was the last. */
  lemma ScalableExact(hash: Hash, sizing: Sizing, c: nat, keys: seq<Key>, key: Key)
    requires c >= 1
    ensures var s := ScalableRun(hash, sizing, c, keys);
            ScalableContains(hash, s, key) <==> SomeHits(hash, c, keys, s, key)
  {
    hide *;
    ScalableHolds(hash, sizing, c, keys);
    SomeFilterExact(hash, sizing, c, keys, ScalableRun(hash, sizing, c, keys), key);
  }

  /** With an initial capacity of zero, every insert has a filter of its own. */
  lemma {:induction false} ZeroCapacityHolds(hash: Hash, sizing: Sizing, keys: seq<Key>)
    ensures var s := ScalableRun(hash, sizing, 0, keys);
            && |s.filters| == |keys| + 1 && s.capacity == 0 && s.filters[0] == Empty(1024, 3)
            && forall i :: 0 <= i < |keys| ==> s.filters[i + 1] == Inserted(hash, Empty(1024, 3), keys[i])
    decreases |keys|
  {
    hide Inserted;
    if keys != [] {
      ZeroCapacityHolds(hash, sizing, keys[..|keys| - 1]);
    }
  }

  // ------------------------------------------------------------ the byte layout

  /** Byte `k` of a number, lowest first. */
  lemma {:induction false} LeByte(n: nat, width: nat, k: nat)
    requires k < width
    ensures Pow256(k) > 0 && Le(n, width)[k] == n / Pow256(k) % 256
    decreases width
  {
    if k > 0 {
      LeByte(n / 256, width - 1, k - 1);
      Remainders.DivideTwice(n, 256, Pow256(k - 1));
    }
  }

  /** Bit `k` of a packed byte, lowest first. */
  lemma {:induction false} PackedBit(bits: seq<bool>, width: nat, k: nat)
    requires k < width
    ensures PackByte(bits, width) / Pow2(k) % 2 == 1 <==> k < |bits| && bits[k]
    decreases width
  {
    var rest := if bits == [] then [] else bits[1..];
    Halve(PackByte(rest, width - 1), bits != [] && bits[0]);
    if k > 0 {
      PackedBit(rest, width - 1, k - 1);
      Remainders.DivideTwice(PackByte(bits, width), 2, Pow2(k - 1));
    }
  }

  lemma {:induction false} PackAt(bits: seq<bool>, i: nat)
    requires i < |bits|
    ensures Pack(bits)[i / 8] / Pow2(i % 8) % 2 == 1 <==> bits[i]
    decreases |bits|
  {
    hide PackByte, Pow2;
    if i < 8 {
      PackedBit(if |bits| <= 8 then bits else bits[..8], 8, i);
    } else {
      PackAt(bits[8..], i - 8);
    }
  }

  /** Where everything is in the byte form: three counts of eight bytes each, lowest byte
      first, then the bits, eight to a byte and lowest first. */
  lemma ByteLayout(f: Filter)
    ensures var data := ToBytes(f);
            && |data| == 24 + (|f.bits| + 7) / 8
            && (forall k :: 0 <= k < 8 ==> Pow256(k) > 0 && data[k] == f.bitCount / Pow256(k) % 256)
            && (forall k :: 0 <= k < 8 ==> data[8 + k] == f.hashCount / Pow256(k) % 256)
            && (forall k :: 0 <= k < 8 ==> data[16 + k] == f.itemCount / Pow256(k) % 256)
            && forall i :: 0 <= i < |f.bits| ==> (data[24 + i / 8] / Pow2(i % 8) % 2 == 1 <==> f.bits[i])
  {
    var data := ToBytes(f);
    hide Le, Pack, Pow2, Pow256;
    forall k | 0 <= k < 8
      ensures Pow256(k) > 0
      ensures data[k] == f.bitCount / Pow256(k) % 256
      ensures data[8 + k] == f.hashCount / Pow256(k) % 256
      ensures data[16 + k] == f.itemCount / Pow256(k) % 256
    {
      LeByte(f.bitCount, 8, k);
      LeByte(f.hashCount, 8, k);
      LeByte(f.itemCount, 8, k);
    }
    forall i | 0 <= i < |f.bits| ensures data[24 + i / 8] / Pow2(i % 8) % 2 == 1 <==> f.bits[i] {
      PackAt(f.bits, i);
    }
  }
}
