/**
 Fusion of ranked hit lists: reciprocal rank fusion in exact arithmetic, for every
 iteration order of the intermediate map, and the selection of vector hits.
 */
module Fusion {
  import opened Options
  import opened Strings
  import opened PointIds

  type Fields = map<string, int>

  datatype Hit = Hit(
    id: string, score: real, highlights: Option<seq<string>>,
    payload: Option<Fields>, source: Option<Fields>)

  // ------------------------------------------------------------ vector hit lists

  /** `normalize_vector_hits`: hits of the requested index under their vertex key. */
  function NormalizeHits(hits: seq<Hit>, tag: string, field: string): seq<Hit> {
    if hits == [] then []
    else
      var init, h := NormalizeHits(hits[..|hits| - 1], tag, field), hits[|hits| - 1];
      if EndsWith(h.id, Suffix(tag, field)) then init + [h.(id := Normalize(h.id, tag, field))] else init
  }

  datatype Point = Point(vertex: string, tag: string, field: string, hit: Hit)

  predicate Written(p: Point) {
    NoDelimiter(p.tag) && NoDelimiter(p.field) && p.hit.id == Format(p.vertex, p.tag, p.field)
  }

  function HitsOf(points: seq<Point>): (r: seq<Hit>)
    ensures |r| == |points| && forall i :: 0 <= i < |r| ==> r[i] == points[i].hit
  {
    seq(|points|, i requires 0 <= i < |points| => points[i].hit)
  }

  /** The vertices of the points that belong to an index, in order. */
  function OfIndex(points: seq<Point>, tag: string, field: string): seq<Hit> {
    if points == [] then []
    else
      var init, p := OfIndex(points[..|points| - 1], tag, field), points[|points| - 1];
      if p.tag == tag && p.field == field then init + [p.hit.(id := p.vertex)] else init
  }

  /** Of a list of written points, exactly those of the requested index are kept, in
      order, under the raw vertex key and otherwise unchanged. */
  lemma {:induction false} NormalizeHitsKeepsIndex(points: seq<Point>, tag: string, field: string)
    requires NoDelimiter(tag) && NoDelimiter(field)
    requires forall i :: 0 <= i < |points| ==> Written(points[i])
    ensures NormalizeHits(HitsOf(points), tag, field) == OfIndex(points, tag, field)
    decreases |points|
  {
    if points != [] {
      var n := |points| - 1;
      var p := points[n];
      NormalizeHitsKeepsIndex(points[..n], tag, field);
      assert HitsOf(points)[..n] == HitsOf(points[..n]);
      SuffixIdentifiesIndex(p.vertex, p.tag, p.field, tag, field);
      NormalizeFormat(p.vertex, p.tag, p.field);
    }
  }

  // ------------------------------------------------------------------- merging

  function FirstSome<T>(a: Option<T>, b: Option<T>): Option<T> {
    if a.Some? then a else b
  }

  /** Keys already present win. */
  function MergePayload(a: Option<Fields>, b: Option<Fields>): Option<Fields> {
    if a.None? then b else if b.None? then a else Some(b.value + a.value)
  }

  /** `merge_hits` as a fold from the first hit on. */
  function Merge(id: string, score: real, hits: seq<Hit>): Hit {
    if hits == [] then Hit(id, score, None, None, None)
    else
      var m, h := Merge(id, score, hits[..|hits| - 1]), hits[|hits| - 1];
      m.(highlights := FirstSome(m.highlights, h.highlights),
         payload := MergePayload(m.payload, h.payload),
         source := FirstSome(m.source, h.source))
  }

  /** Position of the first hit with a property; the length when there is none. */
  function First(hits: seq<Hit>, p: Hit -> bool): (i: nat)
    ensures i <= |hits| && (i < |hits| ==> p(hits[i])) && forall j :: 0 <= j < i ==> !p(hits[j])
  {
    if hits == [] then 0
    else
      var n := |hits| - 1;
      var i := First(hits[..n], p);
      if i < n then i else if p(hits[n]) then n else n + 1
  }

  function Value(h: Hit, key: string): Option<int> {
    if h.payload.Some? && key in h.payload.value then Some(h.payload.value[key]) else None
  }

  predicate HasHighlights(h: Hit) { h.highlights.Some? }
  predicate HasSource(h: Hit) { h.source.Some? }
  predicate HasPayload(h: Hit) { h.payload.Some? }
  function HasKey(key: string): Hit -> bool { (h: Hit) => Value(h, key).Some? }

  /** Highlights and source come whole from the first hit that has them; every payload
      key takes its value from the first hit that has the key, and there are no
      others. */
  lemma {:induction false} MergeTakesFirst(id: string, score: real, hits: seq<Hit>, key: string)
    ensures var m := Merge(id, score, hits);
            var h, s, k := First(hits, HasHighlights), First(hits, HasSource), First(hits, HasKey(key));
            && m.id == id && m.score == score
            && m.highlights == (if h < |hits| then hits[h].highlights else None)
            && m.source == (if s < |hits| then hits[s].source else None)
            && Value(m, key) == (if k < |hits| then Value(hits[k], key) else None)
            && (m.payload.Some? <==> First(hits, HasPayload) < |hits|)
    decreases |hits|
  {
    if hits != [] {
      MergeTakesFirst(id, score, hits[..|hits| - 1], key);
    }
  }

  /** `merge_hits`, with its loop over the hits and the inner loop over the entries of
      a payload map, in any order. */
  method MergeHits(id: string, score: real, hits: seq<Hit>) returns (r: Hit)
    ensures r == Merge(id, score, hits)
  {
    r := Hit(id, score, None, None, None);
    for i := 0 to |hits|
      invariant r == Merge(id, score, hits[..i])
    {
      assert hits[..i + 1][..i] == hits[..i];
      if r.highlights.None? {
        r := r.(highlights := hits[i].highlights);
      }
      if r.source.None? {
        r := r.(source := hits[i].source);
      }
      if hits[i].payload.Some? {
        if r.payload.Some? {
          var p := AddMissing(r.payload.value, hits[i].payload.value);
          r := r.(payload := Some(p));
        } else {
          r := r.(payload := hits[i].payload);
        }
      }
    }
    assert hits[..|hits|] == hits;
  }

  method AddMissing(base: Fields, more: Fields) returns (p: Fields)
    ensures p == more + base
  {
    p := base;
    var todo := more.Keys;
    while todo != {}
      invariant todo <= more.Keys
      invariant p == (more - todo) + base
      decreases todo
    {
      var k :| k in todo;
      if k !in p {
        p := p[k := more[k]];
      }
      todo := todo - {k};
    }
    assert more - {} == more;
  }

  // --------------------------------------------------- reciprocal rank fusion

  /** A hit with its 1-based rank in its list. */
  datatype Occurrence = Occurrence(rank: Rank, hit: Hit)

  type Rank = n: nat | 1 <= n witness 1

  function Ranked(list: seq<Hit>): (r: seq<Occurrence>)
    ensures |r| == |list| && forall i :: 0 <= i < |r| ==> r[i] == Occurrence(i + 1, list[i])
  {
    seq(|list|, i requires 0 <= i < |list| => Occurrence(i + 1, list[i]))
  }

  /** All occurrences, list after list. */
  function Occurrences(lists: seq<seq<Hit>>): seq<Occurrence> {
    if lists == [] then [] else Occurrences(lists[..|lists| - 1]) + Ranked(lists[|lists| - 1])
  }

  /** Sum of 1 / (k + rank) over all occurrences of an id. */
  function Score(occ: seq<Occurrence>, k: nat, id: string): real {
    if occ == [] then 0.0
    else
      var n := |occ| - 1;
      Score(occ[..n], k, id) + if occ[n].hit.id == id then 1.0 / (k + occ[n].rank) as real else 0.0
  }

  /** The contributing hits of an id, in order. */
  function Contributions(occ: seq<Occurrence>, id: string): seq<Hit> {
    if occ == [] then []
    else
      var n := |occ| - 1;
      Contributions(occ[..n], id) + if occ[n].hit.id == id then [occ[n].hit] else []
  }

  function Ids(occ: seq<Occurrence>): set<string> {
    set i | 0 <= i < |occ| :: occ[i].hit.id
  }

  /** The fused row of an id. */
  function Fused(lists: seq<seq<Hit>>, k: nat, id: string): Hit {
    Merge(id, Score(Occurrences(lists), k, id), Contributions(Occurrences(lists), id))
  }

  datatype Entry = Entry(score: real, hits: seq<Hit>)

  /** The map from ids to running scores and contributing hits. */
  ghost predicate Accumulated(totals: map<string, Entry>, occ: seq<Occurrence>, k: nat) {
    && totals.Keys == Ids(occ)
    && forall id :: id in totals ==> totals[id] == Entry(Score(occ, k, id), Contributions(occ, id))
  }

  lemma AbsentId(occ: seq<Occurrence>, k: nat, id: string)
    requires id !in Ids(occ)
    ensures Score(occ, k, id) == 0.0 && Contributions(occ, id) == []
    decreases |occ|
  {
    if occ != [] {
      var n := |occ| - 1;
      assert forall i :: 0 <= i < n ==> occ[..n][i] == occ[i] && occ[i].hit.id in Ids(occ);
      assert occ[n].hit.id in Ids(occ);
      AbsentId(occ[..n], k, id);
    }
  }

  /** One more occurrence: `entry(..).or_insert_with(..)`, then the update. */
  function Record(totals: map<string, Entry>, o: Occurrence, k: nat): map<string, Entry> {
    var id := o.hit.id;
    var e := if id in totals then totals[id] else Entry(0.0, []);
    totals[id := Entry(e.score + 1.0 / (k + o.rank) as real, e.hits + [o.hit])]
  }

  lemma RecordAccumulates(totals: map<string, Entry>, occ: seq<Occurrence>, o: Occurrence, k: nat)
    requires Accumulated(totals, occ, k)
    ensures Accumulated(Record(totals, o, k), occ + [o], k)
  {
    var all, next := occ + [o], Record(totals, o, k);
    assert all[..|occ|] == occ;
    if o.hit.id !in totals {
      AbsentId(occ, k, o.hit.id);
    }
    assert Ids(all) == Ids(occ) + {o.hit.id} by {
      forall id | id in Ids(occ) ensures id in Ids(all) {
        var i :| 0 <= i < |occ| && occ[i].hit.id == id;
        assert all[i] == occ[i];
      }
      assert all[|occ|] == o;
    }
    assert next.Keys == totals.Keys + {o.hit.id};
  }

  method Accumulate(lists: seq<seq<Hit>>, k: nat) returns (totals: map<string, Entry>)
    ensures Accumulated(totals, Occurrences(lists), k)
  {
    hide Accumulated;
    totals := map[];
    NothingAccumulated(k);
    for i := 0 to |lists|
      invariant Accumulated(totals, Occurrences(lists[..i]), k)
    {
      var list := lists[i];
      ghost var before := Occurrences(lists[..i]);
      assert before + Ranked(list)[..0] == before;
      for j := 0 to |list|
        invariant Accumulated(totals, before + Ranked(list)[..j], k)
      {
        RecordAccumulates(totals, before + Ranked(list)[..j], Ranked(list)[j], k);
        assert before + Ranked(list)[..j] + [Ranked(list)[j]] == before + Ranked(list)[..j + 1];
        totals := Record(totals, Occurrence(j + 1, list[j]), k);
      }
      assert Ranked(list)[..|list|] == Ranked(list);
      assert lists[..i + 1][..i] == lists[..i];
    }
    assert lists[..|lists|] == lists;
  }

  lemma NothingAccumulated(k: nat)
    ensures Accumulated(map[], Occurrences([]), k)
  {
  }

  // ------------------------------------------------------- sort and truncate

  predicate DistinctIds(hits: seq<Hit>) {
    forall i, j :: 0 <= i < j < |hits| ==> hits[i].id != hits[j].id
  }

  predicate Descending(hits: seq<Hit>) {
    forall i, j :: 0 <= i < j < |hits| ==> hits[i].score >= hits[j].score
  }

  /** Every element of one list is in the other. */
  ghost predicate SameHits(a: seq<Hit>, b: seq<Hit>) {
    |a| == |b| && (forall h :: h in a <==> h in b)
  }

  /** Insertion after every hit that scores at least as much, which keeps equal scores
      in their order. */
  method InsertByScore(sorted: seq<Hit>, h: Hit) returns (r: seq<Hit>)
    requires Descending(sorted) && DistinctIds(sorted) && forall i :: 0 <= i < |sorted| ==> sorted[i].id != h.id
    ensures Descending(r) && DistinctIds(r) && |r| == |sorted| + 1
    ensures forall x :: x in r <==> x in sorted || x == h
  {
    var k := |sorted|;
    while k > 0 && sorted[k - 1].score < h.score
      invariant 0 <= k <= |sorted|
      invariant forall i :: k <= i < |sorted| ==> sorted[i].score < h.score
    {
      k := k - 1;
    }
    r := sorted[..k] + [h] + sorted[k..];
    SpliceSorted(sorted, k, h);
    SpliceMembers(sorted, k, h);
  }

  lemma SpliceSorted(s: seq<Hit>, k: nat, h: Hit)
    requires k <= |s| && Descending(s) && DistinctIds(s) && forall i :: 0 <= i < |s| ==> s[i].id != h.id
    requires (k > 0 ==> s[k - 1].score >= h.score) && forall i :: k <= i < |s| ==> s[i].score < h.score
    ensures Descending(s[..k] + [h] + s[k..]) && DistinctIds(s[..k] + [h] + s[k..])
  {
    var r := s[..k] + [h] + s[k..];
    forall i, j | 0 <= i < j < |r| ensures r[i].score >= r[j].score && r[i].id != r[j].id {
      assert r[i] == if i < k then s[i] else if i == k then h else s[i - 1];
      assert r[j] == if j < k then s[j] else if j == k then h else s[j - 1];
    }
  }

  lemma SpliceMembers(s: seq<Hit>, k: nat, h: Hit)
    requires k <= |s|
    ensures forall x :: x in s[..k] + [h] + s[k..] <==> x in s || x == h
  {
    assert s == s[..k] + s[k..];
  }

  /** `sort_by` on descending scores. */
  method SortByScore(hits: seq<Hit>) returns (r: seq<Hit>)
    requires DistinctIds(hits)
    ensures Descending(r) && DistinctIds(r) && SameHits(r, hits)
  {
    r := [];
    for i := 0 to |hits|
      invariant Descending(r) && DistinctIds(r) && |r| == i
      invariant forall h :: h in r <==> h in hits[..i]
    {
      assert forall j :: 0 <= j < |r| ==> r[j] in r;
      assert forall j :: 0 <= j < |r| ==> r[j] in hits[..i];
      assert hits[..i + 1] == hits[..i] + [hits[i]];
      r := InsertByScore(r, hits[i]);
    }
    assert hits[..|hits|] == hits;
  }

  lemma RowOf(totals: map<string, Entry>, lists: seq<seq<Hit>>, k: nat, id: string)
    requires Accumulated(totals, Occurrences(lists), k) && id in totals
    ensures Merge(id, totals[id].score, totals[id].hits) == Fused(lists, k, id) && Fused(lists, k, id).id == id
  {
    MergedId(lists, k, id);
  }

  /** The fused rows of the ids in a set, each once. */
  ghost predicate RowsOf(rows: seq<Hit>, ids: set<string>, lists: seq<seq<Hit>>, k: nat) {
    && DistinctIds(rows) && |rows| == |ids|
    && forall h :: h in rows <==> h.id in ids && h == Fused(lists, k, h.id)
  }

  lemma RowsOfMore(rows: seq<Hit>, ids: set<string>, lists: seq<seq<Hit>>, k: nat, id: string)
    requires RowsOf(rows, ids, lists, k) && id !in ids && Fused(lists, k, id).id == id
    ensures RowsOf(rows + [Fused(lists, k, id)], ids + {id}, lists, k)
  {
    hide Fused;
    assert forall j :: 0 <= j < |rows| ==> rows[j] in rows;
  }

  /** The fused rows of all ids, in the map's own order, whatever it is. */
  method Collect(totals: map<string, Entry>, ghost lists: seq<seq<Hit>>, ghost k: nat) returns (r: seq<Hit>)
    requires Accumulated(totals, Occurrences(lists), k)
    ensures RowsOf(r, totals.Keys, lists, k)
  {
    hide RowsOf, Accumulated, Fused, Merge;
    r := [];
    NoRows(lists, k);
    var todo := totals.Keys;
    assert totals.Keys - todo == {};
    while todo != {}
      invariant todo <= totals.Keys && RowsOf(r, totals.Keys - todo, lists, k)
      decreases todo
    {
      var id :| id in todo;
      RowOf(totals, lists, k, id);
      RowsOfMore(r, totals.Keys - todo, lists, k, id);
      assert totals.Keys - todo + {id} == totals.Keys - (todo - {id});
      var h := MergeHits(id, totals[id].score, totals[id].hits);
      r := r + [h];
      todo := todo - {id};
    }
    assert totals.Keys - {} == totals.Keys;
  }

  lemma NoRows(lists: seq<seq<Hit>>, k: nat)
    ensures RowsOf([], {}, lists, k)
  {
  }

  lemma MergedId(lists: seq<seq<Hit>>, k: nat, id: string)
    ensures Fused(lists, k, id).id == id && Fused(lists, k, id).score == Score(Occurrences(lists), k, id)
  {
    MergeTakesFirst(id, Score(Occurrences(lists), k, id), Contributions(Occurrences(lists), id), "");
  }

  /** The best `limit` of some rows: no row left out scores above a kept one. */
  ghost predicate TopOf(kept: seq<Hit>, rows: seq<Hit>, limit: nat) {
    && DistinctIds(kept) && Descending(kept)
    && |kept| == (if limit < |rows| then limit else |rows|)
    && (forall h :: h in kept ==> h in rows)
    && forall h, left :: h in kept && left in rows && left !in kept ==> left.score <= h.score
  }

  lemma TruncateIsTop(sorted: seq<Hit>, rows: seq<Hit>, limit: nat)
    requires Descending(sorted) && DistinctIds(sorted) && SameHits(sorted, rows)
    ensures TopOf(if limit < |sorted| then sorted[..limit] else sorted, rows, limit)
  {
    var kept := if limit < |sorted| then sorted[..limit] else sorted;
    forall h, left | h in kept && left in rows && left !in kept ensures left.score <= h.score {
      var i :| 0 <= i < |sorted| && sorted[i] == left;
      var j :| 0 <= j < |kept| && kept[j] == h;
      assert forall g :: 0 <= g < |kept| ==> kept[g] in kept && kept[g] == sorted[g];
    }
  }

  ghost predicate Keeps(fused: seq<Hit>, id: string) {
    exists h :: h in fused && h.id == id
  }

  /** The fusion of some lists: as many ids as asked for, each once, each the merge of
      all its contributing hits under the sum of 1 / (k + rank), highest sum first;
      and an id that is left out sums to no more than any kept one. */
  ghost predicate IsFusion(fused: seq<Hit>, lists: seq<seq<Hit>>, k: nat, limit: nat) {
    var all := Occurrences(lists);
    && DistinctIds(fused) && Descending(fused)
    && |fused| == (if limit < |Ids(all)| then limit else |Ids(all)|)
    && (forall h :: h in fused ==> h.id in Ids(all) && h == Fused(lists, k, h.id) && h.score == Score(all, k, h.id))
    && forall h, id :: h in fused && id in Ids(all) && !Keeps(fused, id) ==> Score(all, k, id) <= h.score
  }

  lemma TopIsFusion(lists: seq<seq<Hit>>, k: nat, limit: nat, fused: seq<Hit>, rows: seq<Hit>)
    requires RowsOf(rows, Ids(Occurrences(lists)), lists, k) && TopOf(fused, rows, limit)
    ensures IsFusion(fused, lists, k, limit)
  {
    hide Fused, Score, Occurrences;
    var all := Occurrences(lists);
    forall h | h in fused ensures h.score == Score(all, k, h.id) {
      MergedId(lists, k, h.id);
    }
    forall h, id | h in fused && id in Ids(all) && !Keeps(fused, id) ensures Score(all, k, id) <= h.score {
      MergedId(lists, k, id);
      var left := Fused(lists, k, id);
      assert left in rows && left !in fused;
    }
  }

  /** `rrf_fuse`, for any iteration order of its map. */
  method RrfFuse(lists: seq<seq<Hit>>, k: nat, limit: nat) returns (fused: seq<Hit>)
    ensures IsFusion(fused, lists, k, limit)
  {
    hide RowsOf, IsFusion, TopOf, Accumulated;
    var totals := Accumulate(lists, k);
    assert totals.Keys == Ids(Occurrences(lists)) by {
      AccumulatedKeys(totals, Occurrences(lists), k);
    }
    var rows := Collect(totals, lists, k);
    assert DistinctIds(rows) by {
      RowsAreDistinct(rows, totals.Keys, lists, k);
    }
    var sorted := SortByScore(rows);
    fused := if limit < |sorted| then sorted[..limit] else sorted;
    TruncateIsTop(sorted, rows, limit);
    TopIsFusion(lists, k, limit, fused, rows);
  }

  lemma AccumulatedKeys(totals: map<string, Entry>, all: seq<Occurrence>, k: nat)
    requires Accumulated(totals, all, k)
    ensures totals.Keys == Ids(all)
  {
  }

  lemma RowsAreDistinct(rows: seq<Hit>, ids: set<string>, lists: seq<seq<Hit>>, k: nat)
    requires RowsOf(rows, ids, lists, k)
    ensures DistinctIds(rows)
  {
  }
}
