/**
 The column-major batch with an optional selection vector, compared with a plain
 sequence of rows.
 */
module Columnar {
  import opened Integers
  import opened Options
  import Fnv

  type Row<V> = seq<V>

  /** One value sequence per column, the physical row count, the selection from
      logical to physical rows (`None` is the identity), and the schema token with
      the optional names behind it. */
  datatype Batch<V> = Batch(
    columns: seq<seq<V>>, numRows: nat, selection: Option<seq<nat>>,
    fingerprint: nat, names: Option<seq<string>>)

  /** Columns have the physical length and the selection stays inside it. */
  predicate Valid<V>(b: Batch<V>) {
    && (forall c :: 0 <= c < |b.columns| ==> |b.columns[c]| == b.numRows)
    && (b.selection.Some? ==> forall i :: 0 <= i < |b.selection.value| ==> b.selection.value[i] < b.numRows)
  }

  /** Logical row count. */
  function NumRows<V>(b: Batch<V>): nat {
    if b.selection.Some? then |b.selection.value| else b.numRows
  }

  function Physical<V>(b: Batch<V>, i: nat): (p: nat)
    requires i < NumRows(b)
    ensures Valid(b) ==> p < b.numRows
  {
    if b.selection.Some? then b.selection.value[i] else i
  }

  /** Logical row `i`. */
  function RowAt<V>(b: Batch<V>, i: nat): (r: Row<V>)
    requires Valid(b) && i < NumRows(b)
    ensures |r| == |b.columns| && forall c :: 0 <= c < |r| ==> r[c] == b.columns[c][Physical(b, i)]
  {
    seq(|b.columns|, c requires 0 <= c < |b.columns| => b.columns[c][Physical(b, i)])
  }

  /** `to_rows`. */
  function Rows<V>(b: Batch<V>): (r: seq<Row<V>>)
    requires Valid(b)
    ensures |r| == NumRows(b) && forall i :: 0 <= i < |r| ==> r[i] == RowAt(b, i)
  {
    seq(NumRows(b), i requires 0 <= i < NumRows(b) => RowAt(b, i))
  }

  function EmptyColumns<V>(n: nat): (r: seq<seq<V>>)
    ensures |r| == n && forall c :: 0 <= c < n ==> r[c] == []
  {
    seq(n, _ => [])
  }

  function New<V>(numColumns: nat, fingerprint: nat): (b: Batch<V>)
    ensures Valid(b)
  {
    Batch(EmptyColumns(numColumns), 0, None, fingerprint, None)
  }

  // -------------------------------------------------------------- appending

  /** The first row fixes the column count; another arity panics. */
  predicate Accepts<V>(b: Batch<V>, row: Row<V>) {
    b.columns == [] || |row| == |b.columns|
  }

  function AppendRow<V>(b: Batch<V>, row: Row<V>): (r: Batch<V>)
    requires Accepts(b, row)
    ensures |r.columns| == |row| && r.numRows == b.numRows + 1
    ensures forall c :: 0 <= c < |row| ==> r.columns[c] == (if b.columns == [] then [] else b.columns[c]) + [row[c]]
  {
    var cols := if b.columns == [] then EmptyColumns(|row|) else b.columns;
    b.(columns := seq(|cols|, c requires 0 <= c < |cols| => cols[c] + [row[c]]), numRows := b.numRows + 1)
  }

  /** Columns are only created for the first row: a batch that already holds rows
      without columns takes a wider row without noticing, and its columns then no
      longer match its row count. */
  predicate Fits<V>(b: Batch<V>, row: Row<V>) {
    b.columns == [] ==> b.numRows == 0 || row == []
  }

  lemma AppendRowValid<V>(b: Batch<V>, row: Row<V>)
    requires Valid(b) && Accepts(b, row)
    ensures Valid(AppendRow(b, row)) <==> Fits(b, row)
  {
    var a := AppendRow(b, row);
    if !Fits(b, row) {
      assert |a.columns[0]| == 1 && a.numRows > 1;
    }
  }

  /** A row without columns leaves no trace but the count; a wider row after it is
      taken, and the batch is broken. */
  lemma WiderRowBreaks<V>(v: V, fingerprint: nat)
    ensures var b := AppendRow(New<V>(0, fingerprint), []);
            Valid(b) && Accepts(b, [v]) && !Valid(AppendRow(b, [v]))
  {
    var b := AppendRow(New<V>(0, fingerprint), []);
    AppendRowValid(b, [v]);
  }

  /** The appended row becomes the last logical row exactly when no selection is
      installed; under a selection it stays invisible. */
  lemma AppendRowRows<V>(b: Batch<V>, row: Row<V>)
    requires Valid(b) && Accepts(b, row) && Fits(b, row)
    ensures Valid(AppendRow(b, row))
    ensures Rows(AppendRow(b, row)) == if b.selection.None? then Rows(b) + [row] else Rows(b)
  {
    var a := AppendRow(b, row);
    assert Valid(a);
    forall i | 0 <= i < NumRows(b) ensures RowAt(a, i) == RowAt(b, i) {
      assert Physical(b, i) < b.numRows;
    }
    if b.selection.None? {
      assert RowAt(a, b.numRows) == row;
    }
  }

  predicate OneArity<V>(rows: seq<Row<V>>) {
    forall i, j :: 0 <= i < j < |rows| ==> |rows[i]| == |rows[j]|
  }

  /** The row lists `from_rows` takes without panicking: once a row has columns, the
      later ones have as many. */
  predicate Accepted<V>(rows: seq<Row<V>>) {
    forall i, j :: 0 <= i < j < |rows| ==> rows[i] == [] || |rows[i]| == |rows[j]|
  }

  /** How many rows have columns. */
  function Filled<V>(rows: seq<Row<V>>): (n: nat)
    ensures n <= |rows|
    ensures n == |rows| <==> forall i :: 0 <= i < |rows| ==> rows[i] != []
  {
    if rows == [] then 0
    else
      assert rows == rows[..|rows| - 1] + [rows[|rows| - 1]];
      Filled(rows[..|rows| - 1]) + if rows[|rows| - 1] == [] then 0 else 1
  }

  lemma {:induction false} NoneFilled<V>(rows: seq<Row<V>>)
    requires forall i :: 0 <= i < |rows| ==> rows[i] == []
    ensures Filled(rows) == 0
    decreases |rows|
  {
    if rows != [] {
      NoneFilled(rows[..|rows| - 1]);
    }
  }

  function Arity<V>(rows: seq<Row<V>>): nat {
    if rows == [] then 0 else |rows[|rows| - 1]|
  }

  function AppendAll<V>(b: Batch<V>, rows: seq<Row<V>>): (r: Batch<V>)
    requires b.selection.None? && b.numRows == 0 && b.columns == [] && Accepted(rows)
    ensures r.selection.None? && r.names == b.names && r.numRows == |rows| && |r.columns| == Arity(rows)
    ensures forall c :: 0 <= c < |r.columns| ==> |r.columns[c]| == Filled(rows)
  {
    if rows == [] then b
    else
      var init, last := rows[..|rows| - 1], rows[|rows| - 1];
      var p := AppendAll(b, init);
      assert p.columns == [] ==> Filled(init) == 0 by {
        if p.columns == [] {
          NoneFilled(init);
        }
      }
      AppendRow(p, last)
  }

  /** `from_rows`; `countHash` is the hash of a column count. */
  function FromRows<V>(rows: seq<Row<V>>, countHash: nat -> nat): (b: Batch<V>)
    requires Accepted(rows)
    ensures b.selection.None? && b.columns == AppendAll(New(0, 0), rows).columns && b.numRows == |rows|
  {
    var b := AppendAll(New(0, 0), rows);
    b.(fingerprint := countHash(|b.columns|))
  }

  lemma AppendAllValid<V>(rows: seq<Row<V>>)
    requires Accepted(rows)
    ensures Valid(AppendAll(New(0, 0), rows)) <==> OneArity(rows)
  {
    var b := AppendAll(New(0, 0), rows);
    assert b.columns != [] ==> |b.columns[0]| == Filled(rows);
    if b.columns == [] {
      assert forall i :: 0 <= i < |rows| - 1 ==> rows[i] == [] || |rows[i]| == |rows[|rows| - 1]|;
    } else if Filled(rows) != |rows| {
      var i :| 0 <= i < |rows| && rows[i] == [];
      assert |rows[i]| != |rows[|rows| - 1]|;
    }
  }

  /** Of the row lists that are taken, exactly those of one arity come back as they
      went in; the others give a batch whose columns do not match its row count. */
  lemma FromRowsRoundTrip<V>(rows: seq<Row<V>>, countHash: nat -> nat)
    requires Accepted(rows)
    ensures var b := FromRows(rows, countHash); Valid(b) && Rows(b) == rows <==> OneArity(rows)
  {
    var b, a := FromRows(rows, countHash), AppendAll(New(0, 0), rows);
    AppendAllValid(rows);
    assert Valid(b) <==> Valid(a);
    if OneArity(rows) {
      AppendAllRows(rows);
      forall i | 0 <= i < |rows| ensures Rows(b)[i] == Rows(a)[i] {
        assert RowAt(b, i) == RowAt(a, i);
      }
    }
  }

  lemma {:induction false} AppendAllRows<V>(rows: seq<Row<V>>)
    requires OneArity(rows)
    ensures Valid(AppendAll(New(0, 0), rows)) && Rows(AppendAll(New(0, 0), rows)) == rows
    decreases |rows|
  {
    AppendAllValid(rows);
    if rows != [] {
      var init, last := rows[..|rows| - 1], rows[|rows| - 1];
      AppendAllRows(init);
      AppendRowRows(AppendAll(New(0, 0), init), last);
      assert init + [last] == rows;
    }
  }

  // ----------------------------------------------------- selecting and draining

  /** `set_selection` */
  function Selected<V>(b: Batch<V>, indices: seq<nat>): Batch<V> {
    b.(selection := Some(indices))
  }

  lemma SelectedRows<V>(b: Batch<V>, indices: seq<nat>)
    requires Valid(b) && b.selection.None?
    ensures Valid(Selected(b, indices)) ==> Rows(Selected(b, indices)) == Select(Rows(b), indices)
  {
    var s := Selected(b, indices);
    if Valid(s) {
      forall k | 0 <= k < |indices| ensures RowAt(s, k) == RowAt(b, indices[k]) {
      }
    }
  }

  /** What `into_rows` leaves behind: the selection stays installed. */
  function Drained<V>(b: Batch<V>): Batch<V> {
    b.(columns := [], numRows := 0)
  }

  /** The drained batch is empty, and well-formed, exactly when no rows were selected. */
  lemma DrainedExact<V>(b: Batch<V>)
    requires Valid(b)
    ensures NumRows(Drained(b)) == 0 <==> b.selection.None? || b.selection.value == []
    ensures Valid(Drained(b)) <==> b.selection.None? || b.selection.value == []
  {
    if b.selection.Some? && b.selection.value != [] {
      assert b.selection.value[0] >= Drained(b).numRows;
    }
  }

  /** A batch of one row with that row selected is drained and still claims a row. */
  lemma SelectionOutlivesRows<V>(v: V, fingerprint: nat)
    ensures var b := Selected(AppendRow(New<V>(0, fingerprint), [v]), [0]);
            && Valid(b) && Rows(b) == [[v]]
            && NumRows(Drained(b)) == 1 && !Valid(Drained(b))
  {
    var b := Selected(AppendRow(New<V>(0, fingerprint), [v]), [0]);
    assert RowAt(b, 0) == [v];
    DrainedExact(b);
  }

  // ------------------------------------------------------- gathering, slicing

  predicate InRange<V>(b: Batch<V>, indices: seq<nat>) {
    forall k :: 0 <= k < |indices| ==> indices[k] < NumRows(b)
  }

  /** Rows by logical position into a new identity-selected batch. */
  function Gather<V>(b: Batch<V>, indices: seq<nat>): (r: Batch<V>)
    requires Valid(b) && InRange(b, indices)
    ensures Valid(r) && r.selection.None? && r.numRows == |indices| && |r.columns| == |b.columns|
    ensures forall c, k :: 0 <= c < |b.columns| && 0 <= k < |indices| ==>
              r.columns[c][k] == b.columns[c][Physical(b, indices[k])]
  {
    Batch(
      seq(|b.columns|, c requires 0 <= c < |b.columns| =>
        seq(|indices|, k requires 0 <= k < |indices| => b.columns[c][Physical(b, indices[k])])),
      |indices|, None, b.fingerprint, b.names)
  }

  function Select<T>(s: seq<T>, indices: seq<nat>): (r: seq<T>)
    requires forall k :: 0 <= k < |indices| ==> indices[k] < |s|
    ensures |r| == |indices| && forall k :: 0 <= k < |r| ==> r[k] == s[indices[k]]
  {
    seq(|indices|, k requires 0 <= k < |indices| => s[indices[k]])
  }

  function Range(lo: nat, hi: nat): (r: seq<nat>)
    requires lo <= hi
    ensures |r| == hi - lo && forall k :: 0 <= k < |r| ==> r[k] == lo + k
  {
    seq(hi - lo, k requires 0 <= k => lo + k)
  }

  lemma GatherSelects<V>(b: Batch<V>, indices: seq<nat>)
    requires Valid(b) && InRange(b, indices)
    ensures Rows(Gather(b, indices)) == Select(Rows(b), indices)
  {
    var g := Gather(b, indices);
    forall k | 0 <= k < |indices| ensures RowAt(g, k) == RowAt(b, indices[k]) {
    }
  }

  lemma SelectRange<T>(s: seq<T>, lo: nat, hi: nat)
    requires lo <= hi <= |s|
    ensures Select(s, Range(lo, hi)) == s[lo..hi]
  {
  }

  /** Gathering from a gathered batch composes the positions. */
  lemma GatherGather<V>(b: Batch<V>, outer: seq<nat>, inner: seq<nat>)
    requires Valid(b) && InRange(b, outer) && InRange(Gather(b, outer), inner)
    ensures InRange(b, Select(outer, inner))
    ensures Gather(Gather(b, outer), inner) == Gather(b, Select(outer, inner))
  {
    var g, h := Gather(Gather(b, outer), inner), Gather(b, Select(outer, inner));
    forall c | 0 <= c < |b.columns| ensures g.columns[c] == h.columns[c] {
    }
    assert g.columns == h.columns;
  }

  // ------------------------------------------------------------------ hashing

  /** The bytes a value is written as. */
  type Encode<!V> = V -> seq<bv8>

  const SEED: bv64 := 0xdead_beef_cafe

  /** The bytes of the values of a projected row, each value followed by 0xff. */
  function Stream<V>(values: seq<V>, encode: Encode<V>): seq<bv8> {
    if values == [] then []
    else
      var n := |values| - 1;
      Stream(values[..n], encode) + (encode(values[n]) + [0xff])
  }

  predicate GoodColumns(width: nat, cols: seq<nat>) {
    forall k :: 0 <= k < |cols| ==> cols[k] < width
  }

  /** No columns named means all of them. */
  function Project<V>(row: Row<V>, cols: seq<nat>): seq<V>
    requires GoodColumns(|row|, cols)
  {
    if cols == [] then row else Select(row, cols)
  }

  /** The FNV-1a hash of a row's projected values. */
  function RowHash<V>(row: Row<V>, cols: seq<nat>, encode: Encode<V>): bv64
    requires GoodColumns(|row|, cols)
  {
    Fnv.Update(0xdead_beef_cafe, Stream(Project(row, cols), encode))
  }

  /** `hash_rows`, as a function of the logical rows alone. */
  function HashRows<V>(b: Batch<V>, cols: seq<nat>, encode: Encode<V>): (r: seq<bv64>)
    requires Valid(b) && GoodColumns(|b.columns|, cols)
    ensures |r| == NumRows(b) && forall i :: 0 <= i < |r| ==> r[i] == RowHash(Rows(b)[i], cols, encode)
  {
    seq(NumRows(b), i requires 0 <= i < NumRows(b) => RowHash(RowAt(b, i), cols, encode))
  }

  /** Hashing after gathering is gathering the hashes. */
  lemma HashGather<V>(b: Batch<V>, indices: seq<nat>, cols: seq<nat>, encode: Encode<V>)
    requires Valid(b) && InRange(b, indices) && GoodColumns(|b.columns|, cols)
    ensures HashRows(Gather(b, indices), cols, encode) == Select(HashRows(b, cols, encode), indices)
  {
    var g := Gather(b, indices);
    forall k | 0 <= k < |indices| ensures RowAt(g, k) == RowAt(b, indices[k]) {
    }
  }

  /** Rows that are written with one byte of difference never share a hash. */
  lemma HashTellsApart<V>(r: Row<V>, q: Row<V>, cols: seq<nat>, encode: Encode<V>,
                          before: seq<bv8>, x: bv8, y: bv8, after: seq<bv8>)
    requires GoodColumns(|r|, cols) && GoodColumns(|q|, cols)
    requires Stream(Project(r, cols), encode) == before + [x] + after
    requires Stream(Project(q, cols), encode) == before + [y] + after
    ensures RowHash(r, cols, encode) == RowHash(q, cols, encode) <==> x == y
  {
    hide Stream, Project;
    Fnv.OneByteApart(0xdead_beef_cafe, before, x, y, after);
  }

  // ----------------------------------------------------------- the mutable batch

  class MaterializedBatch<V> {
    var b: Batch<V>

    constructor (numColumns: nat, fingerprint: nat)
      ensures b == New(numColumns, fingerprint)
    {
      b := New(numColumns, fingerprint);
    }

    /** Panics on a row of another arity. */
    method Append(row: Row<V>)
      requires Valid(b) && Accepts(b, row)
      modifies this
      ensures b == AppendRow(old(b), row)
    {
      var cols := if b.columns == [] then EmptyColumns(|row|) else b.columns;
      ghost var before := cols;
      for c := 0 to |row|
        invariant |cols| == |before| == |row|
        invariant forall k :: 0 <= k < |cols| ==> cols[k] == if k < c then before[k] + [row[k]] else before[k]
      {
        cols := cols[c := cols[c] + [row[c]]];
      }
      b := b.(columns := cols, numRows := b.numRows + 1);
      assert b.columns == AppendRow(old(b), row).columns;
    }

    /** Logical row `i` is physical row `indices[i]` from now on. */
    method SetSelection(indices: seq<nat>)
      requires Valid(b)
      modifies this
      ensures b == Selected(old(b), indices) && NumRows(b) == |indices|
      ensures Valid(b) <==> forall i :: 0 <= i < |indices| ==> indices[i] < old(b).numRows
      ensures Valid(b) && old(b).selection.None? ==> Rows(b) == Select(Rows(old(b)), indices)
    {
      if b.selection.None? {
        SelectedRows(b, indices);
      }
      b := b.(selection := Some(indices));
    }

    /** `into_rows`: returns the logical rows and drains the columns. Exactly when no
        rows were selected is the batch left without logical rows, because a
        selection stays installed. */
    method IntoRows() returns (rows: seq<Row<V>>)
      requires Valid(b)
      modifies this
      ensures rows == Rows(old(b)) && b == Drained(old(b))
      ensures NumRows(b) == 0 <==> old(b).selection.None? || old(b).selection.value == []
      ensures Valid(b) <==> old(b).selection.None? || old(b).selection.value == []
    {
      DrainedExact(b);
      var logical := NumRows(b);
      var columns := b.columns;
      ghost var spec := Rows(b);
      rows := seq(logical, _ => []);
      if b.selection.Some? {
        var sel := b.selection.value;
        for i := 0 to |sel|
          invariant |rows| == logical
          invariant forall k :: 0 <= k < logical ==> rows[k] == if k < i then spec[k] else []
        {
          for c := 0 to |columns|
            invariant |rows| == logical
            invariant forall k :: 0 <= k < logical && k != i ==> rows[k] == if k < i then spec[k] else []
            invariant rows[i] == spec[i][..c]
          {
            rows := rows[i := rows[i] + [columns[c][sel[i]]]];
            assert spec[i][..c] + [spec[i][c]] == spec[i][..c + 1];
          }
          assert spec[i][..|columns|] == spec[i];
        }
      } else {
        for c := 0 to |columns|
          invariant |rows| == logical
          invariant forall k :: 0 <= k < logical ==> rows[k] == spec[k][..c]
        {
          for r := 0 to |columns[c]|
            invariant |rows| == logical
            invariant forall k :: 0 <= k < logical ==> rows[k] == spec[k][..if k < r then c + 1 else c]
          {
            assert spec[r][..c] + [spec[r][c]] == spec[r][..c + 1];
            rows := rows[r := rows[r] + [columns[c][r]]];
          }
        }
        assert forall k :: 0 <= k < logical ==> spec[k][..|columns|] == spec[k];
      }
      assert rows == spec;
      b := b.(columns := [], numRows := 0);
    }

    /** Positions outside the logical rows panic. */
    method GatherRows(indices: seq<nat>) returns (out: Batch<V>)
      requires Valid(b) && InRange(b, indices)
      ensures out == Gather(b, indices)
      ensures Rows(out) == Select(Rows(b), indices)
    {
      ghost var spec := Gather(b, indices);
      var cols := EmptyColumns(|b.columns|);
      for k := 0 to |indices|
        invariant |cols| == |b.columns|
        invariant forall c :: 0 <= c < |cols| ==> cols[c] == spec.columns[c][..k]
      {
        var phys := Physical(b, indices[k]);
        cols := PushRow(cols, phys);
        assert forall c :: 0 <= c < |cols| ==> spec.columns[c][..k + 1] == spec.columns[c][..k] + [b.columns[c][phys]];
      }
      assert forall c :: 0 <= c < |cols| ==> spec.columns[c][..|indices|] == spec.columns[c];
      out := Batch(cols, |indices|, None, b.fingerprint, b.names);
      assert cols == spec.columns;
      GatherSelects(b, indices);
    }

    /** Copies physical row `phys` to the end of the columns `cols`. */
    method PushRow(cols: seq<seq<V>>, phys: nat) returns (r: seq<seq<V>>)
      requires Valid(b) && |cols| == |b.columns| && phys < b.numRows
      ensures |r| == |cols| && forall c :: 0 <= c < |cols| ==> r[c] == cols[c] + [b.columns[c][phys]]
    {
      r := cols;
      for c := 0 to |cols|
        invariant |r| == |cols|
        invariant forall k :: 0 <= k < |cols| ==> r[k] == if k < c then cols[k] + [b.columns[k][phys]] else cols[k]
      {
        r := r[c := r[c] + [b.columns[c][phys]]];
      }
    }

    /** The selected rows offset..end, copied one by one. */
    method CopySelected(offset: nat, end: nat) returns (cols: seq<seq<V>>)
      requires Valid(b) && b.selection.Some? && offset <= end <= NumRows(b)
      ensures cols == Gather(b, Range(offset, end)).columns
    {
      ghost var spec := Gather(b, Range(offset, end)).columns;
      cols := EmptyColumns(|b.columns|);
      for i := offset to end
        invariant |cols| == |b.columns|
        invariant forall c :: 0 <= c < |cols| ==> cols[c] == spec[c][..i - offset]
      {
        cols := PushRow(cols, b.selection.value[i]);
      }
      assert forall c :: 0 <= c < |cols| ==> spec[c][..end - offset] == spec[c];
    }

    /** The physical rows offset..end, copied column by column. */
    method CopyContiguous(offset: nat, end: nat) returns (cols: seq<seq<V>>)
      requires Valid(b) && b.selection.None? && offset <= end <= NumRows(b)
      ensures cols == Gather(b, Range(offset, end)).columns
    {
      ghost var spec := Gather(b, Range(offset, end)).columns;
      cols := EmptyColumns(|b.columns|);
      for c := 0 to |b.columns|
        invariant |cols| == |b.columns|
        invariant forall k :: 0 <= k < |cols| ==> cols[k] == if k < c then spec[k] else []
      {
        assert b.columns[c][offset..end] == spec[c];
        cols := cols[c := cols[c] + b.columns[c][offset..end]];
      }
    }

    /** `slice_rows`: the logical rows from `offset` on, at most `len` of them, as far as
        there are any. */
    method SliceRows(offset: nat, len: nat) returns (out: Batch<V>)
      requires Valid(b) && (offset < NumRows(b) && len > 0 ==> offset + len < U64)
      ensures Valid(out) && out.selection.None? && |out.columns| == |b.columns|
      ensures out.fingerprint == b.fingerprint && out.names == b.names
      ensures var lo := if offset <= |Rows(b)| then offset else |Rows(b)|;
              var hi := if offset + len <= |Rows(b)| then offset + len else |Rows(b)|;
              Rows(out) == Rows(b)[lo..hi]
    {
      var total := NumRows(b);
      if offset >= total || len == 0 {
        out := Batch(EmptyColumns(|b.columns|), 0, None, b.fingerprint, b.names);
        assert Rows(out) == [];
        return;
      }
      var end := if offset + len <= total then offset + len else total;
      var cols;
      if b.selection.Some? {
        cols := CopySelected(offset, end);
      } else {
        cols := CopyContiguous(offset, end);
      }
      out := Batch(cols, end - offset, None, b.fingerprint, b.names);
      assert out == Gather(b, Range(offset, end));
      GatherSelects(b, Range(offset, end));
      SelectRange(Rows(b), offset, end);
    }

    method HashRow(i: nat, cols: seq<nat>, encode: Encode<V>) returns (hash: bv64)
      requires Valid(b) && i < NumRows(b) && GoodColumns(|b.columns|, cols)
      ensures hash == RowHash(Rows(b)[i], cols, encode)
    {
      var phys := Physical(b, i);
      ghost var values := Project(RowAt(b, i), cols);
      var width := if cols == [] then |b.columns| else |cols|;
      hash := SEED;
      for k := 0 to width
        invariant hash == Fnv.Update(0xdead_beef_cafe, Stream(values[..k], encode))
      {
        assert values[..k + 1][..k] == values[..k];
        var c := if cols == [] then k else cols[k];
        ghost var done, bytes := Stream(values[..k], encode), encode(values[k]);
        hash := Fnv.UpdateBytes(hash, encode(b.columns[c][phys]));
        hash := Fnv.UpdateBytes(hash, [0xff]);
        Fnv.UpdateConcat(Fnv.Update(0xdead_beef_cafe, done), bytes, [0xff]);
        Fnv.UpdateConcat(0xdead_beef_cafe, done, bytes + [0xff]);
      }
      assert values[..width] == values;
    }

    method HashAll(cols: seq<nat>, encode: Encode<V>) returns (out: seq<bv64>)
      requires Valid(b) && GoodColumns(|b.columns|, cols)
      ensures |out| == |Rows(b)|
      ensures forall i :: 0 <= i < |out| ==> out[i] == RowHash(Rows(b)[i], cols, encode)
    {
      hide RowHash;
      out := [];
      for i := 0 to NumRows(b)
        invariant |out| == i && forall k :: 0 <= k < i ==> out[k] == RowHash(Rows(b)[k], cols, encode)
      {
        var hash := HashRow(i, cols, encode);
        out := out + [hash];
      }
    }
  }
}
