/**
 The printed form of a type (`Display for DataType`) and its unique readability:
 no two types print alike, at any nesting depth.
 */
module TypeDisplay {
  import opened DataTypes

  function Keyword(k: Kind): string {
    match k
    case Empty => "EMPTY"
    case Unknown => "UNKNOWN"
    case Null => "NULL"
    case Bool => "BOOL"
    case SmallInt => "SMALLINT"
    case Int => "INT"
    case BigInt => "BIGINT"
    case Float => "FLOAT"
    case Double => "DOUBLE"
    case Decimal128 => "DECIMAL128"
    case String => "STRING"
    case Date => "DATE"
    case Time => "TIME"
    case DateTime => "DATETIME"
    case Vertex => "VERTEX"
    case Edge => "EDGE"
    case Path => "PATH"
    case Geography => "GEOGRAPHY"
    case DataSet => "DATASET"
    case Blob => "BLOB"
    case Vector => "VECTOR"
    case Json => "JSON"
    case JsonB => "JSONB"
    case Uuid => "UUID"
    case Interval => "INTERVAL"
  }

  /** The word a printed type starts with. */
  function Head(t: DataType): string {
    match t
    case Scalar(k) => Keyword(k)
    case List(_) => "LIST"
    case Map(_) => "MAP"
    case Set(_) => "SET"
    case FixedString(_) => "FIXEDSTRING"
    case VectorDense(_) => "VECTOR_DENSE"
    case VectorSparse(_) => "VECTOR_SPARSE"
    case Decimal(_, _) => "DECIMAL"
    case Union(_) => "UNION"
    case Struct(_) => "STRUCT"
    case Array(_, _) => "ARRAY"
  }

  predicate IsDigit(c: char) {
    '0' <= c <= '9'
  }

  /** Decimal notation of an unsigned integer. */
  function Digits(n: nat): (s: string)
    ensures s != "" && forall i :: 0 <= i < |s| ==> IsDigit(s[i])
  {
    if n < 10 then ['0' + n as char] else Digits(n / 10) + ['0' + (n % 10) as char]
  }

  function Display(t: DataType): string
    decreases t, 1
  {
    Head(t) + Tail(t)
  }

  /** The parameters of a printed type; containers of EMPTY keep the bare word. */
  function Tail(t: DataType): string
    decreases t, 0
  {
    match t
    case Scalar(_) => ""
    case List(e) => if e == EmptyType then "" else "<" + Display(e) + ">"
    case Map(e) => if e == EmptyType then "" else "<" + Display(e) + ">"
    case Set(e) => if e == EmptyType then "" else "<" + Display(e) + ">"
    case FixedString(n) => Size(n)
    case VectorDense(n) => Size(n)
    case VectorSparse(n) => Size(n)
    case Decimal(p, s) => "(" + Digits(p) + ", " + Digits(s) + ")"
    case Union(ts) => "(" + DisplayTypes(ts) + ")"
    case Struct(fs) => "<" + DisplayFields(fs) + ">"
    case Array(e, len) => "<" + Display(e) + ">" + if len.Some? then Size(len.value) else ""
  }

  function Size(n: nat): string {
    "(" + Digits(n) + ")"
  }

  function DisplayTypes(ts: seq<DataType>): string
    decreases ts, 2
  {
    if ts == [] then ""
    else if |ts| == 1 then Display(ts[0])
    else Display(ts[0]) + ", " + DisplayTypes(ts[1..])
  }

  function DisplayField(f: Field): string
    decreases f, 2
  {
    f.name + " " + Display(f.ty)
  }

  function DisplayFields(fs: seq<Field>): string
    decreases fs, 3
  {
    if fs == [] then ""
    else if |fs| == 1 then DisplayField(fs[0])
    else DisplayField(fs[0]) + ", " + DisplayFields(fs[1..])
  }

  // ------------------------------------------------------- the formatter loop

  lemma Assoc(a: string, b: string, c: string)
    ensures a + b + c == a + (b + c)
  {
  }

  lemma Enclose(f: string, open: string, s: string, close: string)
    ensures f + open + s + close == f + (open + s + close)
  {
  }

  /** `fmt`: appends the printed form to the formatter `f`. */
  method Fmt(t: DataType, f: string) returns (out: string)
    ensures out == f + Display(t)
    decreases t, 3
  {
    Assoc(f, Head(t), Tail(t));
    out := FmtTail(t, f + Head(t));
  }

  method FmtTail(t: DataType, f: string) returns (out: string)
    ensures out == f + Tail(t)
    decreases t, 2
  {
    match t
    case Scalar(_) => out := f;
    case List(e) => out := FmtElement(e, f);
    case Map(e) => out := FmtElement(e, f);
    case Set(e) => out := FmtElement(e, f);
    case FixedString(n) => out := f + Size(n);
    case VectorDense(n) => out := f + Size(n);
    case VectorSparse(n) => out := f + Size(n);
    case Decimal(p, s) => out := f + ("(" + Digits(p) + ", " + Digits(s) + ")");
    case Union(ts) =>
      out := FmtTypes(ts, f + "(");
      Enclose(f, "(", DisplayTypes(ts), ")");
      out := out + ")";
    case Struct(fs) =>
      out := FmtFields(fs, f + "<");
      Enclose(f, "<", DisplayFields(fs), ">");
      out := out + ">";
    case Array(e, len) =>
      out := Fmt(e, f + "<");
      Enclose(f, "<", Display(e), ">");
      out := out + ">";
      if len.Some? {
        Assoc(f, "<" + Display(e) + ">", Size(len.value));
        out := out + Size(len.value);
      }
  }

  method FmtElement(e: DataType, f: string) returns (out: string)
    ensures out == f + if e == EmptyType then "" else "<" + Display(e) + ">"
    decreases e, 4
  {
    out := f;
    if e != EmptyType {
      out := Fmt(e, out + "<");
      out := out + ">";
    }
  }

  method FmtTypes(ts: seq<DataType>, f: string) returns (out: string)
    ensures out == f + DisplayTypes(ts)
    decreases ts, 1
  {
    out := f;
    assert DisplayTypes([]) == "" && f + "" == f && ts[..0] == [];
    hide Display, DisplayTypes;
    for i := 0 to |ts|
      invariant out == f + DisplayTypes(ts[..i])
    {
      DisplayTypesSnoc(ts[..i], ts[i]);
      Snoc(ts, i);
      Enclose(f, DisplayTypes(ts[..i]), ", ", Display(ts[i]));
      if i > 0 {
        out := out + ", ";
      }
      out := Fmt(ts[i], out);
    }
    assert ts[..|ts|] == ts;
  }

  method FmtFields(fs: seq<Field>, f: string) returns (out: string)
    ensures out == f + DisplayFields(fs)
    decreases fs, 1
  {
    out := f;
    assert DisplayFields([]) == "" && f + "" == f && fs[..0] == [];
    hide Display, DisplayFields;
    for i := 0 to |fs|
      invariant out == f + DisplayFields(fs[..i])
    {
      DisplayFieldsSnoc(fs[..i], fs[i]);
      Snoc(fs, i);
      Enclose(f, DisplayFields(fs[..i]), ", ", DisplayField(fs[i]));
      if i > 0 {
        out := out + ", ";
      }
      Enclose(out, fs[i].name, " ", Display(fs[i].ty));
      out := Fmt(fs[i].ty, out + fs[i].name + " ");
    }
    assert fs[..|fs|] == fs;
  }

  lemma Snoc<T>(s: seq<T>, i: nat)
    requires i < |s|
    ensures s[..i] + [s[i]] == s[..i + 1]
  {
  }

  lemma {:induction false} DisplayTypesSnoc(ts: seq<DataType>, t: DataType)
    ensures DisplayTypes(ts + [t]) == if ts == [] then Display(t) else DisplayTypes(ts) + ", " + Display(t)
  {
    if ts == [] {
      assert ts + [t] == [t];
    } else {
      assert (ts + [t])[1..] == ts[1..] + [t];
      DisplayTypesSnoc(ts[1..], t);
    }
  }

  lemma {:induction false} DisplayFieldsSnoc(fs: seq<Field>, f: Field)
    ensures DisplayFields(fs + [f]) == if fs == [] then DisplayField(f) else DisplayFields(fs) + ", " + DisplayField(f)
  {
    if fs == [] {
      assert fs + [f] == [f];
    } else {
      assert (fs + [f])[1..] == fs[1..] + [f];
      DisplayFieldsSnoc(fs[1..], f);
    }
  }

  // --------------------------------------------------------- unique readability

  /** Field names that cannot be confused with the text around them. */
  predicate PlainName(n: string) {
    ' ' !in n && (n == "" || n[0] != '>')
  }

  ghost predicate PlainNames(t: DataType)
    decreases t
  {
    if t.Struct? then forall i :: 0 <= i < |t.fields| ==> PlainName(t.fields[i].name) && PlainNames(t.fields[i].ty)
    else if t.Union? then forall i :: 0 <= i < |t.types| ==> PlainNames(t.types[i])
    else t.List? || t.Map? || t.Set? || t.Array? ==> PlainNames(t.element)
  }

  /** What may follow a printed type: nothing, or one of `,`, `>`, `)`. */
  predicate Delimited(x: string) {
    x == "" || x[0] == ',' || x[0] == '>' || x[0] == ')'
  }

  predicate WordChar(c: char) {
    'A' <= c <= 'Z' || '0' <= c <= '9' || c == '_'
  }

  predicate Word(s: string) {
    forall i :: 0 <= i < |s| ==> WordChar(s[i])
  }

  lemma KeywordIsWord(k: Kind)
    ensures Word(Keyword(k))
  {
  }

  lemma HeadIsWord(t: DataType)
    ensures Word(Head(t))
  {
    if t.Scalar? {
      KeywordIsWord(t.kind);
    }
  }

  lemma HeadInjective(a: DataType, b: DataType)
    requires Head(a) == Head(b)
    ensures a.Scalar? || b.Scalar? ==> a == b
    ensures a.List? <==> b.List?
    ensures a.Map? <==> b.Map?
    ensures a.Set? <==> b.Set?
    ensures a.FixedString? <==> b.FixedString?
    ensures a.VectorDense? <==> b.VectorDense?
    ensures a.VectorSparse? <==> b.VectorSparse?
    ensures a.Decimal? <==> b.Decimal?
    ensures a.Union? <==> b.Union?
    ensures a.Struct? <==> b.Struct?
    ensures a.Array? <==> b.Array?
  {
  }

  lemma WordSplit(w: string, r: string, w': string, r': string)
    requires Word(w) && (r == "" || !WordChar(r[0]))
    requires Word(w') && (r' == "" || !WordChar(r'[0]))
    requires w + r == w' + r'
    ensures w == w' && r == r'
  {
    assert forall i :: 0 <= i < |w| ==> (w + r)[i] == w[i];
    assert forall i :: 0 <= i < |w'| ==> (w' + r')[i] == w'[i];
    assert r != "" ==> (w + r)[|w|] == r[0];
    assert r' != "" ==> (w' + r')[|w'|] == r'[0];
    assert |w| == |w'|;
    assert w == (w + r)[..|w|] && w' == (w' + r')[..|w|];
    assert r == (w + r)[|w|..] && r' == (w' + r')[|w|..];
  }

  lemma NameSplit(n: string, r: string, n': string, r': string)
    requires ' ' !in n && ' ' !in n' && n + " " + r == n' + " " + r'
    ensures n == n' && r == r'
  {
    assert forall i :: 0 <= i < |n| ==> (n + " " + r)[i] == n[i];
    assert forall i :: 0 <= i < |n'| ==> (n' + " " + r')[i] == n'[i];
    assert (n + " " + r)[|n|] == ' ' && (n' + " " + r')[|n'|] == ' ';
    assert |n| == |n'|;
    assert n == (n + " " + r)[..|n|] && n' == (n' + " " + r')[..|n|];
    assert r == (n + " " + r)[|n| + 1..] && r' == (n' + " " + r')[|n| + 1..];
  }

  lemma DropPrefix(p: string, r: string, r': string)
    requires p + r == p + r'
    ensures r == r'
  {
    assert r == (p + r)[|p|..] && r' == (p + r')[|p|..];
  }

  lemma {:induction false} DigitsInjective(m: nat, n: nat)
    requires Digits(m) == Digits(n)
    ensures m == n
    decreases m
  {
    var a, b := Digits(m), Digits(n);
    assert m >= 10 ==> |a| > 1 && a[|a| - 1] == '0' + (m % 10) as char && a[..|a| - 1] == Digits(m / 10);
    assert n >= 10 ==> |b| > 1 && b[|b| - 1] == '0' + (n % 10) as char && b[..|b| - 1] == Digits(n / 10);
    if m >= 10 && n >= 10 {
      DigitsInjective(m / 10, n / 10);
    }
  }

  lemma TailStart(t: DataType, x: string)
    requires Delimited(x)
    ensures Tail(t) + x == "" || !WordChar((Tail(t) + x)[0])
    ensures Tail(t) == "" ==> Tail(t) + x == x
    ensures Tail(t) != "" ==> !Delimited(Tail(t) + x)
  {
    assert Tail(t) == "" ==> Tail(t) + x == x;
    assert Tail(t) != "" ==> Tail(t)[0] == '<' || Tail(t)[0] == '(';
  }

  /** A printed type can be read back in only one way, whatever delimiter follows. */
  lemma {:induction false} DisplayUnique(a: DataType, b: DataType, x: string, y: string)
    requires PlainNames(a) && PlainNames(b) && Delimited(x) && Delimited(y)
    requires Display(a) + x == Display(b) + y
    ensures a == b && x == y
    decreases a, 2
  {
    Assoc(Head(a), Tail(a), x);
    Assoc(Head(b), Tail(b), y);
    HeadIsWord(a);
    HeadIsWord(b);
    TailStart(a, x);
    TailStart(b, y);
    WordSplit(Head(a), Tail(a) + x, Head(b), Tail(b) + y);
    HeadInjective(a, b);
    TailUnique(a, b, x, y);
  }

  lemma TailUnique(a: DataType, b: DataType, x: string, y: string)
    requires PlainNames(a) && PlainNames(b) && Delimited(x) && Delimited(y)
    requires Head(a) == Head(b) && Tail(a) + x == Tail(b) + y
    ensures a == b && x == y
    decreases a, 1
  {
    HeadInjective(a, b);
    match a
    case Scalar(_) => DropPrefix("", x, y);
    case List(_) => ElementUnique(a, b, x, y);
    case Map(_) => ElementUnique(a, b, x, y);
    case Set(_) => ElementUnique(a, b, x, y);
    case FixedString(n) => SizeUnique(n, b.size, x, y);
    case VectorDense(n) => SizeUnique(n, b.size, x, y);
    case VectorSparse(n) => SizeUnique(n, b.size, x, y);
    case Decimal(_, _) => DecimalUnique(a, b, x, y);
    case Union(ts) =>
      ParenSplit(DisplayTypes(ts), DisplayTypes(b.types), x, y);
      TypesUnique(ts, b.types, x, y);
    case Struct(fs) =>
      AngleSplit(DisplayFields(fs), DisplayFields(b.fields), x, y);
      FieldsUnique(fs, b.fields, x, y);
    case Array(_, _) => ArrayUnique(a, b, x, y);
  }

  lemma ParenSplit(s: string, s': string, x: string, y: string)
    requires "(" + s + ")" + x == "(" + s' + ")" + y
    ensures s + (")" + x) == s' + (")" + y)
  {
    assert "(" + s + ")" + x == "(" + (s + (")" + x));
    assert "(" + s' + ")" + y == "(" + (s' + (")" + y));
    DropPrefix("(", s + (")" + x), s' + (")" + y));
  }

  lemma AngleSplit(s: string, s': string, x: string, y: string)
    requires "<" + s + ">" + x == "<" + s' + ">" + y
    ensures s + (">" + x) == s' + (">" + y)
  {
    assert "<" + s + ">" + x == "<" + (s + (">" + x));
    assert "<" + s' + ">" + y == "<" + (s' + (">" + y));
    DropPrefix("<", s + (">" + x), s' + (">" + y));
  }

  lemma DigitsUnique(m: nat, n: nat, r: string, r': string)
    requires r != "" && !WordChar(r[0]) && r' != "" && !WordChar(r'[0])
    requires Digits(m) + r == Digits(n) + r'
    ensures m == n && r == r'
  {
    WordSplit(Digits(m), r, Digits(n), r');
    DigitsInjective(m, n);
  }

  lemma SizeUnique(m: nat, n: nat, x: string, y: string)
    requires Size(m) + x == Size(n) + y
    ensures m == n && x == y
  {
    ParenSplit(Digits(m), Digits(n), x, y);
    DigitsUnique(m, n, ")" + x, ")" + y);
    DropPrefix(")", x, y);
  }

  lemma DecimalRegroup(p: string, s: string, x: string)
    ensures "(" + p + ", " + s + ")" + x == "(" + (p + (", " + (s + (")" + x))))
  {
  }

  lemma DecimalUnique(a: DataType, b: DataType, x: string, y: string)
    requires a.Decimal? && b.Decimal? && Tail(a) + x == Tail(b) + y
    ensures a == b && x == y
  {
    var p, q := Digits(a.precision), Digits(b.precision);
    var s, t := Digits(a.scale), Digits(b.scale);
    hide Digits;
    DecimalRegroup(p, s, x);
    DecimalRegroup(q, t, y);
    DropPrefix("(", p + (", " + (s + (")" + x))), q + (", " + (t + (")" + y))));
    DigitsUnique(a.precision, b.precision, ", " + (s + (")" + x)), ", " + (t + (")" + y)));
    DropPrefix(", ", s + (")" + x), t + (")" + y));
    DigitsUnique(a.scale, b.scale, ")" + x, ")" + y);
    DropPrefix(")", x, y);
  }

  lemma ElementUnique(a: DataType, b: DataType, x: string, y: string)
    requires (a.List? && b.List?) || (a.Map? && b.Map?) || (a.Set? && b.Set?)
    requires PlainNames(a) && PlainNames(b) && Delimited(x) && Delimited(y) && Tail(a) + x == Tail(b) + y
    ensures a == b && x == y
    decreases a, 0
  {
    TailStart(a, x);
    TailStart(b, y);
    if a.element != EmptyType && b.element != EmptyType {
      AngleSplit(Display(a.element), Display(b.element), x, y);
      DisplayUnique(a.element, b.element, ">" + x, ">" + y);
      DropPrefix(">", x, y);
    }
  }

  lemma ArrayUnique(a: DataType, b: DataType, x: string, y: string)
    requires a.Array? && b.Array?
    requires PlainNames(a) && PlainNames(b) && Delimited(x) && Delimited(y) && Tail(a) + x == Tail(b) + y
    ensures a == b && x == y
    decreases a, 0
  {
    var s := if a.len.Some? then Size(a.len.value) else "";
    var t := if b.len.Some? then Size(b.len.value) else "";
    var d, e := Display(a.element), Display(b.element);
    Assoc("<" + d + ">", s, x);
    Assoc("<" + e + ">", t, y);
    AngleSplit(d, e, s + x, t + y);
    DisplayUnique(a.element, b.element, ">" + (s + x), ">" + (t + y));
    DropPrefix(">", s + x, t + y);
    assert s == "" ==> s + x == x;
    assert t == "" ==> t + y == y;
    assert s != "" ==> (s + x)[0] == '(';
    assert t != "" ==> (t + y)[0] == '(';
    if a.len.Some? && b.len.Some? {
      SizeUnique(a.len.value, b.len.value, x, y);
    }
  }

  /** What follows the first member of a printed list. */
  ghost function AfterType(ts: seq<DataType>, z: string): string
    requires ts != []
  {
    if |ts| == 1 then z else ", " + (DisplayTypes(ts[1..]) + z)
  }

  ghost function AfterField(fs: seq<Field>, z: string): string
    requires fs != []
  {
    if |fs| == 1 then z else ", " + (DisplayFields(fs[1..]) + z)
  }

  lemma FirstType(ts: seq<DataType>, z: string)
    requires ts != []
    ensures DisplayTypes(ts) + z == Display(ts[0]) + AfterType(ts, z)
  {
    if |ts| > 1 {
      Assoc(Display(ts[0]) + ", ", DisplayTypes(ts[1..]), z);
      Assoc(Display(ts[0]), ", ", DisplayTypes(ts[1..]) + z);
    }
  }

  lemma FirstField(fs: seq<Field>, z: string)
    requires fs != []
    ensures DisplayFields(fs) + z == fs[0].name + " " + (Display(fs[0].ty) + AfterField(fs, z))
  {
    var d := DisplayField(fs[0]);
    Assoc(fs[0].name + " ", Display(fs[0].ty), AfterField(fs, z));
    if |fs| > 1 {
      Assoc(d + ", ", DisplayFields(fs[1..]), z);
      Assoc(d, ", ", DisplayFields(fs[1..]) + z);
    }
  }

  lemma SameParts<T>(s: seq<T>, t: seq<T>)
    requires s != [] && t != [] && s[0] == t[0] && s[1..] == t[1..]
    ensures s == t
  {
    assert s == [s[0]] + s[1..] && t == [t[0]] + t[1..];
  }

  lemma {:induction false} TypesUnique(ts: seq<DataType>, us: seq<DataType>, x: string, y: string)
    requires forall i :: 0 <= i < |ts| ==> PlainNames(ts[i])
    requires forall i :: 0 <= i < |us| ==> PlainNames(us[i])
    requires DisplayTypes(ts) + (")" + x) == DisplayTypes(us) + (")" + y)
    ensures ts == us && x == y
    decreases ts, 0
  {
    var z, w := ")" + x, ")" + y;
    assert "" + z == z && "" + w == w;
    if us != [] {
      ListStart(us, w);
    }
    if ts != [] {
      ListStart(ts, z);
    }
    if ts == [] || us == [] {
      DropPrefix(")", x, y);
    } else {
      FirstType(ts, z);
      FirstType(us, w);
      DisplayUnique(ts[0], us[0], AfterType(ts, z), AfterType(us, w));
      hide Display, DisplayTypes, PlainNames;
      if |ts| == 1 || |us| == 1 {
        assert AfterType(ts, z)[0] == AfterType(us, w)[0];
        DropPrefix(")", x, y);
      } else {
        DropPrefix(", ", DisplayTypes(ts[1..]) + z, DisplayTypes(us[1..]) + w);
        TypesUnique(ts[1..], us[1..], x, y);
        SameParts(ts, us);
      }
    }
  }

  /** A non-empty list of types starts with a letter, not with a delimiter. */
  lemma ListStart(us: seq<DataType>, w: string)
    requires us != []
    ensures DisplayTypes(us) + w != "" && WordChar((DisplayTypes(us) + w)[0])
  {
    FirstType(us, w);
    HeadIsWord(us[0]);
    assert Head(us[0]) != "";
  }

  lemma {:induction false} FieldsUnique(fs: seq<Field>, gs: seq<Field>, x: string, y: string)
    requires forall i :: 0 <= i < |fs| ==> PlainName(fs[i].name) && PlainNames(fs[i].ty)
    requires forall i :: 0 <= i < |gs| ==> PlainName(gs[i].name) && PlainNames(gs[i].ty)
    requires DisplayFields(fs) + (">" + x) == DisplayFields(gs) + (">" + y)
    ensures fs == gs && x == y
    decreases fs, 0
  {
    var z, w := ">" + x, ">" + y;
    assert "" + z == z && "" + w == w;
    if gs != [] {
      FieldListStart(gs, w);
    }
    if fs != [] {
      FieldListStart(fs, z);
    }
    if fs == [] || gs == [] {
      DropPrefix(">", x, y);
    } else {
      FirstField(fs, z);
      FirstField(gs, w);
      NameSplit(fs[0].name, Display(fs[0].ty) + AfterField(fs, z), gs[0].name, Display(gs[0].ty) + AfterField(gs, w));
      DisplayUnique(fs[0].ty, gs[0].ty, AfterField(fs, z), AfterField(gs, w));
      hide Display, DisplayFields, PlainName, PlainNames;
      if |fs| == 1 || |gs| == 1 {
        assert AfterField(fs, z)[0] == AfterField(gs, w)[0];
        DropPrefix(">", x, y);
      } else {
        DropPrefix(", ", DisplayFields(fs[1..]) + z, DisplayFields(gs[1..]) + w);
        FieldsUnique(fs[1..], gs[1..], x, y);
        SameParts(fs, gs);
      }
    }
  }

  lemma FieldListStart(gs: seq<Field>, w: string)
    requires gs != [] && PlainName(gs[0].name)
    ensures DisplayFields(gs) + w != "" && (DisplayFields(gs) + w)[0] != '>'
  {
    FirstField(gs, w);
  }

  /** The printed form is injective on types with plain field names. */
  lemma DisplayInjective(a: DataType, b: DataType)
    requires PlainNames(a) && PlainNames(b) && Display(a) == Display(b)
    ensures a == b
  {
    assert Display(a) + "" == Display(a) && Display(b) + "" == Display(b);
    DisplayUnique(a, b, "", "");
  }

  /** A field name with a space can make two different types print alike. */
  lemma SpacesCollide()
    ensures var one := Struct([Field("a INT, b", Scalar(Int))]);
            var two := Struct([Field("a", Scalar(Int)), Field("b", Scalar(Int))]);
            one != two && Display(one) == Display(two)
  {
    var fs := [Field("a", Scalar(Int)), Field("b", Scalar(Int))];
    assert Display(Scalar(Int)) == "INT";
    assert DisplayField(fs[0]) == "a INT" && fs[1..] == [fs[1]];
    assert DisplayFields(fs) == "a INT" + ", " + "b INT";
    assert DisplayField(Field("a INT, b", Scalar(Int))) == "a INT, b INT";
    assert "a INT" + ", " + "b INT" == "a INT, b INT";
  }

  lemma StructText(fs: seq<Field>)
    ensures Display(Struct(fs)) == "STRUCT" + ("<" + DisplayFields(fs) + ">")
  {
  }

  lemma FieldText(name: string, t: DataType)
    ensures DisplayFields([Field(name, t)]) == name + " " + Display(t)
  {
    assert DisplayFields([Field(name, t)]) == DisplayField(Field(name, t));
  }

  lemma FieldListText(f: Field, g: Field)
    ensures DisplayFields([f, g]) == DisplayFields([f]) + ", " + DisplayFields([g])
  {
    assert [f, g][1..] == [g];
  }

  lemma TypeListText(t: DataType, ts: seq<DataType>)
    requires ts != []
    ensures DisplayTypes([t] + ts) == Display(t) + ", " + DisplayTypes(ts) && DisplayTypes([t]) == Display(t)
  {
    assert ([t] + ts)[1..] == ts;
  }

  /** The same text cut in two ways: a name `>,` or a closing bracket and a comma. */
  lemma BracketsRegroup(i: string)
    ensures "STRUCT" + ("<" + ((">," + " " + i) + ", " + ("STRUCT<y" + " " + i)) + ">")
         == "STRUCT" + ("<" + "" + ">") + ", " + (i + ", " + ("STRUCT" + ("<" + ("y" + " " + i) + ">")))
  {
    var rest := ", " + ("STRUCT<y" + " " + i) + ">";
    assert "STRUCT" + ("<" + ((">," + " " + i) + ", " + ("STRUCT<y" + " " + i)) + ">") == "STRUCT<>, " + (i + rest);
    assert "STRUCT" + ("<" + ("y" + " " + i) + ">") == "STRUCT<y" + (" " + i + ">");
    assert "STRUCT" + ("<" + "" + ">") + ", " == "STRUCT<>, ";
    assert rest == ", " + ("STRUCT<y" + (" " + i + ">"));
  }

  /** So can a name that starts with the closing bracket, without any space. */
  lemma BracketsCollide()
    ensures var one := Union([Struct([Field(">,", Scalar(Int)), Field("STRUCT<y", Scalar(Int))])]);
            var two := Union([Struct([]), Scalar(Int), Struct([Field("y", Scalar(Int))])]);
            one != two && Display(one) == Display(two)
  {
    var k := Scalar(Int);
    var f, g, y := Field(">,", k), Field("STRUCT<y", k), Struct([Field("y", k)]);
    var ts := [Struct([])] + ([k] + [y]);
    assert ts == [Struct([]), k, y] && DisplayFields([]) == "";
    hide Display, DisplayTypes, DisplayFields;
    StructText([f, g]);
    FieldListText(f, g);
    FieldText(">,", k);
    FieldText("STRUCT<y", k);
    TypeListText(Struct([f, g]), [k]);
    StructText([]);
    StructText([Field("y", k)]);
    FieldText("y", k);
    TypeListText(Struct([]), [k] + [y]);
    TypeListText(k, [y]);
    TypeListText(y, [k]);
    BracketsRegroup(Display(k));
    SameUnion([Struct([f, g])], ts);
  }

  lemma SameUnion(ts: seq<DataType>, us: seq<DataType>)
    requires DisplayTypes(ts) == DisplayTypes(us)
    ensures Display(Union(ts)) == Display(Union(us))
  {
  }
}
