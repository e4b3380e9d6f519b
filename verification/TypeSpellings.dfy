/**
 What the type parser accepts, said without its tables: the spellings of every scalar
 type, the numbered integer names by their width, and the texts the parser cannot tell
 apart because they differ in letter case or in spacing only.
 */
module TypeSpellings {
  import opened Integers
  import opened Options
  import opened Strings
  import opened DataTypes
  import opened TypeText
  import opened TypeDisplay
  import opened TypeParser
  import opened PrintedText
  import opened TypeRoundTrip
  import opened ParsedTypes
  import Algebra = TypeAlgebra

  // ---------------------------------------------------------------- spellings

  /** The word of a scalar type. */
  function Canonical(k: Kind): string {
    match k
    case Empty => "EMPTY"
    case Null => "NULL"
    case Unknown => "UNKNOWN"
    case Bool => "BOOL"
    case SmallInt => "SMALLINT"
    case Int => "INT"
    case BigInt => "BIGINT"
    case Float => "FLOAT"
    case Double => "DOUBLE"
    case Decimal128 => "DECIMAL128"
    case String => "STRING"
    case Date => "DATE"
    case Time => "TIME"
    case DateTime => "DATETIME"
    case Vertex => "VERTEX"
    case Edge => "EDGE"
    case Path => "PATH"
    case Geography => "GEOGRAPHY"
    case DataSet => "DATASET"
    case Blob => "BLOB"
    case Vector => "VECTOR"
    case Json => "JSON"
    case JsonB => "JSONB"
    case Uuid => "UUID"
    case Interval => "INTERVAL"
  }

  /** The other spellings, which follow PostgreSQL. */
  predicate Alias(u: string, k: Kind) {
    match k
    case Bool => u == "BOOLEAN"
    case SmallInt => u == "INT2"
    case Int => u == "INTEGER" || u == "INT4" || u == "INT16" || u == "INT32"
    case BigInt => u == "INT8" || u == "INT64"
    case Float => u == "REAL" || u == "FLOAT4"
    case Double => u == "DOUBLE PRECISION" || u == "FLOAT8"
    case String => u == "TEXT" || u == "VARCHAR" || u == "STR"
    case DateTime => u == "TIMESTAMP"
    case _ => false
  }

  /** The spellings of a scalar type in capitals. */
  predicate Spells(u: string, k: Kind) {
    u == Canonical(k) || Alias(u, k)
  }

  /** A scalar type is printed as its word, never as an alias. */
  lemma PrintsCanonical(k: Kind)
    ensures Display(Scalar(k)) == Keyword(k) == Canonical(k) && !Alias(Canonical(k), k)
  {
    assert Display(Scalar(k)) == Keyword(k) + "";
  }

  lemma RestSpells(u: string, k: Kind)
    requires NamedRest(u) == Some(Scalar(k))
    ensures u == Canonical(k)
  {
  }

  lemma MoreCanonical(u: string, k: Kind)
    requires NamedMore(u) == Some(Scalar(k)) && NamedMore(u) != NamedRest(u) && !k.String? && !k.DateTime?
    ensures u == Canonical(k)
  {
    hide NamedRest;
  }

  lemma MoreSpells(u: string, k: Kind)
    requires NamedMore(u) == Some(Scalar(k)) && NamedMore(u) != NamedRest(u)
    ensures u == Canonical(k) || Alias(u, k)
  {
    hide NamedRest;
    if !k.String? && !k.DateTime? {
      hide NamedMore, Canonical, Alias;
      MoreCanonical(u, k);
    }
  }

  lemma NamedSpells(u: string, k: Kind)
    requires Named(u) == Some(Scalar(k)) && Named(u) != NamedMore(u)
    ensures u == Canonical(k) || Alias(u, k)
  {
    hide NamedMore;
  }

  lemma NamedIsSpelling(u: string, k: Kind)
    requires Named(u) == Some(Scalar(k))
    ensures Spells(u, k)
  {
    hide Named, NamedMore, NamedRest, Canonical, Alias;
    if Named(u) != NamedMore(u) {
      NamedSpells(u, k);
    } else if NamedMore(u) != NamedRest(u) {
      MoreSpells(u, k);
    } else {
      RestSpells(u, k);
    }
  }

  lemma IntegerAliases()
    ensures Named("INT2") == Some(Scalar(SmallInt))
    ensures Named("INTEGER") == Some(Scalar(Int)) && Named("INT4") == Some(Scalar(Int))
    ensures Named("INT16") == Some(Scalar(Int)) && Named("INT32") == Some(Scalar(Int))
    ensures Named("INT8") == Some(Scalar(BigInt)) && Named("INT64") == Some(Scalar(BigInt))
  {
    hide NamedMore;
  }

  lemma FloatAliases()
    ensures Named("FLOAT4") == Some(Scalar(Float)) && Named("REAL") == Some(Scalar(Float))
    ensures Named("FLOAT8") == Some(Scalar(Double)) && Named("DOUBLE PRECISION") == Some(Scalar(Double))
    ensures Named("BOOLEAN") == Some(Scalar(Bool))
  {
    hide NamedMore;
  }

  lemma TextAliases()
    ensures Named("VARCHAR") == NamedMore("VARCHAR") && Named("TEXT") == NamedMore("TEXT")
  {
    hide NamedMore;
  }

  lemma ShortAliases()
    ensures Named("STR") == NamedMore("STR") && Named("TIMESTAMP") == NamedMore("TIMESTAMP")
  {
    hide NamedMore;
  }

  lemma MoreAliases()
    ensures NamedMore("VARCHAR") == Some(Scalar(String)) && NamedMore("TEXT") == Some(Scalar(String))
    ensures NamedMore("STR") == Some(Scalar(String)) && NamedMore("TIMESTAMP") == Some(Scalar(DateTime))
  {
    hide NamedRest;
  }

  lemma AliasNamed(u: string, k: Kind)
    requires Alias(u, k)
    ensures Named(u) == Some(Scalar(k))
  {
    hide Named, NamedMore;
    IntegerAliases();
    FloatAliases();
    TextAliases();
    ShortAliases();
    MoreAliases();
  }

  lemma SpellsNamed(u: string, k: Kind)
    requires Spells(u, k)
    ensures Named(u) == Some(Scalar(k))
  {
    hide Named, Canonical, Alias, Keyword;
    if Alias(u, k) {
      AliasNamed(u, k);
    } else {
      PrintsCanonical(k);
      NamedKeyword(k);
    }
  }

  /** The text in capitals names the type without parameters: a scalar, or a container
      of nothing in particular. */
  predicate Names(u: string, t: DataType) {
    match t
    case Scalar(k) => Spells(u, k)
    case List(e) => e == EmptyType && u == "LIST"
    case Map(e) => e == EmptyType && u == "MAP"
    case Set(e) => e == EmptyType && u == "SET"
    case _ => false
  }

  lemma NamedContainer(u: string)
    requires Named(u).Some? && !Named(u).value.Scalar?
    ensures Names(u, Named(u).value)
  {
  }

  lemma NamedExact(u: string, t: DataType)
    ensures Named(u) == Some(t) <==> Names(u, t)
  {
    hide Named, Spells;
    if Named(u) == Some(t) {
      if t.Scalar? {
        NamedIsSpelling(u, t.kind);
      } else {
        NamedContainer(u);
      }
    }
    if Names(u, t) {
      if t.Scalar? {
        SpellsNamed(u, t.kind);
      } else {
        BareList();
        BareMap();
        BareSet();
      }
    }
  }

  // ---------------------------------------------------- text without parameters

  predicate Opens(c: char) {
    c == '<' || c == '('
  }

  predicate Flat(s: string) {
    forall i :: 0 <= i < |s| ==> !Opens(s[i])
  }

  lemma FlatConcat(a: string, b: string)
    requires Flat(a) && Flat(b)
    ensures Flat(a + b)
  {
  }

  lemma {:induction false} SqueezeFlat(s: string)
    requires Flat(s)
    ensures Flat(Squeeze(s))
    decreases |s|
  {
    if s != "" && IsSpace(s[0]) {
      SqueezeFlat(s[1..]);
    } else if s != "" {
      var w := FirstWord(s);
      var rest := s[|w|..];
      assert w != "";
      SqueezeFlat(rest);
      assert Words(s) == [w] + Words(rest) && ([w] + Words(rest))[1..] == Words(rest);
      if Words(rest) != [] {
        FlatConcat(w, " ");
        FlatConcat(w + " ", Squeeze(rest));
      }
    }
  }

  lemma UpperFlat(s: string)
    requires Flat(s)
    ensures Flat(Upper(s))
  {
  }

  lemma NoPrefix(u: string, p: string)
    requires Flat(u) && p != "" && Opens(p[|p| - 1])
    ensures !StartsWith(u, p)
  {
    assert |u| >= |p| ==> !Opens(u[|p| - 1]);
  }

  lemma FlatIsUnsized(u: string)
    requires Flat(u)
    ensures ParseSized(u).None?
  {
    NoPrefix(u, "FIXEDSTRING(");
    NoPrefix(u, "FIXED_STRING(");
    NoPrefix(u, "VECTOR_DENSE(");
    NoPrefix(u, "VECTOR_SPARSE(");
    NoPrefix(u, "VECTOR(");
    hide StartsWith;
  }

  lemma FlatHasNoParameters(s: string, u: string, depth: nat)
    requires Flat(u) && |u| <= |s|
    ensures ParseParameterized(s, u, depth).None?
  {
    NoPrefix(u, "LIST<");
    NoPrefix(u, "MAP<");
    NoPrefix(u, "SET<");
    NoPrefix(u, "STRUCT<");
    NoPrefix(u, "ARRAY<");
    NoPrefix(u, "DECIMAL(");
    NoPrefix(u, "UNION(");
    FlatIsUnsized(u);
    hide StartsWith, ParseSized, ParseElement, ParseArray, ParseStruct, ParseDecimal, ParseUnion;
  }

  /** Text without an opening bracket or parenthesis is a type exactly when its words, in
      capitals and with single spaces, are a spelling of that type. */
  lemma FlatTextExact(s: string, depth: nat, t: DataType)
    requires Flat(s)
    ensures Parse(s, depth) == Some(t) <==> depth < 16 && Names(Upper(Squeeze(s)), t)
  {
    var u := Upper(Squeeze(s));
    SqueezeShrinks(s);
    SqueezeFlat(s);
    UpperFlat(Squeeze(s));
    FlatHasNoParameters(s, u, depth);
    NamedExact(u, t);
    hide Named, Names, ParseParameterized, Squeeze, Upper;
  }

  // ------------------------------------------------------ integers by their width

  /** Bits of the integer type written `INTn`: `n` counts bytes up to 8 and bits from 16
      on, and no bit count gives less than 32; 0 where the name is no type. */
  function IntegerBits(n: nat): nat {
    if n == 2 || n == 4 || n == 8 then 8 * n
    else if n == 16 then 32
    else if n == 32 || n == 64 then n
    else 0
  }

  lemma NumberedText(n: nat)
    ensures var s := "INT" + Digits(n); Flat(s) && Upper(Squeeze(s)) == s
  {
    var s := "INT" + Digits(n);
    assert Solid(s) by {
      assert forall i :: 0 <= i < |s| ==> i < 3 || (s[i] == Digits(n)[i - 3] && IsDigit(s[i]));
    }
    assert Upper(s) == s;
    hide Digits, Upper;
    SolidIsTidy(s, true);
    SqueezeNeat(s);
  }

  lemma NumberedNames(u: string, t: DataType)
    requires Names(u, t) && |u| > 3 && u[..3] == "INT" && IsDigit(u[3])
    ensures u == "INT2" || u == "INT4" || u == "INT8" || u == "INT16" || u == "INT32" || u == "INT64"
  {
  }

  lemma NumberOf(n: nat, m: nat)
    requires "INT" + Digits(n) == "INT" + Digits(m)
    ensures n == m
  {
    DropPrefix("INT", Digits(n), Digits(m));
    DigitsInjective(n, m);
  }

  lemma SmallNumbers()
    ensures "INT" + Digits(2) == "INT2" && "INT" + Digits(4) == "INT4" && "INT" + Digits(8) == "INT8"
    ensures "INT" + Digits(16) == "INT16" && "INT" + Digits(32) == "INT32" && "INT" + Digits(64) == "INT64"
  {
  }

  /** The numbered integer names that exist, each with the width of its type. */
  lemma NumberedIntegers(n: nat, depth: nat)
    requires depth < 16
    ensures var r := Parse("INT" + Digits(n), depth);
            if IntegerBits(n) == 0 then r.None?
            else r.Some? && r.value.Scalar? && Algebra.Width(r.value.kind) == IntegerBits(n)
  {
    var s := "INT" + Digits(n);
    var r := Parse(s, depth);
    NumberedText(n);
    SmallNumbers();
    hide Digits, Squeeze, Upper, Parse, Flat;
    if r.Some? {
      FlatTextExact(s, depth, r.value);
      OnlySixNumbers(n, r.value);
    }
    if IntegerBits(n) != 0 {
      FlatTextExact(s, depth, Scalar(if n == 2 then SmallInt else if n == 8 || n == 64 then BigInt else Int));
    }
  }

  lemma OnlySixNumbers(n: nat, t: DataType)
    requires Names("INT" + Digits(n), t)
    ensures IntegerBits(n) != 0
  {
    hide Names;
    var s := "INT" + Digits(n);
    assert s[..3] == "INT" && s[3] == Digits(n)[0];
    NumberedNames(s, t);
    SmallNumbers();
    hide Digits;
    if s == "INT2" {
      NumberOf(n, 2);
    } else if s == "INT4" {
      NumberOf(n, 4);
    } else if s == "INT8" {
      NumberOf(n, 8);
    } else if s == "INT16" {
      NumberOf(n, 16);
    } else if s == "INT32" {
      NumberOf(n, 32);
    } else {
      NumberOf(n, 64);
    }
  }

  // ------------------------------------------------------------- number notation

  function Zeros(z: nat): (s: string)
    ensures |s| == z && forall i :: 0 <= i < z ==> s[i] == '0'
  {
    if z == 0 then "" else Zeros(z - 1) + "0"
  }

  /** Decimal notation with any number of leading zeros. */
  ghost predicate Denotes(s: string, n: nat) {
    exists z: nat :: s == Zeros(z) + Digits(n)
  }

  lemma ValueSnoc(s: string, c: char)
    requires (forall i :: 0 <= i < |s| ==> IsDigit(s[i])) && IsDigit(c)
    ensures var r := s + [c];
            (forall i :: 0 <= i < |r| ==> IsDigit(r[i])) && Value(r) == 10 * Value(s) + (c as int - '0' as int)
  {
    assert (s + [c])[..|s|] == s;
  }

  lemma {:induction false} ZerosValue(z: nat)
    ensures Value(Zeros(z)) == 0
  {
    if z > 0 {
      ZerosValue(z - 1);
      ValueSnoc(Zeros(z - 1), '0');
    }
  }

  lemma {:induction false} DenotedValue(z: nat, n: nat)
    ensures AllDigits(Zeros(z) + Digits(n)) && Value(Zeros(z) + Digits(n)) == n
    decreases n
  {
    ZerosValue(z);
    if n < 10 {
      ValueSnoc(Zeros(z), '0' + n as char);
    } else {
      var c := '0' + (n % 10) as char;
      DenotedValue(z, n / 10);
      ValueSnoc(Zeros(z) + Digits(n / 10), c);
      Assoc(Zeros(z), Digits(n / 10), [c]);
    }
  }

  lemma {:induction false} DigitsDenote(s: string) returns (z: nat)
    requires AllDigits(s)
    ensures s == Zeros(z) + Digits(Value(s))
    decreases |s|
  {
    var k := |s| - 1;
    var t, c := s[..k], s[k];
    assert s == t + [c] && IsDigit(c);
    ValueSnoc(t, c);
    var v := Value(s);
    if t == "" {
      z := 0;
    } else {
      z := DigitsDenote(t);
      assert v / 10 == Value(t) && '0' + (v % 10) as char == c;
      if Value(t) == 0 {
        z := z + 1;
      } else {
        Assoc(Zeros(z), Digits(Value(t)), [c]);
      }
    }
  }

  /** A size is read from decimal notation, if it fits. */
  lemma SizeExact(s: string, n: Usize)
    ensures ParseSize(s) == Some(n) <==> Denotes(s, n)
  {
    if AllDigits(s) {
      var z := DigitsDenote(s);
    }
    if Denotes(s, n) {
      var z: nat :| s == Zeros(z) + Digits(n);
      DenotedValue(z, n);
    }
  }

  /** A byte may have a plus sign in front. */
  lemma ByteExact(s: string, n: Byte)
    ensures ParseByte(s) == Some(n) <==> Denotes(s, n) || (s != "" && s[0] == '+' && Denotes(s[1..], n))
  {
    var digits := if s != "" && s[0] == '+' then s[1..] else s;
    if AllDigits(digits) {
      var z := DigitsDenote(digits);
    }
    if Denotes(s, n) {
      var z: nat :| s == Zeros(z) + Digits(n);
      DenotedValue(z, n);
    } else if Denotes(digits, n) {
      var z: nat :| digits == Zeros(z) + Digits(n);
      DenotedValue(z, n);
    }
  }

  // ------------------------------------------------------------ types with sizes

  predicate Sized(t: DataType) {
    t.FixedString? || t.VectorDense? || t.VectorSparse?
  }

  /** The words of the types with one size. */
  predicate SizedWord(w: string, t: DataType) {
    match t
    case FixedString(_) => w == "FIXEDSTRING" || w == "FIXED_STRING"
    case VectorDense(_) => w == "VECTOR_DENSE" || w == "VECTOR"
    case VectorSparse(_) => w == "VECTOR_SPARSE"
    case _ => false
  }

  /** The word, then the size in parentheses, with blanks around it or not. */
  ghost predicate SizedAs(u: string, t: DataType, w: string, x: string)
    requires Sized(t)
  {
    SizedWord(w, t) && u == w + ("(" + (x + ")")) && Denotes(Trim(x), t.size)
  }

  ghost predicate SizedText(u: string, t: DataType)
    requires Sized(t)
  {
    exists w, x :: SizedAs(u, t, w, x)
  }

  lemma SizedWordIsWord(w: string, t: DataType)
    requires SizedWord(w, t)
    ensures Word(w)
  {
  }

  lemma AngleTests(w: string, r: string)
    requires Word(w) && r != "" && r[0] == '('
    ensures var u := w + r;
            && !StartsWith(u, "LIST<") && !StartsWith(u, "MAP<") && !StartsWith(u, "SET<")
            && !StartsWith(u, "STRUCT<") && !StartsWith(u, "ARRAY<")
  {
    assert "LIST" + ['<'] == "LIST<" && "MAP" + ['<'] == "MAP<" && "SET" + ['<'] == "SET<";
    assert "STRUCT" + ['<'] == "STRUCT<" && "ARRAY" + ['<'] == "ARRAY<";
    hide StartsWith;
    PrefixOf(w, r, "LIST", '<');
    PrefixOf(w, r, "MAP", '<');
    PrefixOf(w, r, "SET", '<');
    PrefixOf(w, r, "STRUCT", '<');
    PrefixOf(w, r, "ARRAY", '<');
  }

  lemma WordTests(w: string, r: string)
    requires Word(w) && r != "" && r[0] == '('
    ensures StartsWith(w + r, "DECIMAL(") <==> w == "DECIMAL"
    ensures StartsWith(w + r, "UNION(") <==> w == "UNION"
  {
    assert "DECIMAL" + ['('] == "DECIMAL(" && "UNION" + ['('] == "UNION(";
    hide StartsWith;
    PrefixOf(w, r, "DECIMAL", '(');
    PrefixOf(w, r, "UNION", '(');
  }

  lemma ParenWords()
    ensures "FIXEDSTRING" + ['('] == "FIXEDSTRING(" && "FIXED_STRING" + ['('] == "FIXED_STRING("
    ensures "VECTOR_DENSE" + ['('] == "VECTOR_DENSE(" && "VECTOR_SPARSE" + ['('] == "VECTOR_SPARSE("
    ensures "VECTOR" + ['('] == "VECTOR("
  {
  }

  lemma SizedWordTests(w: string, r: string)
    requires Word(w) && r != "" && r[0] == '('
    ensures StartsWith(w + r, "FIXEDSTRING(") <==> w == "FIXEDSTRING"
    ensures StartsWith(w + r, "FIXED_STRING(") <==> w == "FIXED_STRING"
    ensures StartsWith(w + r, "VECTOR_DENSE(") <==> w == "VECTOR_DENSE"
    ensures StartsWith(w + r, "VECTOR_SPARSE(") <==> w == "VECTOR_SPARSE"
    ensures StartsWith(w + r, "VECTOR(") <==> w == "VECTOR"
  {
    ParenWords();
    hide StartsWith;
    PrefixOf(w, r, "FIXEDSTRING", '(');
    PrefixOf(w, r, "FIXED_STRING", '(');
    PrefixOf(w, r, "VECTOR_DENSE", '(');
    PrefixOf(w, r, "VECTOR_SPARSE", '(');
    PrefixOf(w, r, "VECTOR", '(');
  }

  /** What is left after the word and its parenthesis. */
  lemma AfterOpen(w: string, x: string, p: string)
    requires p == w + ['(']
    ensures var u := w + ("(" + (x + ")"));
            StartsWith(u, p) && AfterPrefix(u, p) == x + ")"
  {
    var u := w + ("(" + (x + ")"));
    assert u == p + (x + ")");
  }

  lemma ReadSize(x: string, t: DataType)
    requires Sized(t) && Denotes(Trim(x), t.size)
    ensures ParseSizeParam(x + ")") == Some(t.size)
  {
    InnerText(x);
    SizeExact(Trim(x), t.size);
    hide Trim, ParseSize, Inner, Denotes;
  }

  lemma SizedReads(u: string, t: DataType, w: string, x: string)
    requires Sized(t) && SizedAs(u, t, w, x)
    ensures ParseSized(u) == Some(t)
  {
    SizedWordIsWord(w, t);
    ReadSize(x, t);
    SizedWordTests(w, "(" + (x + ")"));
    var p := w + ['('];
    AfterOpen(w, x, p);
    hide StartsWith, AfterPrefix, ParseSizeParam, Denotes, Trim, Word;
  }

  lemma SizeRead(u: string, w: string, p: string, t: DataType) returns (x: string)
    requires p == w + ['('] && StartsWith(u, p) && Sized(t) && ParseSizeParam(AfterPrefix(u, p)) == Some(t.size)
    ensures u == w + ("(" + (x + ")")) && Denotes(Trim(x), t.size)
  {
    var rest := AfterPrefix(u, p);
    x := Inner(rest).value;
    SizeExact(Trim(x), t.size);
    assert rest == x + ")" && u == p + rest;
    hide Trim, ParseSize, Denotes;
    assert u == w + ("(" + (x + ")"));
  }

  lemma SizedIsText(u: string, t: DataType)
    requires Sized(t) && ParseSized(u) == Some(t)
    ensures SizedText(u, t)
  {
    hide Denotes, Trim, ParseSizeParam, StartsWith, AfterPrefix;
    ParenWords();
    var w :=
      if StartsWith(u, "FIXEDSTRING(") then "FIXEDSTRING"
      else if StartsWith(u, "FIXED_STRING(") then "FIXED_STRING"
      else if StartsWith(u, "VECTOR_DENSE(") then "VECTOR_DENSE"
      else if StartsWith(u, "VECTOR_SPARSE(") then "VECTOR_SPARSE"
      else "VECTOR";
    var x := SizeRead(u, w, w + ['('], t);
    assert SizedAs(u, t, w, x);
  }

  lemma DecimalIsDecimal(rest: string)
    ensures ParseDecimal(rest).Some? ==> ParseDecimal(rest).value.Decimal?
  {
  }

  lemma SizedIsSized(u: string)
    ensures ParseSized(u).Some? ==> Sized(ParseSized(u).value)
  {
  }

  lemma UnionIsUnion(rest: string, depth: nat, bound: nat)
    requires |rest| < bound
    ensures ParseUnion(rest, depth, bound).Some? ==> ParseUnion(rest, depth, bound).value.Union?
  {
  }

  /** Which branch a type with a size, or a DECIMAL, comes from. */
  lemma LeafBranch(s: string, u: string, depth: nat)
    requires |u| <= |s| && ParseParameterized(s, u, depth).Some?
    ensures var t := ParseParameterized(s, u, depth).value;
            && (Sized(t) ==> ParseSized(u) == Some(t))
            && (t.Decimal? ==> StartsWith(u, "DECIMAL(") && ParseDecimal(AfterPrefix(u, "DECIMAL(")) == Some(t))
  {
    hide ParseElement, ParseSized, ParseUnion, ParseDecimal, StartsWith, ParseFields, Parse;
    SizedIsSized(u);
    if StartsWith(u, "DECIMAL(") {
      DecimalIsDecimal(AfterPrefix(u, "DECIMAL("));
    } else if StartsWith(u, "UNION(") {
      assert |AfterPrefix(u, "UNION(")| < |s| by {
        PrefixFits(u, "UNION(");
      }
      UnionIsUnion(AfterPrefix(u, "UNION("), depth, |s|);
    }
  }

  lemma PrefixFits(u: string, p: string)
    requires StartsWith(u, p)
    ensures |AfterPrefix(u, p)| == |u| - |p|
  {
  }

  lemma ParenIsNoName(u: string, i: nat)
    requires i < |u| && u[i] == '('
    ensures Named(u).None? && u != "VID"
  {
    hide Named;
    if Named(u).Some? {
      NamedHasNoBracket(u);
    }
    if u == "VID" {
      RestHasNoBracket(u);
    }
  }

  lemma NoSizeInNames(u: string, t: DataType)
    requires Named(u) == Some(t)
    ensures !Sized(t) && !t.Decimal?
  {
    NamedIsLeaf(u);
  }

  /** A type with one size is written by one of its words with the size after it, in
      parentheses and in decimal notation, and by nothing else. */
  lemma SizedTextExact(s: string, depth: nat, t: DataType)
    requires Sized(t)
    ensures Parse(s, depth) == Some(t) <==> depth < 16 && SizedText(Upper(Squeeze(s)), t)
  {
    var u := Upper(Squeeze(s));
    SqueezeShrinks(s);
    hide Named, Squeeze, Upper, ParseParameterized, ParseSized, SizedAs;
    if Parse(s, depth) == Some(t) {
      if Named(u) == Some(t) {
        NoSizeInNames(u, t);
      }
      LeafBranch(s, u, depth);
      SizedIsText(u, t);
    }
    if depth < 16 && SizedText(u, t) {
      var w, x :| SizedAs(u, t, w, x);
      SizedBranchOf(s, u, depth, t, w, x);
    }
  }

  lemma SizedBranchOf(s: string, u: string, depth: nat, t: DataType, w: string, x: string)
    requires Sized(t) && SizedAs(u, t, w, x) && |u| <= |s|
    ensures Named(u).None? && u != "VID" && ParseParameterized(s, u, depth) == Some(t)
  {
    SizedReads(u, t, w, x);
    SizedWordIsWord(w, t);
    var r := "(" + (x + ")");
    assert u == w + r && u[|w|] == '(';
    ParenIsNoName(u, |w|);
    AngleTests(w, r);
    WordTests(w, r);
    hide Named, StartsWith, ParseSized, Denotes, Trim;
  }

  // ------------------------------------------------------------------- decimals

  ghost predicate ByteText(s: string, n: nat) {
    Denotes(s, n) || (s != "" && s[0] == '+' && Denotes(s[1..], n))
  }

  ghost predicate DecimalAs(u: string, p: nat, q: nat, x: string, y: string) {
    u == "DECIMAL" + ("(" + (x + "," + y + ")")) && ByteText(Trim(x), p) && ByteText(Trim(y), q)
  }

  lemma DecimalRegroups(u: string, rest: string, inner: string)
    requires StartsWith(u, "DECIMAL(") && rest == AfterPrefix(u, "DECIMAL(") && Inner(rest) == Some(inner)
    ensures u == "DECIMAL" + ("(" + (inner + ")"))
  {
    assert rest == inner + ")" && u == "DECIMAL(" + rest;
  }

  lemma DecimalIsText(u: string, p: Byte, q: Byte) returns (x: string, y: string)
    requires StartsWith(u, "DECIMAL(") && ParseDecimal(AfterPrefix(u, "DECIMAL(")) == Some(Decimal(p, q))
    ensures DecimalAs(u, p, q, x, y)
  {
    hide SplitAll, ParseByte, Trim, Denotes, StartsWith, AfterPrefix, Inner;
    var rest := AfterPrefix(u, "DECIMAL(");
    var inner := Inner(rest).value;
    var parts := SplitAll(inner);
    SplitAllJoin(inner);
    x, y := parts[0], parts[1];
    ByteExact(Trim(x), p);
    ByteExact(Trim(y), q);
    DecimalRegroups(u, rest, inner);
  }

  lemma {:induction false} MarksComma(s: string)
    requires Marks(s) == ""
    ensures NoCommas(s)
    decreases |s|
  {
    if s != "" {
      MarksComma(s[1..]);
      assert forall i :: 1 <= i < |s| ==> s[i] == s[1..][i - 1];
    }
  }

  lemma PairReads(x: string, y: string, p: Byte, q: Byte)
    requires ParseByte(Trim(x)) == Some(p) && ParseByte(Trim(y)) == Some(q)
    ensures ParseDecimal(x + "," + y + ")") == Some(Decimal(p, q))
  {
    hide Trim, ParseByte, NoCommas, Marks;
    PartMarks(x);
    PartMarks(y);
    MarksComma(x);
    MarksComma(y);
    InnerText(x + "," + y);
    SplitAllPair(x, y);
  }

  lemma DecimalBranchOf(s: string, u: string, depth: nat, p: Byte, q: Byte, x: string, y: string)
    requires DecimalAs(u, p, q, x, y) && |u| <= |s|
    ensures Named(u).None? && u != "VID" && ParseParameterized(s, u, depth) == Some(Decimal(p, q))
  {
    ByteExact(Trim(x), p);
    ByteExact(Trim(y), q);
    hide Denotes, Trim, Named, ParseByte;
    PairReads(x, y, p, q);
    var r := "(" + (x + "," + y + ")");
    assert u == "DECIMAL" + r && u[7] == '(';
    ParenIsNoName(u, 7);
    AngleTests("DECIMAL", r);
    WordTests("DECIMAL", r);
    AfterOpen("DECIMAL", x + "," + y, "DECIMAL(");
    hide StartsWith, AfterPrefix, ParseDecimal;
  }

  /** A DECIMAL is written with its precision and scale as two bytes, and not otherwise. */
  lemma DecimalTextExact(s: string, depth: nat, p: Byte, q: Byte)
    ensures Parse(s, depth) == Some(Decimal(p, q)) <==>
            depth < 16 && exists x, y :: DecimalAs(Upper(Squeeze(s)), p, q, x, y)
  {
    var u := Upper(Squeeze(s));
    SqueezeShrinks(s);
    hide Named, Squeeze, Upper, ParseParameterized, ParseDecimal, DecimalAs;
    if Parse(s, depth) == Some(Decimal(p, q)) {
      if Named(u).Some? {
        NoSizeInNames(u, Decimal(p, q));
      }
      LeafBranch(s, u, depth);
      var x, y := DecimalIsText(u, p, q);
    }
    if depth < 16 && exists x, y :: DecimalAs(u, p, q, x, y) {
      var x, y :| DecimalAs(u, p, q, x, y);
      DecimalBranchOf(s, u, depth, p, q, x, y);
    }
  }

  // -------------------------------------------------------------------- nesting

  /** Lists of lists, `n` deep, around a scalar that is not EMPTY. */
  function Nested(n: nat): DataType {
    if n == 0 then Scalar(Int) else List(Nested(n - 1))
  }

  lemma ListParses(e: DataType, depth: nat)
    requires e != EmptyType
    ensures Parses(List(e), depth) <==> depth < 16 && Parses(e, depth + 1)
    ensures GoodNames(List(e)) <==> GoodNames(e)
    ensures Seen(List(e)) == List(Seen(e))
  {
  }

  lemma ScalarParses(depth: nat)
    ensures Parses(Scalar(Int), depth) <==> depth < 16
    ensures GoodNames(Scalar(Int)) && Seen(Scalar(Int)) == Scalar(Int)
  {
  }

  lemma {:induction false} NestedParses(n: nat, depth: nat)
    ensures Parses(Nested(n), depth) <==> depth + n < 16
    ensures GoodNames(Nested(n)) && Seen(Nested(n)) == Nested(n)
    decreases n
  {
    ScalarParses(depth);
    if n > 0 {
      NestedParses(n - 1, depth + 1);
      ListParses(Nested(n - 1), depth);
    }
    hide Parses, GoodNames, Seen;
  }

  /** Fifteen levels of nesting are read back, a sixteenth is not. */
  lemma NestingLimit(n: nat)
    ensures Parse(Display(Nested(n)), 0) == Some(Nested(n)) <==> n <= 15
  {
    NestedParses(n, 0);
    hide *;
    PrintParseExact(Nested(n));
  }
}
