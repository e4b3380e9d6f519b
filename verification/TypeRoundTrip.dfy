/**
 Printing a type and parsing the text again: for exactly which types this gives the
 type back, at every nesting depth.
 */
module TypeRoundTrip {
  import opened Integers
  import opened Options
  import opened Strings
  import opened DataTypes
  import opened TypeText
  import opened TypeDisplay
  import opened TypeParser
  import opened PrintedText

  // ------------------------------------------------------------ the condition

  /** The parser takes the printed type apart where the printer put it together: no
      nesting beyond the limit, no STRUCT or UNION without members, and no member of
      one with a comma of its own. */
  predicate Parses(t: DataType, depth: nat)
    decreases t
  {
    && depth < MAX_DEPTH
    && (if t.Array? then Parses(t.element, depth + 1)
        else if HasElement(t) then t.element == EmptyType || Parses(t.element, depth + 1)
        else if t.Struct? then
          && t.fields != []
          && forall i :: 0 <= i < |t.fields| ==> FieldParses(t.fields[i], depth)
        else if t.Union? then
          && t.types != []
          && forall i :: 0 <= i < |t.types| ==> !TopComma(t.types[i]) && Parses(t.types[i], depth + 1)
        else true)
  }

  predicate FieldParses(f: Field, depth: nat)
    decreases f
  {
    !TopComma(f.ty) && Parses(f.ty, depth + 1)
  }

  /** What the parser sees: UNION members are read from uppercase text. */
  function Seen(t: DataType): DataType
    decreases t
  {
    match t
    case List(e) => List(Seen(e))
    case Map(e) => Map(Seen(e))
    case Set(e) => Set(Seen(e))
    case Array(e, n) => Array(Seen(e), n)
    case Struct(fs) => Struct(seq(|fs|, i requires 0 <= i < |fs| => Field(fs[i].name, Seen(fs[i].ty))))
    case Union(_) => UpperNames(t)
    case _ => t
  }

  /** The answer is not the type, not even with other letter cases in its names. */
  ghost predicate Differs(o: Option<DataType>, t: DataType) {
    o.Some? ==> UpperNames(o.value) != UpperNames(t)
  }

  ghost predicate Outcome(t: DataType, depth: nat, o: Option<DataType>) {
    if Parses(t, depth) then o == Some(Seen(t)) else Differs(o, t)
  }

  // -------------------------------------------------------------- names, words

  predicate Punctuation(c: char) {
    c == '<' || c == '>' || c == ',' || c == '('
  }

  predicate NoBracket(u: string) {
    forall i :: 0 <= i < |u| ==> !Punctuation(u[i])
  }

  lemma RestHasNoBracket(u: string)
    requires NamedRest(u).Some? || u == "VID"
    ensures NoBracket(u)
  {
  }

  lemma MoreHasNoBracket(u: string)
    requires NamedMore(u).Some?
    ensures NoBracket(u)
  {
    hide NamedRest;
    if NamedRest(u).Some? {
      RestHasNoBracket(u);
    }
  }

  /** No name without parameters has a bracket or a comma. */
  lemma NamedHasNoBracket(u: string)
    requires Named(u).Some?
    ensures NoBracket(u)
  {
    hide NamedMore;
    if NamedMore(u).Some? {
      MoreHasNoBracket(u);
    }
  }

  predicate RestKind(k: Kind) {
    k.Geography? || k.DataSet? || k.Blob? || k.Vector? || k.Json? || k.JsonB? || k.Uuid? || k.Interval?
  }

  predicate MoreKind(k: Kind) {
    k.Decimal128? || k.String? || k.Date? || k.Time? || k.DateTime? || k.Vertex? || k.Edge? || k.Path?
  }

  lemma RestKeyword(k: Kind)
    requires RestKind(k)
    ensures NamedRest(Keyword(k)) == Some(Scalar(k))
  {
  }

  lemma MoreKeyword(k: Kind)
    requires MoreKind(k)
    ensures NamedMore(Keyword(k)) == Some(Scalar(k))
  {
    hide NamedRest;
  }

  lemma MoreSkips(k: Kind)
    requires RestKind(k)
    ensures NamedMore(Keyword(k)) == NamedRest(Keyword(k))
  {
    hide NamedRest;
  }

  lemma NamedSkipsMore(k: Kind)
    requires MoreKind(k)
    ensures Named(Keyword(k)) == NamedMore(Keyword(k))
  {
    hide NamedMore;
  }

  lemma NamedSkipsJson(k: Kind)
    requires k.Json? || k.JsonB? || k.Uuid? || k.Interval?
    ensures Named(Keyword(k)) == NamedMore(Keyword(k))
  {
    hide NamedMore;
  }

  lemma NamedSkipsData(k: Kind)
    requires k.Geography? || k.DataSet? || k.Blob? || k.Vector?
    ensures Named(Keyword(k)) == NamedMore(Keyword(k))
  {
    hide NamedMore;
  }

  lemma BasicKeyword(k: Kind)
    requires !RestKind(k) && !MoreKind(k)
    ensures Named(Keyword(k)) == Some(Scalar(k))
  {
    hide NamedMore;
  }

  /** A keyword names its own type: aliases do not get in the way. */
  lemma NamedKeyword(k: Kind)
    ensures Named(Keyword(k)) == Some(Scalar(k))
  {
    hide Named, NamedMore, NamedRest, Keyword;
    if MoreKind(k) {
      MoreKeyword(k);
      NamedSkipsMore(k);
    } else if RestKind(k) {
      RestKeyword(k);
      MoreSkips(k);
      if k.Json? || k.JsonB? || k.Uuid? || k.Interval? {
        NamedSkipsJson(k);
      } else {
        NamedSkipsData(k);
      }
    } else {
      BasicKeyword(k);
    }
  }

  lemma BareList()
    ensures Named("LIST") == Some(List(EmptyType))
  {
  }

  lemma BareMap()
    ensures Named("MAP") == Some(Map(EmptyType))
  {
  }

  lemma BareSet()
    ensures Named("SET") == Some(Set(EmptyType))
  {
  }

  lemma TailOpens(t: DataType)
    requires Tail(t) != ""
    ensures Tail(t)[0] == (if HasElement(t) || t.Struct? then '<' else '(')
  {
  }

  /** On neat text, parsing starts with the uppercase form. */
  lemma ParseNeat(s: string, depth: nat)
    requires Neat(s) && depth < MAX_DEPTH
    ensures Parse(s, depth) ==
            if Named(Upper(s)).Some? then Named(Upper(s))
            else if Upper(s) == "VID" then None
            else ParseParameterized(s, Upper(s), depth)
  {
    SqueezeNeat(s);
    hide Named, Squeeze, ParseParameterized, Upper;
  }

  lemma ParseBare(t: DataType, depth: nat)
    requires GoodNames(t) && depth < MAX_DEPTH && Tail(t) == ""
    ensures Parse(Display(t), depth) == Some(t)
  {
    hide Named, ParseParameterized, Tidy, Parse;
    DisplayTidy(t, true);
    ParseNeat(Display(t), depth);
    HeadIsPlain(t);
    WordIsPlain(Head(t));
    assert Display(t) == Head(t);
    if t.Scalar? {
      NamedKeyword(t.kind);
    } else {
      BareList();
      BareMap();
      BareSet();
    }
  }

  lemma BracketIsNoName(t: DataType)
    requires Tail(t) != ""
    ensures Named(Upper(Display(t))).None? && Upper(Display(t)) != "VID"
  {
    hide Named, NamedRest;
    TailOpens(t);
    var s, i := Display(t), |Head(t)|;
    assert s[i] == Tail(t)[0] && Upper(s)[i] == s[i];
    hide Display, Tail;
    if Named(Upper(s)).Some? {
      NamedHasNoBracket(Upper(s));
    }
    if Upper(s) == "VID" {
      RestHasNoBracket(Upper(s));
    }
  }

  lemma ParseBracketed(t: DataType, depth: nat)
    requires GoodNames(t) && depth < MAX_DEPTH && Tail(t) != ""
    ensures Parse(Display(t), depth) == ParseParameterized(Display(t), Upper(Display(t)), depth)
  {
    DisplayTidy(t, true);
    hide Named, ParseParameterized, Tidy, Parse, Display, Upper, Tail;
    ParseNeat(Display(t), depth);
    BracketIsNoName(t);
  }

  /** The prefix tests compare the word and the bracket after it. */
  lemma PrefixTest(t: DataType, w: string, c: char)
    requires Tail(t) != "" && Word(w) && !WordChar(c)
    ensures StartsWith(Upper(Display(t)), w + [c]) <==> Head(t) == w && Tail(t)[0] == c
  {
    UpperDisplay(t);
    TailOpens(t);
    HeadIsWord(t);
    var h, r := Head(t), Upper(Tail(t));
    var u := h + r;
    UpperConcat(h, Tail(t));
    WordIsUpper(h);
    assert r[0] == Tail(t)[0] && !WordChar(r[0]);
    hide Upper, Display, Tail, Head;
    PrefixOf(h, r, w, c);
  }

  lemma WordIsUpper(w: string)
    requires Word(w)
    ensures Upper(w) == w
  {
    assert forall i :: 0 <= i < |w| ==> WordChar(w[i]);
  }

  lemma PrefixOf(h: string, r: string, w: string, c: char)
    requires Word(h) && Word(w) && !WordChar(c) && r != "" && !WordChar(r[0])
    ensures StartsWith(h + r, w + [c]) <==> h == w && r[0] == c
  {
    var u := h + r;
    if StartsWith(u, w + [c]) {
      assert u == w + ([c] + u[|w| + 1..]) by {
        assert u == u[..|w| + 1] + u[|w| + 1..];
      }
      WordSplit(h, r, w, [c] + u[|w| + 1..]);
    }
    if h == w && r[0] == c {
      assert u[..|w| + 1] == w + [c];
    }
  }

  // ------------------------------------------------------------- the branches

  /** The prefix test for the word of another type. */
  lemma TestFor(t: DataType, other: DataType, c: char, p: string)
    requires Tail(t) != "" && !WordChar(c) && p == Head(other) + [c]
    ensures StartsWith(Upper(Display(t)), p) <==> Head(t) == Head(other) && Tail(t)[0] == c
  {
    hide Head, Tail, Display, StartsWith, Upper, Word;
    HeadIsWord(other);
    PrefixTest(t, Head(other), c);
  }

  lemma ContainerTests(t: DataType)
    requires Tail(t) != ""
    ensures StartsWith(Upper(Display(t)), "LIST<") <==> t.List?
    ensures StartsWith(Upper(Display(t)), "MAP<") <==> t.Map?
    ensures StartsWith(Upper(Display(t)), "SET<") <==> t.Set?
  {
    TailOpens(t);
    hide Tail, Display, StartsWith, Upper;
    TestFor(t, List(EmptyType), '<', "LIST<");
    TestFor(t, Map(EmptyType), '<', "MAP<");
    TestFor(t, Set(EmptyType), '<', "SET<");
  }

  /** Types that print parameters after the same word are of the same sort. */
  lemma OtherHead(t: DataType, other: DataType)
    requires Tail(t) != "" && (other.Struct? || other.Array?)
    ensures Head(t) == Head(other) <==> (if other.Struct? then t.Struct? else t.Array?)
    ensures HasElement(t) || t.Struct? <==> Tail(t)[0] == '<'
  {
    TailOpens(t);
    if Head(t) == Head(other) {
      HeadInjective(t, other);
    }
  }

  lemma StructTest(t: DataType)
    requires Tail(t) != ""
    ensures StartsWith(Upper(Display(t)), "STRUCT<") <==> t.Struct?
  {
    TailOpens(t);
    OtherHead(t, Struct([]));
    assert "STRUCT<" == Head(Struct([])) + ['<'];
    hide *;
    TestFor(t, Struct([]), '<', "STRUCT<");
  }

  lemma ArrayTest(t: DataType)
    requires Tail(t) != ""
    ensures StartsWith(Upper(Display(t)), "ARRAY<") <==> t.Array?
  {
    TailOpens(t);
    OtherHead(t, Array(EmptyType, None));
    assert "ARRAY<" == Head(Array(EmptyType, None)) + ['<'];
    hide *;
    TestFor(t, Array(EmptyType, None), '<', "ARRAY<");
  }

  lemma ParenTests(t: DataType)
    requires Tail(t) != ""
    ensures StartsWith(Upper(Display(t)), "DECIMAL(") <==> t.Decimal?
    ensures StartsWith(Upper(Display(t)), "UNION(") <==> t.Union?
  {
    TailOpens(t);
    hide Tail, Display, StartsWith, Upper;
    TestFor(t, Decimal(0, 0), '(', "DECIMAL(");
    TestFor(t, Union([]), '(', "UNION(");
  }

  lemma SizedTests(t: DataType)
    requires Tail(t) != ""
    ensures StartsWith(Upper(Display(t)), "FIXEDSTRING(") <==> t.FixedString?
    ensures StartsWith(Upper(Display(t)), "VECTOR_DENSE(") <==> t.VectorDense?
    ensures StartsWith(Upper(Display(t)), "VECTOR_SPARSE(") <==> t.VectorSparse?
  {
    TailOpens(t);
    hide Tail, Display, StartsWith, Upper;
    TestFor(t, FixedString(0), '(', "FIXEDSTRING(");
    TestFor(t, VectorDense(0), '(', "VECTOR_DENSE(");
    TestFor(t, VectorSparse(0), '(', "VECTOR_SPARSE(");
  }

  /** No printed type starts with the other spelling. */
  lemma AliasTest(t: DataType)
    requires Tail(t) != ""
    ensures !StartsWith(Upper(Display(t)), "FIXED_STRING(")
  {
    assert "FIXED_STRING" + ['('] == "FIXED_STRING(" && Word("FIXED_STRING");
    hide Tail, Display, StartsWith, Upper;
    PrefixTest(t, "FIXED_STRING", '(');
  }

  // ------------------------------------------------- containers, arrays, sizes

  /** The element a container takes, wrapped again. */
  function Rewrap(t: DataType, o: Option<DataType>): Option<DataType>
    requires t.List? || t.Map? || t.Set?
  {
    if o.None? then None
    else if t.List? then Some(List(o.value))
    else if t.Map? then Some(Map(o.value))
    else Some(Set(o.value))
  }

  lemma ContainerBranch(t: DataType, depth: nat)
    requires (t.List? || t.Map? || t.Set?) && Tail(t) != ""
    ensures ParseParameterized(Display(t), Upper(Display(t)), depth) == Rewrap(t, ParseElement(Display(t), depth))
  {
    ContainerTests(t);
    hide StartsWith, Display, Upper, Tail, ParseElement;
  }

  lemma CompositeBranch(t: DataType, depth: nat)
    requires (t.Struct? || t.Array?) && Tail(t) != ""
    ensures ParseParameterized(Display(t), Upper(Display(t)), depth) ==
            if t.Struct? then ParseStruct(Display(t), depth) else ParseArray(Display(t), depth)
  {
    ContainerTests(t);
    StructTest(t);
    ArrayTest(t);
    hide StartsWith, Display, Upper, Tail, ParseStruct, ParseArray;
  }

  /** The brackets of a printed type enclose what the printer put there. */
  lemma TakePrinted(h: string, s: string, rest: string)
    requires Word(h) && h != "" && Balanced(s)
    ensures TakeAngle(h + ("<" + s + ">" + rest)) == Some(Cut(s, rest))
  {
    hide Balanced, TakeAngle, Word;
    WordIsPlain(h);
    TakeAngleWord(h, s, rest);
    assert h + "<" + s + ">" + rest == h + ("<" + s + ">" + rest);
  }

  lemma PrintedIsTrimmed(t: DataType)
    requires GoodNames(t)
    ensures Trimmed(Display(t)) && Trim(Display(t)) == Display(t)
  {
    DisplayTidy(t, true);
    NeatIsTrimmed(Display(t));
    hide Tidy, Display;
    TrimTrimmed(Display(t));
  }

  lemma ContainerTakes(t: DataType, depth: nat)
    requires (t.List? || t.Map? || t.Set?) && t.element != EmptyType && GoodNames(t)
    ensures ParseElement(Display(t), depth) == Parse(Display(t.element), depth + 1)
  {
    var d := Display(t.element);
    HeadIsPlain(t);
    DisplayBalanced(t.element);
    assert "<" + d + ">" + "" == "<" + d + ">";
    TakePrinted(Head(t), d, "");
    PrintedIsTrimmed(t.element);
    assert Trim("") == "";
    hide Parse, Trim, Balanced, TakeAngle, Head;
  }

  lemma ContainerOutcome(t: DataType, depth: nat)
    requires (t.List? || t.Map? || t.Set?) && t.element != EmptyType && GoodNames(t) && depth < MAX_DEPTH
    requires Outcome(t.element, depth + 1, Parse(Display(t.element), depth + 1))
    ensures Outcome(t, depth, Parse(Display(t), depth))
  {
    assert Tail(t) != "";
    var o := Parse(Display(t.element), depth + 1);
    ContainerRewraps(t, depth, o);
    hide Parse, Display, ParseParameterized, ParseElement, Tail, Upper, Outcome, Seen, UpperNames;
    ParseBracketed(t, depth);
    ContainerBranch(t, depth);
    ContainerTakes(t, depth);
  }

  /** The outcome for a container follows from the outcome for its element. */
  lemma ContainerRewraps(t: DataType, depth: nat, o: Option<DataType>)
    requires (t.List? || t.Map? || t.Set?) && t.element != EmptyType && depth < MAX_DEPTH
    requires Outcome(t.element, depth + 1, o)
    ensures Outcome(t, depth, Rewrap(t, o))
  {
  }

  function LengthText(len: Option<Usize>): string {
    if len.Some? then Size(len.value) else ""
  }

  lemma SizeReads(n: Usize)
    ensures ParseSize(Trim(Digits(n))) == Some(n)
  {
    DigitsValue(n);
    DigitsArePlain(n);
    WordIsPlain(Digits(n));
    assert Trimmed(Digits(n));
    TrimTrimmed(Digits(n));
    hide Trim, Digits, Value;
  }

  lemma LengthReads(len: Option<Usize>)
    ensures ParseLength(LengthText(len)) == Some(len)
  {
    var r := LengthText(len);
    if len.Some? {
      assert r[0] == '(' && r[|r| - 1] == ')' && r[1..|r| - 1] == Digits(len.value);
      assert Trimmed(r);
      TrimTrimmed(r);
      SizeReads(len.value);
      hide Trim, Digits, ParseSize;
    }
  }

  lemma ArrayTakes(t: DataType, depth: nat)
    requires t.Array? && GoodNames(t)
    ensures ParseArray(Display(t), depth) ==
            var o := Parse(Display(t.element), depth + 1); if o.None? then None else Some(Array(o.value, t.len))
  {
    HeadIsPlain(t);
    DisplayBalanced(t.element);
    TakePrinted(Head(t), Display(t.element), LengthText(t.len));
    LengthReads(t.len);
    hide Parse, Balanced, TakeAngle, Head, ParseLength;
  }

  lemma ArrayOutcome(t: DataType, depth: nat)
    requires t.Array? && GoodNames(t) && depth < MAX_DEPTH
    requires Outcome(t.element, depth + 1, Parse(Display(t.element), depth + 1))
    ensures Outcome(t, depth, Parse(Display(t), depth))
  {
    assert Tail(t) != "";
    var o := Parse(Display(t.element), depth + 1);
    ArrayRewraps(t, depth, o);
    hide Parse, Display, ParseParameterized, ParseArray, Tail, Upper, Outcome, Seen, UpperNames;
    ParseBracketed(t, depth);
    CompositeBranch(t, depth);
    ArrayTakes(t, depth);
  }

  /** The outcome for an array follows from the outcome for its element. */
  lemma ArrayRewraps(t: DataType, depth: nat, o: Option<DataType>)
    requires t.Array? && depth < MAX_DEPTH && Outcome(t.element, depth + 1, o)
    ensures Outcome(t, depth, if o.None? then None else Some(Array(o.value, t.len)))
  {
  }

  /** The parameters after the opening parenthesis. */
  lemma AfterParen(t: DataType, p: string)
    requires Tail(t) != "" && |p| == |Head(t)| + 1 && StartsWith(Upper(Display(t)), p)
    ensures AfterPrefix(Upper(Display(t)), p) == Upper(Tail(t))[1..]
  {
    UpperConcat(Head(t), Tail(t));
  }

  lemma ParenBranch(t: DataType, depth: nat)
    requires (t.Decimal? || t.Union?) && Tail(t) != ""
    ensures var s := Display(t);
            var rest := Upper(Tail(t))[1..];
            |Tail(t)| <= |s| &&
            ParseParameterized(s, Upper(s), depth) ==
            if t.Decimal? then ParseDecimal(rest) else ParseUnion(rest, depth, |s|)
  {
    ContainerTests(t);
    StructTest(t);
    ArrayTest(t);
    ParenTests(t);
    AfterParen(t, if t.Decimal? then "DECIMAL(" else "UNION(");
    hide StartsWith, Upper, Tail, AfterPrefix, ParseDecimal, ParseUnion;
  }

  lemma InnerText(s: string)
    ensures Inner(s + ")") == Some(s)
  {
    assert (s + ")")[..|s|] == s;
  }

  lemma SizedBranch(t: DataType, depth: nat)
    requires t.FixedString? || t.VectorDense? || t.VectorSparse?
    ensures var s := Display(t); ParseParameterized(s, Upper(s), depth) == ParseSized(Upper(s))
  {
    assert Tail(t) != "";
    ContainerTests(t);
    StructTest(t);
    ArrayTest(t);
    ParenTests(t);
    hide StartsWith, Upper, Tail, Display, AfterPrefix, ParseSized;
  }

  lemma SizeParamReads(t: DataType)
    requires t.FixedString? || t.VectorDense? || t.VectorSparse?
    ensures Tail(t) != "" && ParseSizeParam(Upper(Tail(t))[1..]) == Some(t.size)
  {
    SizeIsUpper(t.size);
    assert Size(t.size)[1..] == Digits(t.size) + ")";
    InnerText(Digits(t.size));
    SizeReads(t.size);
    hide Upper, ParseSize, Trim, Inner;
  }

  lemma FixedStringReads(t: DataType)
    requires t.FixedString?
    ensures ParseSized(Upper(Display(t))) == Some(t)
  {
    SizeParamReads(t);
    SizedTests(t);
    AfterParen(t, "FIXEDSTRING(");
    hide StartsWith, Upper, Display, Tail, AfterPrefix, ParseSizeParam;
  }

  lemma VectorReads(t: DataType)
    requires t.VectorDense? || t.VectorSparse?
    ensures ParseSized(Upper(Display(t))) == Some(t)
  {
    SizeParamReads(t);
    SizedTests(t);
    AliasTest(t);
    AfterParen(t, if t.VectorDense? then "VECTOR_DENSE(" else "VECTOR_SPARSE(");
    hide StartsWith, Upper, Display, Tail, AfterPrefix, ParseSizeParam;
  }

  lemma SizedOutcome(t: DataType, depth: nat)
    requires (t.FixedString? || t.VectorDense? || t.VectorSparse?) && depth < MAX_DEPTH
    ensures Parse(Display(t), depth) == Some(t)
  {
    assert Tail(t) != "";
    hide Parse, Display, ParseParameterized, ParseSized, Upper, Tail;
    ParseBracketed(t, depth);
    SizedBranch(t, depth);
    if t.FixedString? {
      FixedStringReads(t);
    } else {
      VectorReads(t);
    }
  }

  // ---------------------------------------------------------------- decimals

  lemma {:induction false} SplitAllNoCommas(s: string)
    requires NoCommas(s)
    ensures SplitAll(s) == [s]
  {
    if s != "" {
      SplitAllNoCommas(s[1..]);
      assert [s[0]] + s[1..] == s;
    }
  }

  lemma {:induction false} SplitAllPair(a: string, b: string)
    requires NoCommas(a) && NoCommas(b)
    ensures SplitAll(a + "," + b) == [a, b]
    decreases |a|
  {
    var s := a + "," + b;
    if a == "" {
      assert s[0] == ',' && s[1..] == b;
      SplitAllNoCommas(b);
    } else {
      assert s[0] == a[0] && s[1..] == a[1..] + "," + b;
      SplitAllPair(a[1..], b);
      assert [a[0]] + a[1..] == a;
    }
  }

  lemma ByteReads(n: Byte)
    ensures ParseByte(Trim(Digits(n))) == Some(n) && ParseByte(Trim(" " + Digits(n))) == Some(n)
  {
    var s := Digits(n);
    DigitsValue(n);
    DigitsArePlain(n);
    WordIsPlain(s);
    assert IsDigit(s[0]);
    TrimTrimmed(s);
    hide Trim, Digits, Value;
  }

  lemma DecimalReads(p: Byte, s: Byte)
    ensures ParseDecimal(Digits(p) + ", " + Digits(s) + ")") == Some(Decimal(p, s))
  {
    var a, b := Digits(p), Digits(s);
    DigitsArePlain(p);
    DigitsArePlain(s);
    WordIsPlain(a);
    WordIsPlain(b);
    InnerText(a + ", " + b);
    assert a + ", " + b == a + "," + (" " + b);
    assert NoCommas(" " + b);
    SplitAllPair(a, " " + b);
    ByteReads(p);
    ByteReads(s);
    hide Digits, SplitAll, ParseByte, Trim, Inner;
  }

  lemma DecimalOutcome(t: DataType, depth: nat)
    requires t.Decimal? && depth < MAX_DEPTH
    ensures Parse(Display(t), depth) == Some(t)
  {
    var a, b := Digits(t.precision), Digits(t.scale);
    DecimalIsUpper(t.precision, t.scale);
    assert Tail(t) == "(" + a + ", " + b + ")" && Tail(t)[1..] == a + ", " + b + ")";
    hide Parse, Display, ParseParameterized, ParseDecimal, Digits, Upper, Tail;
    ParseBracketed(t, depth);
    ParenBranch(t, depth);
    DecimalReads(t.precision, t.scale);
  }

  // ----------------------------------------------------------------- structs

  lemma SpacePieces(d: string, whole: bool)
    requires Balanced(d) && Pieces(d, whole)
    ensures Balanced(" " + d) && AllNonBlank(Split(" " + d, 0)[1..])
    ensures |Split(" " + d, 0)| == 1 <==> whole
  {
    assert (" " + d)[1..] == d;
    assert Split(" " + d, 0) == Front(' ', Split(d, 0));
    hide Split, Balanced, NonBlank;
    NoAnglesBalanced(" ");
    BalancedConcat(" ", d);
  }

  lemma FieldPieces(f: Field)
    requires GoodName(f.name) && GoodNames(f.ty)
    ensures Pieces(DisplayField(f), !TopComma(f.ty)) && Balanced(DisplayField(f))
  {
    assert NoCommas("") && DisplayField(f) == f.name + " " + Display(f.ty);
    assert Solid(f.name) && Depth(f.name, 0) == Some(0) && Split(f.name, 0) == [f.name];
    hide *;
    var d := Display(f.ty);
    DisplayPieces(f.ty);
    DisplayBalanced(f.ty);
    FieldBalanced(f);
    ClosedIsBalanced(f.name);
    SpacePieces(d, !TopComma(f.ty));
    PiecesBetween(f.name, " " + d, "");
    RegroupField(f.name, d);
  }

  lemma RegroupField(name: string, d: string)
    ensures name + (" " + d) + "" == name + " " + d
  {
  }

  lemma FieldIsTrimmed(f: Field)
    requires GoodName(f.name) && GoodNames(f.ty)
    ensures Trim(DisplayField(f)) == DisplayField(f) && Trim(" " + DisplayField(f)) == DisplayField(f)
  {
    DisplayTidy(f.ty, true);
    FieldTidy(f, true);
    NeatIsTrimmed(DisplayField(f));
    TrimTrimmed(DisplayField(f));
  }

  lemma FieldWords(f: Field)
    requires GoodName(f.name)
    ensures var p := DisplayField(f);
            FirstWord(p) == f.name && |f.name| < |p| && p[|f.name| + 1..] == Display(f.ty)
  {
    var p, d := DisplayField(f), Display(f.ty);
    assert p == f.name + (" " + d);
    FirstWordOf(f.name, " " + d);
    assert p[|f.name| + 1..] == d;
  }

  /** What one field part of a printed STRUCT is parsed to. */
  lemma FieldReads(part: string, f: Field, depth: nat, bound: nat)
    requires GoodName(f.name) && GoodNames(f.ty) && Trim(part) == DisplayField(f) && |part| < bound
    ensures ParseField(part, depth, bound) ==
            var o := Parse(Display(f.ty), depth + 1); if o.None? then None else Some(Field(f.name, o.value))
  {
    hide Parse, Trim, Display, DisplayField, FirstWord, GoodNames, Split, Depth;
    FieldWords(f);
    PrintedIsTrimmed(f.ty);
  }

  ghost predicate FieldsDiffer(gs: seq<Field>, fs: seq<Field>) {
    |gs| != |fs| || exists i :: 0 <= i < |fs| && UpperNames(gs[i].ty) != UpperNames(fs[i].ty)
  }

  ghost predicate FieldOutcome(f: Field, depth: nat) {
    && GoodName(f.name) && GoodNames(f.ty)
    && Outcome(f.ty, depth + 1, Parse(Display(f.ty), depth + 1))
  }

  function SeenFields(fs: seq<Field>): (r: seq<Field>)
    ensures |r| == |fs| && forall i :: 0 <= i < |fs| ==> r[i] == Field(fs[i].name, Seen(fs[i].ty))
  {
    seq(|fs|, i requires 0 <= i < |fs| => Field(fs[i].name, Seen(fs[i].ty)))
  }

  predicate AllParse(fs: seq<Field>, depth: nat) {
    forall i :: 0 <= i < |fs| ==> Parses(fs[i].ty, depth + 1)
  }

  lemma {:induction false} FieldsRead(parts: seq<string>, fs: seq<Field>, depth: nat, bound: nat)
    requires |parts| == |fs| && forall i :: 0 <= i < |parts| ==> |parts[i]| < bound
    requires forall i :: 0 <= i < |fs| ==> FieldOutcome(fs[i], depth) && Trim(parts[i]) == DisplayField(fs[i])
    ensures var o := ParseFields(parts, depth, bound);
            && (AllParse(fs, depth) ==> o == Some(SeenFields(fs)))
            && (!AllParse(fs, depth) && o.Some? ==> FieldsDiffer(o.value, fs))
    decreases |parts|
  {
    hide Parse, ParseField, Trim, Display, DisplayField, UpperNames, Seen, Parses, GoodName, GoodNames;
    if fs != [] {
      assert FieldOutcome(fs[0], depth);
      FieldReads(parts[0], fs[0], depth, bound);
      FieldsRead(parts[1..], fs[1..], depth, bound);
      assert AllParse(fs, depth) <==> Parses(fs[0].ty, depth + 1) && AllParse(fs[1..], depth);
      var o, rest := ParseFields(parts, depth, bound), ParseFields(parts[1..], depth, bound);
      if AllParse(fs, depth) {
        assert SeenFields(fs) == [Field(fs[0].name, Seen(fs[0].ty))] + SeenFields(fs[1..]);
      } else if o.Some? {
        FieldsDifferCons(o.value[0], rest.value, fs);
      }
    }
  }

  lemma FieldsDifferCons(g: Field, gs: seq<Field>, fs: seq<Field>)
    requires fs != []
    requires UpperNames(g.ty) != UpperNames(fs[0].ty) || FieldsDiffer(gs, fs[1..])
    ensures FieldsDiffer([g] + gs, fs)
  {
    hide UpperNames;
    var all := [g] + gs;
    if |all| == |fs| && UpperNames(g.ty) == UpperNames(fs[0].ty) {
      var i :| 0 <= i < |fs[1..]| && UpperNames(gs[i].ty) != UpperNames(fs[1..][i].ty);
      assert all[i + 1] == gs[i] && fs[i + 1] == fs[1..][i];
    } else if |all| == |fs| {
      assert UpperNames(all[0].ty) != UpperNames(fs[0].ty);
    }
  }

  lemma StructsDiffer(gs: seq<Field>, fs: seq<Field>)
    requires FieldsDiffer(gs, fs)
    ensures UpperNames(Struct(gs)) != UpperNames(Struct(fs))
  {
    var a, b := UpperNames(Struct(gs)), UpperNames(Struct(fs));
    assert |a.fields| == |gs| && |b.fields| == |fs|;
    if |gs| == |fs| {
      var i :| 0 <= i < |fs| && UpperNames(gs[i].ty) != UpperNames(fs[i].ty);
      assert a.fields[i].ty != b.fields[i].ty;
    }
  }

  lemma StructTakes(fs: seq<Field>, depth: nat)
    requires GoodNames(Struct(fs))
    ensures var s := Display(Struct(fs));
            |DisplayFields(fs)| < |s| &&
            var o := ParseFields(Split(DisplayFields(fs), 0), depth, |s|);
            ParseStruct(s, depth) == if o.None? || o.value == [] then None else Some(Struct(o.value))
  {
    var t := Struct(fs);
    var d := DisplayFields(fs);
    HeadIsPlain(t);
    FieldsBalanced(fs);
    assert "<" + d + ">" + "" == "<" + d + ">";
    TakePrinted(Head(t), d, "");
    assert Trim("") == "";
    hide Balanced, TakeAngle, Trim, Split, ParseFields, Head, DisplayFields;
  }

  function FieldsWhole(fs: seq<Field>): (r: seq<bool>)
    ensures |r| == |fs| && forall i :: 0 <= i < |fs| ==> r[i] == !TopComma(fs[i].ty)
  {
    seq(|fs|, i requires 0 <= i < |fs| => !TopComma(fs[i].ty))
  }

  /** The pieces of a printed field list: its fields, or too many. */
  lemma FieldListPieces(fs: seq<Field>)
    requires fs != [] && forall i :: 0 <= i < |fs| ==> GoodName(fs[i].name) && GoodNames(fs[i].ty)
    ensures var parts := Split(DisplayFields(fs), 0);
            if AllWhole(FieldsWhole(fs)) then
              |parts| == |fs| && forall i :: 0 <= i < |fs| ==> Trim(parts[i]) == DisplayField(fs[i])
            else |parts| > |fs|
  {
    hide Balanced, Split, Pieces, Trim, Listed, GoodNames, GoodName;
    var xs, whole := FieldTexts(fs), FieldsWhole(fs);
    forall i | 0 <= i < |fs| ensures Pieces(xs[i], whole[i]) && Balanced(xs[i]) {
      FieldPieces(fs[i]);
    }
    FieldsAreListed(fs);
    ListedPieces(xs, whole);
    forall i | 0 <= i < |fs| && AllWhole(whole) ensures Trim(Spaced(xs)[i]) == DisplayField(fs[i]) {
      FieldIsTrimmed(fs[i]);
    }
  }

  lemma StructOutcome(t: DataType, depth: nat)
    requires t.Struct? && GoodNames(t) && depth < MAX_DEPTH
    requires forall i :: 0 <= i < |t.fields| ==> FieldOutcome(t.fields[i], depth)
    ensures Outcome(t, depth, Parse(Display(t), depth))
  {
    var fs := t.fields;
    assert Tail(t) != "" && t == Struct(fs);
    assert forall i :: 0 <= i < |fs| ==> GoodName(fs[i].name) && GoodNames(fs[i].ty);
    hide Parse, Display, ParseParameterized, ParseStruct, Tail, Upper, GoodNames, GoodName;
    ParseBracketed(t, depth);
    CompositeBranch(t, depth);
    StructTakes(fs, depth);
    StructFields(fs, depth, |Display(t)|);
  }

  lemma EmptyStruct(depth: nat, bound: nat)
    requires bound > 0
    ensures ParseFields(Split("", 0), depth, bound).None?
  {
    assert Split("", 0) == [""] && Trim("") == "";
    assert ParseField("", depth, bound).None?;
  }

  lemma StructParses(fs: seq<Field>, depth: nat)
    requires fs != [] && depth < MAX_DEPTH
    ensures Parses(Struct(fs), depth) <==> AllWhole(FieldsWhole(fs)) && AllParse(fs, depth)
    ensures Seen(Struct(fs)) == Struct(SeenFields(fs))
  {
    var whole := FieldsWhole(fs);
    assert forall i :: 0 <= i < |fs| ==> (FieldParses(fs[i], depth) <==> whole[i] && Parses(fs[i].ty, depth + 1));
    if AllWhole(whole) && AllParse(fs, depth) {
      assert forall i :: 0 <= i < |fs| ==> FieldParses(fs[i], depth);
    }
  }

  lemma StructFields(fs: seq<Field>, depth: nat, bound: nat)
    requires forall i :: 0 <= i < |fs| ==> FieldOutcome(fs[i], depth)
    requires |DisplayFields(fs)| < bound && depth < MAX_DEPTH
    ensures var o := ParseFields(Split(DisplayFields(fs), 0), depth, bound);
            Outcome(Struct(fs), depth, if o.None? || o.value == [] then None else Some(Struct(o.value)))
  {
    var t := Struct(fs);
    var parts := Split(DisplayFields(fs), 0);
    var o := ParseFields(parts, depth, bound);
    if fs == [] {
      EmptyStruct(depth, bound);
    } else {
      hide Parse, Parses, Trim, DisplayField, DisplayFields, Split, ParseFields, ParseField, TopComma, UpperNames, Seen;
      assert FieldOutcome(fs[0], depth);
      FieldListPieces(fs);
      StructParses(fs, depth);
      if AllWhole(FieldsWhole(fs)) {
        FieldsRead(parts, fs, depth, bound);
      }
      if o.Some? && !Parses(t, depth) {
        StructsDiffer(o.value, fs);
      }
    }
  }

  // ------------------------------------------------------------------ unions

  lemma {:induction false} UpperDepth(s: string, d: nat)
    ensures Depth(Upper(s), d) == Depth(s, d)
    decreases |s|
  {
    if s != "" {
      assert Upper(s)[1..] == Upper(s[1..]);
      UpperDepth(s[1..], Next(s[0], d));
    }
  }

  lemma {:induction false} UpperSplit(s: string, d: nat)
    ensures Split(Upper(s), d) == UpperAll(Split(s, d))
    decreases |s|
  {
    if s != "" {
      assert Upper(s)[1..] == Upper(s[1..]) && UpperChar(s[0]) == Upper(s)[0];
      UpperSplit(s[1..], Next(s[0], d));
      UpperFront(s[0], Split(s[1..], Next(s[0], d)));
    }
  }

  lemma UpperFront(c: char, r: seq<string>)
    requires r != []
    ensures UpperAll(Front(c, r)) == Front(UpperChar(c), UpperAll(r))
    ensures UpperAll([""] + r) == [""] + UpperAll(r)
  {
    assert Upper([c] + r[0]) == [UpperChar(c)] + Upper(r[0]);
  }

  lemma UpperGoodName(n: string)
    requires GoodName(n)
    ensures GoodName(Upper(n))
  {
    UpperDepth(n, 0);
    UpperSplit(n, 0);
    hide Split, Depth;
  }

  lemma UpperUpper(s: string)
    ensures Upper(Upper(s)) == Upper(s)
  {
  }

  lemma {:induction false} UpperGood(t: DataType)
    requires GoodNames(t)
    ensures GoodNames(UpperNames(t))
    decreases t
  {
    if HasElement(t) {
      UpperGood(t.element);
    } else if t.Struct? {
      forall i | 0 <= i < |t.fields|
        ensures GoodName(Upper(t.fields[i].name)) && GoodNames(UpperNames(t.fields[i].ty))
      {
        UpperGoodName(t.fields[i].name);
        UpperGood(t.fields[i].ty);
      }
    } else if t.Union? {
      forall i | 0 <= i < |t.types| ensures GoodNames(UpperNames(t.types[i])) {
        UpperGood(t.types[i]);
      }
    }
  }

  lemma {:induction false} UpperIdempotent(t: DataType)
    ensures UpperNames(UpperNames(t)) == UpperNames(t)
    decreases t
  {
    if HasElement(t) {
      UpperIdempotent(t.element);
    } else if t.Struct? {
      var us := UpperNames(t).fields;
      forall i | 0 <= i < |us| ensures UpperNames(us[i].ty) == us[i].ty && Upper(us[i].name) == us[i].name {
        UpperIdempotent(t.fields[i].ty);
        UpperUpper(t.fields[i].name);
      }
      assert UpperNames(Struct(us)).fields == us;
    } else if t.Union? {
      var us := UpperNames(t).types;
      forall i | 0 <= i < |us| ensures UpperNames(us[i]) == us[i] {
        UpperIdempotent(t.types[i]);
      }
      assert UpperNames(Union(us)).types == us;
    }
  }

  lemma {:induction false} UpperComma(t: DataType)
    ensures TopComma(UpperNames(t)) <==> TopComma(t)
    decreases t
  {
    if t.Union? {
      var us := UpperNames(t).types;
      forall i | 0 <= i < |us| ensures TopComma(us[i]) <==> TopComma(t.types[i]) {
        UpperComma(t.types[i]);
      }
    }
  }

  lemma {:induction false} UpperParses(t: DataType, depth: nat)
    ensures Parses(UpperNames(t), depth) <==> Parses(t, depth)
    decreases t
  {
    if HasElement(t) {
      UpperParses(t.element, depth + 1);
      assert UpperNames(t.element) == EmptyType <==> t.element == EmptyType;
    } else if t.Struct? {
      var us := UpperNames(t).fields;
      forall i | 0 <= i < |us| ensures FieldParses(us[i], depth) <==> FieldParses(t.fields[i], depth) {
        UpperParses(t.fields[i].ty, depth + 1);
        UpperComma(t.fields[i].ty);
      }
      assert |us| == |t.fields|;
    } else if t.Union? {
      var us := UpperNames(t).types;
      forall i | 0 <= i < |us|
        ensures Parses(us[i], depth + 1) <==> Parses(t.types[i], depth + 1)
        ensures TopComma(us[i]) <==> TopComma(t.types[i])
      {
        UpperParses(t.types[i], depth + 1);
        UpperComma(t.types[i]);
      }
      assert |us| == |t.types|;
    }
  }

  /** Reading uppercase text changes no letter case any more. */
  lemma {:induction false} SeenUpper(t: DataType)
    requires UpperNames(t) == t
    ensures Seen(t) == t
    decreases t
  {
    if HasElement(t) {
      SeenUpper(t.element);
    } else if t.Struct? {
      forall i | 0 <= i < |t.fields| ensures Seen(t.fields[i].ty) == t.fields[i].ty {
        assert t.fields[i] == UpperNames(t).fields[i];
        SeenUpper(t.fields[i].ty);
      }
      assert Seen(t).fields == t.fields;
    }
  }

  lemma {:induction false} NonBlankTrim(s: string)
    requires NonBlank(s)
    ensures Trim(s) != ""
  {
    NonBlankStart(s);
    NonBlankEnd(TrimStart(s));
  }

  lemma {:induction false} NonBlankStart(s: string)
    requires NonBlank(s)
    ensures NonBlank(TrimStart(s))
  {
    if IsSpace(s[0]) {
      var i :| 0 <= i < |s| && !IsSpace(s[i]);
      assert s[1..][i - 1] == s[i];
      NonBlankStart(s[1..]);
    }
  }

  lemma {:induction false} NonBlankEnd(s: string)
    requires NonBlank(s)
    ensures TrimEnd(s) != ""
  {
    if IsSpace(s[|s| - 1]) {
      var i :| 0 <= i < |s| && !IsSpace(s[i]);
      assert s[..|s| - 1][i] == s[i];
      NonBlankEnd(s[..|s| - 1]);
    }
  }

  /** No member is skipped: as many members as pieces. */
  lemma {:induction false} MembersCount(parts: seq<string>, depth: nat, bound: nat)
    requires AllNonBlank(parts) && forall i :: 0 <= i < |parts| ==> |parts[i]| < bound
    ensures var o := ParseMembers(parts, depth, bound); o.Some? ==> |o.value| == |parts|
    decreases |parts|
  {
    hide Parse, Trim, NonBlank;
    if parts != [] {
      NonBlankTrim(parts[0]);
      MembersCount(parts[1..], depth, bound);
    }
  }

  /** A member in uppercase, as the parser meets it. */
  ghost predicate MemberOutcome(u: DataType, depth: nat) {
    && GoodNames(u) && UpperNames(u) == u
    && Outcome(u, depth + 1, Parse(Display(u), depth + 1))
  }

  ghost predicate TypesDiffer(rs: seq<DataType>, us: seq<DataType>) {
    |rs| != |us| || exists i :: 0 <= i < |us| && UpperNames(rs[i]) != UpperNames(us[i])
  }

  predicate AllMembersParse(us: seq<DataType>, depth: nat) {
    forall i :: 0 <= i < |us| ==> Parses(us[i], depth + 1)
  }

  lemma {:induction false} MembersRead(parts: seq<string>, us: seq<DataType>, depth: nat, bound: nat)
    requires |parts| == |us| && forall i :: 0 <= i < |parts| ==> |parts[i]| < bound
    requires forall i :: 0 <= i < |us| ==> MemberOutcome(us[i], depth) && Trim(parts[i]) == Display(us[i])
    ensures var o := ParseMembers(parts, depth, bound);
            && (AllMembersParse(us, depth) ==> o == Some(us))
            && (!AllMembersParse(us, depth) && o.Some? ==> TypesDiffer(o.value, us))
    decreases |parts|
  {
    hide Parse, Trim, Display, UpperNames, Seen, Parses, GoodNames;
    if us != [] {
      assert MemberOutcome(us[0], depth);
      PrintedIsTrimmed(us[0]);
      SeenUpper(us[0]);
      MembersRead(parts[1..], us[1..], depth, bound);
      assert AllMembersParse(us, depth) <==> Parses(us[0], depth + 1) && AllMembersParse(us[1..], depth);
      var o, rest := ParseMembers(parts, depth, bound), ParseMembers(parts[1..], depth, bound);
      if AllMembersParse(us, depth) {
        assert us == [us[0]] + us[1..];
      } else if o.Some? {
        TypesDifferCons(o.value[0], rest.value, us);
      }
    }
  }

  lemma TypesDifferCons(r: DataType, rs: seq<DataType>, us: seq<DataType>)
    requires us != []
    requires UpperNames(r) != UpperNames(us[0]) || TypesDiffer(rs, us[1..])
    ensures TypesDiffer([r] + rs, us)
  {
    hide UpperNames;
    var all := [r] + rs;
    if |all| == |us| && UpperNames(r) == UpperNames(us[0]) {
      var i :| 0 <= i < |us[1..]| && UpperNames(rs[i]) != UpperNames(us[1..][i]);
      assert all[i + 1] == rs[i] && us[i + 1] == us[1..][i];
    } else if |all| == |us| {
      assert UpperNames(all[0]) != UpperNames(us[0]);
    }
  }

  lemma UnionsDiffer(rs: seq<DataType>, us: seq<DataType>)
    requires TypesDiffer(rs, us)
    ensures UpperNames(Union(rs)) != UpperNames(Union(us))
  {
    var a, b := UpperNames(Union(rs)), UpperNames(Union(us));
    assert |a.types| == |rs| && |b.types| == |us|;
    if |rs| == |us| {
      var i :| 0 <= i < |us| && UpperNames(rs[i]) != UpperNames(us[i]);
      assert a.types[i] != b.types[i];
    }
  }

  /** The pieces of a printed member list: its members, or too many; none is blank. */
  lemma MemberListPieces(us: seq<DataType>)
    requires us != [] && forall i :: 0 <= i < |us| ==> GoodNames(us[i])
    ensures var parts := Split(DisplayTypes(us), 0);
            && AllNonBlank(parts)
            && if AllWhole(NoTopCommas(us)) then
                 |parts| == |us| && forall i :: 0 <= i < |us| ==> Trim(parts[i]) == Display(us[i])
               else |parts| > |us|
  {
    hide Balanced, Split, Pieces, Trim, Listed, GoodNames, NonBlank;
    var xs, whole := TypeTexts(us), NoTopCommas(us);
    forall i | 0 <= i < |us| ensures Pieces(xs[i], whole[i]) {
      DisplayPieces(us[i]);
    }
    TypesBalanced(us);
    TypesAreListed(us);
    ListedPieces(xs, whole);
    forall i | 0 <= i < |us| && AllWhole(whole) ensures Trim(Spaced(xs)[i]) == Display(us[i]) {
      PrintedIsTrimmed(us[i]);
      TrimTrimmed(Display(us[i]));
    }
  }

  lemma EmptyUnion(depth: nat, bound: nat)
    requires bound > 0
    ensures ParseMembers(Split("", 0), depth, bound) == Some([])
  {
    var parts := Split("", 0);
    assert parts == [""] && parts[1..] == [] && Trim("") == "";
  }

  lemma UnionParses(us: seq<DataType>, depth: nat)
    requires us != [] && depth < MAX_DEPTH
    ensures Parses(Union(us), depth) <==> AllWhole(NoTopCommas(us)) && AllMembersParse(us, depth)
  {
    var whole := NoTopCommas(us);
    if AllWhole(whole) && AllMembersParse(us, depth) {
      assert forall i :: 0 <= i < |us| ==> whole[i] && Parses(us[i], depth + 1);
    }
  }

  lemma UnionMembers(us: seq<DataType>, depth: nat, bound: nat)
    requires forall i :: 0 <= i < |us| ==> MemberOutcome(us[i], depth)
    requires |DisplayTypes(us)| < bound && depth < MAX_DEPTH
    ensures var o := ParseMembers(Split(DisplayTypes(us), 0), depth, bound);
            var r := if o.None? || o.value == [] then None else Some(Union(o.value));
            if Parses(Union(us), depth) then r == Some(Union(us)) else Differs(r, Union(us))
  {
    var t := Union(us);
    var parts := Split(DisplayTypes(us), 0);
    var o := ParseMembers(parts, depth, bound);
    if us == [] {
      EmptyUnion(depth, bound);
    } else {
      hide Parse, Parses, Trim, Display, DisplayTypes, Split, ParseMembers, TopComma, UpperNames, NonBlank;
      MemberListPieces(us);
      UnionParses(us, depth);
      if AllWhole(NoTopCommas(us)) {
        MembersRead(parts, us, depth, bound);
      } else {
        MembersCount(parts, depth, bound);
      }
      if o.Some? && !Parses(t, depth) {
        UnionsDiffer(o.value, us);
      }
    }
  }

  /** The text after `UNION(`, as the parser meets it. */
  lemma UnionText(t: DataType)
    requires t.Union?
    ensures Tail(t) != "" && Upper(Tail(t))[1..] == DisplayTypes(UpperNames(t).types) + ")"
    ensures |DisplayTypes(UpperNames(t).types)| + 1 < |Display(t)|
  {
    var us := UpperNames(t).types;
    var d := DisplayTypes(us);
    assert UpperNames(t) == Union(us) && Head(t) == "UNION";
    assert Tail(Union(us)) == "(" + d + ")" && Display(t) == Head(t) + Tail(t);
    hide *;
    UpperDisplay(t);
    InParens(d);
    assert |Upper(Tail(t))| == |Tail(t)|;
  }

  lemma InParens(d: string)
    ensures ("(" + d + ")")[1..] == d + ")" && |"(" + d + ")"| == |d| + 2
  {
  }

  lemma UnionTakes(t: DataType, depth: nat)
    requires t.Union? && GoodNames(t) && depth < MAX_DEPTH
    ensures var us := UpperNames(t).types;
            |DisplayTypes(us)| < |Display(t)| &&
            var o := ParseMembers(Split(DisplayTypes(us), 0), depth, |Display(t)|);
            Parse(Display(t), depth) == if o.None? || o.value == [] then None else Some(Union(o.value))
  {
    UnionText(t);
    hide Parse, Display, DisplayTypes, ParseParameterized, Split, ParseMembers, Inner, Tail, Upper, UpperNames, Head;
    InnerText(DisplayTypes(UpperNames(t).types));
    ParseBracketed(t, depth);
    ParenBranch(t, depth);
  }

  lemma UnionOutcome(t: DataType, depth: nat)
    requires t.Union? && GoodNames(t) && depth < MAX_DEPTH
    requires forall i :: 0 <= i < |t.types| ==> MemberOutcome(UpperNames(t.types[i]), depth)
    ensures Outcome(t, depth, Parse(Display(t), depth))
  {
    var us := UpperNames(t).types;
    UnionTakes(t, depth);
    UpperParses(t, depth);
    UpperIdempotent(t);
    assert UpperNames(t) == Union(us) == Seen(t);
    assert forall i :: 0 <= i < |us| ==> us[i] == UpperNames(t.types[i]);
    hide Parse, Parses, Display, DisplayTypes, Split, ParseMembers, UpperNames, Seen, GoodNames, MemberOutcome;
    UnionMembers(us, depth, |Display(t)|);
  }

  // ------------------------------------------------------------- the round trip

  /** What parsing a printed type gives, at every depth. */
  lemma {:induction false} ReadBack(t: DataType, depth: nat)
    requires GoodNames(t)
    ensures Outcome(t, depth, Parse(Display(t), depth))
    decreases |Display(t)|
  {
    if depth >= MAX_DEPTH {
    } else if Tail(t) == "" {
      ParseBare(t, depth);
    } else if t.Array? {
      ReadBack(t.element, depth + 1);
      ArrayOutcome(t, depth);
    } else if HasElement(t) {
      ReadBack(t.element, depth + 1);
      ContainerOutcome(t, depth);
    } else if t.Struct? {
      forall i | 0 <= i < |t.fields| ensures FieldOutcome(t.fields[i], depth) {
        FieldIsShorter(t.fields, i);
        ReadBack(t.fields[i].ty, depth + 1);
      }
      StructOutcome(t, depth);
    } else if t.Union? {
      forall i | 0 <= i < |t.types| ensures MemberOutcome(UpperNames(t.types[i]), depth) {
        MemberIsShorter(t.types, i);
        UpperGood(t.types[i]);
        UpperIdempotent(t.types[i]);
        UpperDisplay(t.types[i]);
        ReadBack(UpperNames(t.types[i]), depth + 1);
      }
      UnionOutcome(t, depth);
    } else if t.Decimal? {
      DecimalOutcome(t, depth);
    } else {
      SizedOutcome(t, depth);
    }
  }

  lemma {:induction false} FieldIsShorter(fs: seq<Field>, i: nat)
    requires i < |fs|
    ensures |Display(fs[i].ty)| <= |DisplayFields(fs)|
    decreases |fs|
  {
    if i > 0 {
      FieldIsShorter(fs[1..], i - 1);
    }
  }

  lemma {:induction false} MemberIsShorter(ts: seq<DataType>, i: nat)
    requires i < |ts|
    ensures |Display(ts[i])| <= |DisplayTypes(ts)|
    decreases |ts|
  {
    if i > 0 {
      MemberIsShorter(ts[1..], i - 1);
    }
  }

  /** Parsing mirrors printing exactly on the types that the parser takes apart
      correctly and whose field names inside UNIONs are uppercase. */
  lemma RoundTrip(t: DataType)
    requires GoodNames(t)
    ensures Parse(Display(t), 0) == Some(t) <==> Parses(t, 0) && Seen(t) == t
  {
    ReadBack(t, 0);
    hide Parse, Parses, Seen, UpperNames, Display;
  }

  /** A lowercase field name inside a UNION comes back in uppercase. */
  lemma UnionRaisesNames(name: string, k: Kind)
    requires GoodName(name)
    ensures var t := Union([Struct([Field(name, Scalar(k))])]);
            Parse(Display(t), 0) == Some(Union([Struct([Field(Upper(name), Scalar(k))])]))
  {
    var f := Field(name, Scalar(k));
    var t := Union([Struct([f])]);
    assert FieldParses(f, 1);
    assert Parses(Struct([f]), 1) && !TopComma(Struct([f])) && Parses(t, 0);
    assert UpperNames(Struct([f])).fields == [Field(Upper(name), Scalar(k))];
    assert UpperNames(t).types == [Struct([Field(Upper(name), Scalar(k))])];
    hide Parse, Display, Parses;
    ReadBack(t, 0);
  }
}
