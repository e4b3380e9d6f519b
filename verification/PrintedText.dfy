/**
 What the parser's string operations make of a printed type: its brackets, its
 whitespace, its uppercase form, and the pieces its top-level commas cut it into.
 */
module PrintedText {
  import opened Options
  import opened DataTypes
  import opened TypeText
  import opened TypeDisplay

  // ------------------------------------------------------------- field names

  /** A field name the parser can tell from the text around it: not empty, no
      whitespace, no unmatched bracket, no comma outside its own brackets. */
  predicate GoodName(n: string) {
    Solid(n) && Depth(n, 0) == Some(0) && Split(n, 0) == [n]
  }

  predicate HasElement(t: DataType) {
    t.List? || t.Map? || t.Set? || t.Array?
  }

  predicate GoodNames(t: DataType)
    decreases t
  {
    if t.Struct? then forall i :: 0 <= i < |t.fields| ==> GoodName(t.fields[i].name) && GoodNames(t.fields[i].ty)
    else if t.Union? then forall i :: 0 <= i < |t.types| ==> GoodNames(t.types[i])
    else HasElement(t) ==> GoodNames(t.element)
  }

  /** Every field name in uppercase. */
  function UpperNames(t: DataType): DataType
    decreases t
  {
    match t
    case List(e) => List(UpperNames(e))
    case Map(e) => Map(UpperNames(e))
    case Set(e) => Set(UpperNames(e))
    case Array(e, n) => Array(UpperNames(e), n)
    case Struct(fs) =>
      Struct(seq(|fs|, i requires 0 <= i < |fs| => Field(Upper(fs[i].name), UpperNames(fs[i].ty))))
    case Union(ts) => Union(seq(|ts|, i requires 0 <= i < |ts| => UpperNames(ts[i])))
    case _ => t
  }

  // ------------------------------------------------------------ lists of texts

  /** Texts separated by a comma and a space. */
  function Listed(xs: seq<string>): string {
    if xs == [] then "" else if |xs| == 1 then xs[0] else xs[0] + ", " + Listed(xs[1..])
  }

  function TypeTexts(ts: seq<DataType>): (r: seq<string>)
    ensures |r| == |ts| && forall i :: 0 <= i < |ts| ==> r[i] == Display(ts[i])
  {
    seq(|ts|, i requires 0 <= i < |ts| => Display(ts[i]))
  }

  function FieldTexts(fs: seq<Field>): (r: seq<string>)
    ensures |r| == |fs| && forall i :: 0 <= i < |fs| ==> r[i] == DisplayField(fs[i])
  {
    seq(|fs|, i requires 0 <= i < |fs| => DisplayField(fs[i]))
  }

  lemma {:induction false} TypesAreListed(ts: seq<DataType>)
    ensures DisplayTypes(ts) == Listed(TypeTexts(ts))
  {
    if |ts| > 1 {
      TypesAreListed(ts[1..]);
      assert TypeTexts(ts)[1..] == TypeTexts(ts[1..]);
    }
  }

  lemma {:induction false} FieldsAreListed(fs: seq<Field>)
    ensures DisplayFields(fs) == Listed(FieldTexts(fs))
  {
    if |fs| > 1 {
      FieldsAreListed(fs[1..]);
      assert FieldTexts(fs)[1..] == FieldTexts(fs[1..]);
    }
  }

  ghost predicate AllBalanced(xs: seq<string>) {
    forall i :: 0 <= i < |xs| ==> Balanced(xs[i])
  }

  ghost predicate AllTidy(xs: seq<string>) {
    forall i, p :: 0 <= i < |xs| ==> Tidy(xs[i], p) == Some(false)
  }

  lemma CommaSpace()
    ensures Balanced(", ") && Tidy(", ", false) == Some(true)
  {
    NoAnglesBalanced(", ");
    assert Tidy(", ", false) == Tidy(" ", false);
  }

  lemma {:induction false} ListedBalanced(xs: seq<string>)
    requires AllBalanced(xs)
    ensures Balanced(Listed(xs))
  {
    hide Balanced;
    if xs == [] {
      NoAnglesBalanced("");
    } else if |xs| > 1 {
      ListedBalanced(xs[1..]);
      CommaSpace();
      BalancedConcat(xs[0], ", ");
      BalancedConcat(xs[0] + ", ", Listed(xs[1..]));
    }
  }

  lemma {:induction false} ListedTidy(xs: seq<string>, p: bool)
    requires AllTidy(xs) && xs != []
    ensures Tidy(Listed(xs), p) == Some(false)
    decreases |xs|
  {
    hide Tidy;
    if |xs| > 1 {
      ListedTidy(xs[1..], true);
      CommaSpace();
      TidyConcat(xs[0], ", ", p);
      TidyConcat(xs[0] + ", ", Listed(xs[1..]), p);
    }
  }

  // --------------------------------------------------------- printed brackets

  /** Words and digits hold no spaces, brackets or commas. */
  lemma WordIsPlain(w: string)
    requires Word(w) && w != ""
    ensures Solid(w) && NoAngles(w) && NoCommas(w) && Upper(w) == w
  {
    assert forall i :: 0 <= i < |w| ==> WordChar(w[i]);
  }

  lemma DigitsArePlain(n: nat)
    ensures Word(Digits(n)) && Digits(n) != ""
  {
    assert forall i :: 0 <= i < |Digits(n)| ==> IsDigit(Digits(n)[i]);
  }

  lemma HeadIsPlain(t: DataType)
    ensures Word(Head(t)) && Head(t) != ""
  {
    HeadIsWord(t);
  }

  lemma PlainBalanced(w: string)
    requires Word(w) && w != ""
    ensures Balanced(w) && forall p :: Tidy(w, p) == Some(false)
  {
    hide Balanced, Tidy;
    WordIsPlain(w);
    NoAnglesBalanced(w);
    forall p ensures Tidy(w, p) == Some(false) {
      SolidIsTidy(w, p);
    }
  }

  /** One character that is neither space nor bracket. */
  lemma OneCharacter(c: char)
    requires !IsSpace(c)
    ensures forall p :: Tidy([c], p) == Some(false)
    ensures c != '<' && c != '>' ==> Balanced([c])
  {
    forall p ensures Tidy([c], p) == Some(false) {
      assert [c][1..] == [];
    }
    if c != '<' && c != '>' {
      NoAnglesBalanced([c]);
    }
  }

  lemma BalancedBetween(a: char, s: string, b: char)
    requires Balanced(s)
    requires (a == '<' && b == '>') || (a == '(' && b == ')')
    ensures Balanced([a] + s + [b])
  {
    hide Balanced;
    if a == '<' {
      BalancedAngles(s);
    } else {
      OneCharacter(a);
      OneCharacter(b);
      BalancedConcat([a], s);
      BalancedConcat([a] + s, [b]);
    }
  }

  lemma TidyBetween(a: char, s: string, b: char, p: bool)
    requires !IsSpace(a) && !IsSpace(b) && (s == "" || Tidy(s, false) == Some(false))
    ensures Tidy([a] + s + [b], p) == Some(false)
  {
    hide Tidy;
    OneCharacter(a);
    OneCharacter(b);
    TidyConcat([a], s, p);
    TidyConcat([a] + s, [b], p);
    if s == "" {
      assert [a] + s == [a];
    }
  }

  lemma SizeText(n: nat)
    ensures Balanced(Size(n)) && forall p :: Tidy(Size(n), p) == Some(false)
  {
    hide Balanced, Tidy;
    DigitsArePlain(n);
    PlainBalanced(Digits(n));
    BalancedBetween('(', Digits(n), ')');
    forall p ensures Tidy(Size(n), p) == Some(false) {
      TidyBetween('(', Digits(n), ')', p);
    }
  }

  /** The parameters of a decimal as a list of two texts. */
  lemma DecimalText(p: nat, s: nat)
    ensures "(" + Digits(p) + ", " + Digits(s) + ")" == "(" + Listed([Digits(p), Digits(s)]) + ")"
    ensures AllBalanced([Digits(p), Digits(s)]) && AllTidy([Digits(p), Digits(s)])
  {
    hide Balanced, Tidy;
    var xs := [Digits(p), Digits(s)];
    assert xs[1..] == [Digits(s)];
    DigitsArePlain(p);
    DigitsArePlain(s);
    PlainBalanced(Digits(p));
    PlainBalanced(Digits(s));
  }

  lemma {:induction false} DisplayBalanced(t: DataType)
    requires GoodNames(t)
    ensures Balanced(Display(t))
    decreases t, 1
  {
    hide Balanced;
    HeadIsPlain(t);
    PlainBalanced(Head(t));
    TailBalanced(t);
    BalancedConcat(Head(t), Tail(t));
  }

  lemma TailBalanced(t: DataType)
    requires GoodNames(t)
    ensures Balanced(Tail(t))
    decreases t, 0
  {
    hide Balanced;
    NoAnglesBalanced("");
    match t
    case Scalar(_) =>
    case List(e) => ElementBalanced(t);
    case Map(e) => ElementBalanced(t);
    case Set(e) => ElementBalanced(t);
    case FixedString(n) => SizeText(n);
    case VectorDense(n) => SizeText(n);
    case VectorSparse(n) => SizeText(n);
    case Decimal(p, s) =>
      DecimalText(p, s);
      ListedBalanced([Digits(p), Digits(s)]);
      BalancedBetween('(', Listed([Digits(p), Digits(s)]), ')');
    case Union(ts) =>
      forall i | 0 <= i < |ts| ensures Balanced(TypeTexts(ts)[i]) {
        DisplayBalanced(ts[i]);
      }
      TypesAreListed(ts);
      ListedBalanced(TypeTexts(ts));
      BalancedBetween('(', DisplayTypes(ts), ')');
    case Struct(fs) =>
      forall i | 0 <= i < |fs| ensures Balanced(FieldTexts(fs)[i]) {
        DisplayBalanced(fs[i].ty);
        FieldBalanced(fs[i]);
      }
      FieldsAreListed(fs);
      ListedBalanced(FieldTexts(fs));
      BalancedBetween('<', DisplayFields(fs), '>');
    case Array(e, len) =>
      ElementBalanced(t);
      if len.Some? {
        SizeText(len.value);
        BalancedConcat("<" + Display(e) + ">", Size(len.value));
      } else {
        assert "<" + Display(e) + ">" + "" == "<" + Display(e) + ">";
      }
  }

  lemma ElementBalanced(t: DataType)
    requires HasElement(t) && GoodNames(t)
    ensures Balanced("<" + Display(t.element) + ">")
    decreases t, 0, 0
  {
    hide Balanced;
    DisplayBalanced(t.element);
    BalancedBetween('<', Display(t.element), '>');
  }

  lemma FieldBalanced(f: Field)
    requires GoodName(f.name) && Balanced(Display(f.ty))
    ensures Balanced(DisplayField(f))
  {
    hide Balanced;
    ClosedIsBalanced(f.name);
    NoAnglesBalanced(" ");
    BalancedConcat(f.name, " ");
    BalancedConcat(f.name + " ", Display(f.ty));
  }

  lemma {:induction false} DisplayTidy(t: DataType, p: bool)
    requires GoodNames(t)
    ensures Tidy(Display(t), p) == Some(false)
    decreases t, 1
  {
    hide Tidy;
    HeadIsPlain(t);
    PlainBalanced(Head(t));
    TailTidy(t);
    TidyConcat(Head(t), Tail(t), p);
  }

  lemma TailTidy(t: DataType)
    requires GoodNames(t)
    ensures Tidy(Tail(t), false) == Some(false)
    decreases t, 0
  {
    assert Tidy("", false) == Some(false);
    hide Tidy;
    match t
    case Scalar(_) =>
    case List(e) => ElementTidy(t);
    case Map(e) => ElementTidy(t);
    case Set(e) => ElementTidy(t);
    case FixedString(n) => SizeText(n);
    case VectorDense(n) => SizeText(n);
    case VectorSparse(n) => SizeText(n);
    case Decimal(p, s) =>
      DecimalText(p, s);
      ListedTidy([Digits(p), Digits(s)], false);
      TidyBetween('(', Listed([Digits(p), Digits(s)]), ')', false);
    case Union(ts) =>
      TypesTidy(t);
      TidyBetween('(', DisplayTypes(ts), ')', false);
    case Struct(fs) =>
      FieldsTidy(t);
      TidyBetween('<', DisplayFields(fs), '>', false);
    case Array(e, len) =>
      ElementTidy(t);
      if len.Some? {
        SizeText(len.value);
        TidyConcat("<" + Display(e) + ">", Size(len.value), false);
      } else {
        assert "<" + Display(e) + ">" + "" == "<" + Display(e) + ">";
      }
  }

  lemma TypesTidy(t: DataType)
    requires t.Union? && GoodNames(t)
    ensures t.types != [] ==> Tidy(DisplayTypes(t.types), false) == Some(false)
    decreases t, 0, 0
  {
    hide Tidy, Display;
    var ts := t.types;
    forall i, p | 0 <= i < |ts| ensures Tidy(TypeTexts(ts)[i], p) == Some(false) {
      DisplayTidy(ts[i], p);
    }
    TypesAreListed(ts);
    if ts != [] {
      ListedTidy(TypeTexts(ts), false);
    }
  }

  lemma FieldsTidy(t: DataType)
    requires t.Struct? && GoodNames(t)
    ensures t.fields != [] ==> Tidy(DisplayFields(t.fields), false) == Some(false)
    decreases t, 0, 0
  {
    hide Tidy, Display, DisplayField;
    var fs := t.fields;
    forall i, p | 0 <= i < |fs| ensures Tidy(FieldTexts(fs)[i], p) == Some(false) {
      DisplayTidy(fs[i].ty, true);
      FieldTidy(fs[i], p);
    }
    FieldsAreListed(fs);
    if fs != [] {
      ListedTidy(FieldTexts(fs), false);
    }
  }

  lemma ElementTidy(t: DataType)
    requires HasElement(t) && GoodNames(t)
    ensures Tidy("<" + Display(t.element) + ">", false) == Some(false)
    decreases t, 0, 0
  {
    hide Tidy;
    DisplayTidy(t.element, false);
    TidyBetween('<', Display(t.element), '>', false);
  }

  lemma FieldTidy(f: Field, p: bool)
    requires GoodName(f.name) && Tidy(Display(f.ty), true) == Some(false)
    ensures Tidy(DisplayField(f), p) == Some(false)
  {
    assert Tidy(" ", false) == Some(true);
    hide Tidy;
    SolidIsTidy(f.name, p);
    TidyConcat(f.name, " ", p);
    TidyConcat(f.name + " ", Display(f.ty), p);
  }

  // ------------------------------------------------------------ uppercase text

  function UpperAll(xs: seq<string>): (r: seq<string>)
    ensures |r| == |xs| && forall i :: 0 <= i < |xs| ==> r[i] == Upper(xs[i])
  {
    seq(|xs|, i requires 0 <= i < |xs| => Upper(xs[i]))
  }

  lemma {:induction false} UpperListed(xs: seq<string>)
    ensures Upper(Listed(xs)) == Listed(UpperAll(xs))
  {
    if |xs| > 1 {
      UpperListed(xs[1..]);
      assert UpperAll(xs)[1..] == UpperAll(xs[1..]);
      UpperConcat(xs[0], ", ");
      assert Upper(", ") == ", ";
      UpperConcat(xs[0] + ", ", Listed(xs[1..]));
    }
  }

  lemma UpperBetween(a: char, s: string, b: char)
    requires UpperChar(a) == a && UpperChar(b) == b
    ensures Upper([a] + s + [b]) == [a] + Upper(s) + [b]
  {
  }

  lemma UpperPlain(w: string)
    requires forall i :: 0 <= i < |w| ==> UpperChar(w[i]) == w[i]
    ensures Upper(w) == w
  {
  }

  /** The uppercase text of a type prints the type with uppercase field names. */
  lemma {:induction false} UpperDisplay(t: DataType)
    ensures Upper(Display(t)) == Display(UpperNames(t))
    ensures Head(UpperNames(t)) == Head(t) && Upper(Tail(t)) == Tail(UpperNames(t))
    decreases t, 1
  {
    HeadIsPlain(t);
    WordIsPlain(Head(t));
    assert Head(UpperNames(t)) == Head(t);
    hide Upper;
    UpperTail(t);
    UpperConcat(Head(t), Tail(t));
  }

  lemma SizeIsUpper(n: nat)
    ensures Upper(Size(n)) == Size(n)
  {
    DigitsArePlain(n);
    WordIsPlain(Digits(n));
    UpperBetween('(', Digits(n), ')');
  }

  lemma DecimalIsUpper(p: nat, s: nat)
    ensures Upper("(" + Digits(p) + ", " + Digits(s) + ")") == "(" + Digits(p) + ", " + Digits(s) + ")"
  {
    DigitsArePlain(p);
    DigitsArePlain(s);
    WordIsPlain(Digits(p));
    WordIsPlain(Digits(s));
    UpperPlain("(" + Digits(p) + ", " + Digits(s) + ")");
  }

  lemma UpperTail(t: DataType)
    ensures Upper(Tail(t)) == Tail(UpperNames(t))
    decreases t, 0
  {
    UpperPlain("");
    hide Upper;
    match t
    case Scalar(_) =>
    case List(e) => UpperElement(t);
    case Map(e) => UpperElement(t);
    case Set(e) => UpperElement(t);
    case FixedString(n) => SizeIsUpper(n);
    case VectorDense(n) => SizeIsUpper(n);
    case VectorSparse(n) => SizeIsUpper(n);
    case Decimal(p, s) => DecimalIsUpper(p, s);
    case Union(ts) =>
      UpperTypes(t);
      UpperBetween('(', DisplayTypes(ts), ')');
    case Struct(fs) =>
      UpperFields(t);
      UpperBetween('<', DisplayFields(fs), '>');
    case Array(e, len) =>
      UpperElement(t);
      if len.Some? {
        SizeIsUpper(len.value);
        UpperConcat("<" + Display(e) + ">", Size(len.value));
      } else {
        UpperConcat("<" + Display(e) + ">", "");
      }
  }

  lemma UpperTypes(t: DataType)
    requires t.Union?
    ensures Upper(DisplayTypes(t.types)) == DisplayTypes(UpperNames(t).types)
    decreases t, 0, 0
  {
    hide Upper, Display;
    var ts, us := t.types, UpperNames(t).types;
    forall i | 0 <= i < |ts| ensures Upper(Display(ts[i])) == Display(us[i]) {
      UpperDisplay(ts[i]);
    }
    assert UpperAll(TypeTexts(ts)) == TypeTexts(us);
    TypesAreListed(ts);
    TypesAreListed(us);
    UpperListed(TypeTexts(ts));
  }

  lemma UpperFields(t: DataType)
    requires t.Struct?
    ensures Upper(DisplayFields(t.fields)) == DisplayFields(UpperNames(t).fields)
    decreases t, 0, 0
  {
    hide Upper, Display, DisplayField;
    var fs, us := t.fields, UpperNames(t).fields;
    forall i | 0 <= i < |fs| ensures Upper(DisplayField(fs[i])) == DisplayField(us[i]) {
      UpperDisplay(fs[i].ty);
      UpperField(fs[i]);
    }
    assert UpperAll(FieldTexts(fs)) == FieldTexts(us);
    FieldsAreListed(fs);
    FieldsAreListed(us);
    UpperListed(FieldTexts(fs));
  }

  lemma UpperElement(t: DataType)
    requires HasElement(t)
    ensures Upper("<" + Display(t.element) + ">") == "<" + Display(UpperNames(t.element)) + ">"
    ensures UpperNames(t.element) == EmptyType <==> t.element == EmptyType
    decreases t, 0, 0
  {
    hide Upper;
    UpperDisplay(t.element);
    UpperBetween('<', Display(t.element), '>');
  }

  lemma UpperField(f: Field)
    requires Upper(Display(f.ty)) == Display(UpperNames(f.ty))
    ensures Upper(DisplayField(f)) == DisplayField(Field(Upper(f.name), UpperNames(f.ty)))
  {
    UpperPlain(" ");
    hide Upper;
    UpperConcat(f.name, " ");
    UpperConcat(f.name + " ", Display(f.ty));
  }

  // --------------------------------------------------------------- the pieces

  /** A comma outside angle brackets: parentheses do not protect commas. */
  predicate TopComma(t: DataType)
    decreases t
  {
    t.Decimal? || (t.Union? && (|t.types| > 1 || exists i :: 0 <= i < |t.types| && TopComma(t.types[i])))
  }

  predicate NonBlank(s: string) {
    exists i :: 0 <= i < |s| && !IsSpace(s[i])
  }

  predicate AllNonBlank(xs: seq<string>) {
    forall i :: 0 <= i < |xs| ==> NonBlank(xs[i])
  }

  lemma NonBlankConcat(a: string, b: string)
    requires NonBlank(a) || NonBlank(b)
    ensures NonBlank(a + b)
  {
    if NonBlank(a) {
      var i :| 0 <= i < |a| && !IsSpace(a[i]);
      assert (a + b)[i] == a[i];
    } else {
      var i :| 0 <= i < |b| && !IsSpace(b[i]);
      assert (a + b)[|a| + i] == b[i];
    }
  }

  lemma SolidNonBlank(s: string)
    requires Solid(s)
    ensures NonBlank(s)
  {
    assert !IsSpace(s[0]);
  }

  lemma WeldNonBlank(a: seq<string>, b: seq<string>)
    requires a != [] && b != [] && AllNonBlank(a) && AllNonBlank(b[1..])
    ensures AllNonBlank(Weld(a, b))
  {
    hide NonBlank;
    NonBlankConcat(a[|a| - 1], b[0]);
  }

  /** Everything that follows needs of the pieces of a text. */
  ghost predicate Pieces(s: string, whole: bool) {
    && AllNonBlank(Split(s, 0))
    && (whole ==> Split(s, 0) == [s])
    && (!whole ==> |Split(s, 0)| > 1)
  }

  lemma PlainPieces(s: string)
    requires NoCommas(s) && NonBlank(s)
    ensures Pieces(s, true)
  {
    hide NonBlank;
    SplitNoCommas(s, 0);
  }

  /** Text added around pieces does not change their number. */
  lemma PiecesBetween(a: string, s: string, b: string)
    requires Solid(a) && Balanced(a) && Split(a, 0) == [a] && NoCommas(b) && Balanced(s)
    requires AllNonBlank(Split(s, 0)[1..])
    ensures Pieces(a + s + b, |Split(s, 0)| == 1)
  {
    hide Balanced, NonBlank, Solid, NoCommas, Split;
    var p := Split(s, 0);
    SplitNoCommas(b, 0);
    SplitBalanced(a, s);
    BalancedConcat(a, s);
    SplitBalanced(a + s, b);
    SolidNonBlank(a);
    WeldNonBlank([a], p);
    WeldNonBlank(Weld([a], p), [b]);
    if |p| == 1 {
      SplitOne(s, 0);
      WeldOnes(a, s);
      WeldOnes(a + s, b);
    }
  }

  lemma {:induction false} SplitOne(s: string, d: nat)
    requires |Split(s, d)| == 1
    ensures Split(s, d) == [s]
    decreases |s|
  {
    if s != "" {
      SplitOne(s[1..], Next(s[0], d));
      assert [s[0]] + s[1..] == s;
    }
  }

  /** The pieces of a list are the pieces of its members, all but the first after a space. */
  lemma SplitPair(x: string, l: string)
    requires Balanced(x)
    ensures Split(x + ", " + l, 0) == Split(x, 0) + Front(' ', Split(l, 0))
  {
    var y := Front(' ', Split(l, 0));
    assert Split(", " + l, 0) == [""] + y by {
      assert (", " + l)[1..] == " " + l && (" " + l)[1..] == l;
    }
    hide Split, Balanced, Front;
    assert x + ", " + l == x + (", " + l);
    SplitBalanced(x, ", " + l);
    WeldGap(Split(x, 0), y);
  }

  lemma WeldGap(a: seq<string>, b: seq<string>)
    requires a != []
    ensures Weld(a, [""] + b) == a + b
  {
    assert a[|a| - 1] + "" == a[|a| - 1];
    assert ([""] + b)[1..] == b;
  }

  function AfterSpace(s: string): string {
    [' '] + s
  }

  function AllAfterSpace(xs: seq<string>): (r: seq<string>)
    ensures |r| == |xs| && forall i :: 0 <= i < |xs| ==> r[i] == AfterSpace(xs[i])
  {
    if xs == [] then [] else [AfterSpace(xs[0])] + AllAfterSpace(xs[1..])
  }

  function Spaced(xs: seq<string>): (r: seq<string>)
    ensures |r| == |xs| && forall i :: 0 <= i < |xs| ==> r[i] == if i == 0 then xs[0] else AfterSpace(xs[i])
  {
    if xs == [] then [] else [xs[0]] + AllAfterSpace(xs[1..])
  }

  ghost predicate AllPieces(xs: seq<string>, whole: seq<bool>)
    requires |xs| == |whole|
  {
    forall i :: 0 <= i < |xs| ==> Pieces(xs[i], whole[i])
  }

  predicate AllWhole(whole: seq<bool>) {
    forall i :: 0 <= i < |whole| ==> whole[i]
  }

  /** Splitting a list gives its members back when none has a comma of its own, and
      more pieces than members otherwise. */
  lemma {:induction false} ListedPieces(xs: seq<string>, whole: seq<bool>)
    requires |xs| == |whole| > 0 && AllBalanced(xs) && AllPieces(xs, whole)
    ensures AllNonBlank(Split(Listed(xs), 0))
    ensures AllWhole(whole) ==> Split(Listed(xs), 0) == Spaced(xs)
    ensures !AllWhole(whole) ==> |Split(Listed(xs), 0)| > |xs|
    decreases |xs|
  {
    hide Balanced, NonBlank, Split, Front;
    if |xs| == 1 {
      assert Listed(xs) == xs[0] && Pieces(xs[0], whole[0]);
      assert Spaced(xs) == [xs[0]];
    } else {
      var p, q := Split(xs[0], 0), Split(Listed(xs[1..]), 0);
      ListedPieces(xs[1..], whole[1..]);
      SplitPair(xs[0], Listed(xs[1..]));
      assert Pieces(xs[0], whole[0]);
      FrontNonBlank(q);
      assert AllNonBlank(p + Front(' ', q));
      assert AllWhole(whole) <==> whole[0] && AllWhole(whole[1..]);
      if AllWhole(whole) {
        SpacedMore(xs);
      }
    }
  }

  lemma FrontNonBlank(q: seq<string>)
    requires q != [] && AllNonBlank(q)
    ensures AllNonBlank(Front(' ', q)) && |Front(' ', q)| == |q|
  {
    hide NonBlank;
    NonBlankConcat(" ", q[0]);
  }

  lemma SpacedMore(xs: seq<string>)
    requires |xs| > 1
    ensures Spaced(xs) == [xs[0]] + Front(' ', Spaced(xs[1..]))
  {
    FrontSpaced(xs[1..]);
    hide Front, AfterSpace;
  }

  lemma FrontSpaced(xs: seq<string>)
    requires xs != []
    ensures Front(' ', Spaced(xs)) == AllAfterSpace(xs)
  {
    var more := AllAfterSpace(xs[1..]);
    assert Spaced(xs) == [xs[0]] + more;
    hide Spaced, AllAfterSpace;
    DropOne(xs[0], more);
  }

  lemma DropOne(x: string, more: seq<string>)
    ensures ([x] + more)[1..] == more && ([x] + more)[0] == x
  {
  }

  lemma AnglePieces(h: string, s: string, rest: string)
    requires Word(h) && h != "" && Balanced(s) && NoCommas(rest)
    ensures Pieces(h + ("<" + s + ">" + rest), true)
  {
    hide Balanced, Split, Word, NoCommas;
    var a := "<" + s + ">";
    WordIsPlain(h);
    NoAnglesBalanced(h);
    SplitNoCommas(h, 0);
    SplitAngles(s);
    BalancedAngles(s);
    PiecesBetween(h, a, rest);
    assert h + a + rest == h + (a + rest);
  }

  lemma SizePieces(h: string, n: nat)
    requires Word(h) && h != ""
    ensures NoCommas(Size(n)) && Pieces(h + Size(n), true)
  {
    DigitsArePlain(n);
    WordIsPlain(Digits(n));
    WordIsPlain(h);
    SolidNonBlank(h);
    NonBlankConcat(h, Size(n));
    PlainPieces(h + Size(n));
  }

  lemma OpenParen(h: string)
    requires Word(h) && h != ""
    ensures Solid(h + "(") && NoAngles(h + "(") && NoCommas(h + "(") && NoCommas(")")
  {
    WordIsPlain(h);
    hide Word, WordChar;
    assert !IsSpace('(');
    hide IsSpace;
    var s := h + "(";
    assert forall i :: 0 <= i < |s| ==> s[i] == if i < |h| then h[i] else '(';
  }

  lemma ParenPieces(h: string, xs: seq<string>, whole: seq<bool>)
    requires Word(h) && h != "" && |xs| == |whole| > 0 && AllBalanced(xs) && AllPieces(xs, whole)
    ensures Pieces(h + ("(" + Listed(xs) + ")"), |xs| == 1 && whole[0])
  {
    OpenParen(h);
    hide Balanced, Split, Word, NoCommas, NonBlank, Solid, NoAngles, Pieces, Listed, Spaced;
    ListedPieces(xs, whole);
    ListedBalanced(xs);
    NoAnglesBalanced(h + "(");
    SplitNoCommas(h + "(", 0);
    var s := Listed(xs);
    assert |Split(s, 0)| == 1 <==> |xs| == 1 && whole[0] by {
      assert |xs| == 1 ==> (AllWhole(whole) <==> whole[0]);
    }
    PiecesBetween(h + "(", s, ")");
    Enclose(h, "(", s, ")");
  }

  lemma DigitsPieces(n: nat)
    ensures Pieces(Digits(n), true)
  {
    DigitsArePlain(n);
    WordIsPlain(Digits(n));
    SolidNonBlank(Digits(n));
    PlainPieces(Digits(n));
  }

  /** A printed type is one piece unless it has a top-level comma. */
  lemma {:induction false} DisplayPieces(t: DataType)
    requires GoodNames(t)
    ensures Pieces(Display(t), !TopComma(t))
    decreases t
  {
    hide Balanced, Pieces, Word;
    HeadIsPlain(t);
    var h := Head(t);
    if Tail(t) == "" {
      assert h + "" == h;
      WordIsPlain(h);
      SolidNonBlank(h);
      PlainPieces(h);
    } else if HasElement(t) {
      DisplayBalanced(t.element);
      ElementPieces(t);
    } else if t.Struct? {
      TailBalanced(t);
      StructPieces(t);
    } else if t.Union? {
      forall i | 0 <= i < |t.types| ensures Pieces(Display(t.types[i]), !TopComma(t.types[i])) {
        DisplayPieces(t.types[i]);
      }
      UnionPieces(t);
    } else if t.Decimal? {
      DecimalPieces(t);
    } else {
      SizePieces(h, t.size);
    }
  }

  lemma ElementPieces(t: DataType)
    requires HasElement(t) && GoodNames(t) && Tail(t) != ""
    ensures Pieces(Display(t), true)
  {
    hide Balanced, Pieces, Word;
    HeadIsPlain(t);
    DisplayBalanced(t.element);
    var d := Display(t.element);
    if t.Array? && t.len.Some? {
      SizePieces(Head(t), t.len.value);
      AnglePieces(Head(t), d, Size(t.len.value));
    } else {
      AnglePieces(Head(t), d, "");
      assert "<" + d + ">" + "" == "<" + d + ">";
    }
  }

  lemma StructPieces(t: DataType)
    requires t.Struct? && GoodNames(t)
    ensures Pieces(Display(t), true)
  {
    hide Balanced, Pieces, Word;
    HeadIsPlain(t);
    var d := DisplayFields(t.fields);
    FieldsBalanced(t.fields);
    AnglePieces(Head(t), d, "");
    assert "<" + d + ">" + "" == "<" + d + ">";
  }

  lemma FieldsBalanced(fs: seq<Field>)
    requires forall i :: 0 <= i < |fs| ==> GoodName(fs[i].name) && GoodNames(fs[i].ty)
    ensures Balanced(DisplayFields(fs)) && AllBalanced(FieldTexts(fs))
  {
    hide Balanced;
    forall i | 0 <= i < |fs| ensures Balanced(FieldTexts(fs)[i]) {
      DisplayBalanced(fs[i].ty);
      FieldBalanced(fs[i]);
    }
    FieldsAreListed(fs);
    ListedBalanced(FieldTexts(fs));
  }

  lemma TypesBalanced(ts: seq<DataType>)
    requires forall i :: 0 <= i < |ts| ==> GoodNames(ts[i])
    ensures AllBalanced(TypeTexts(ts))
  {
    hide Balanced;
    forall i | 0 <= i < |ts| ensures Balanced(TypeTexts(ts)[i]) {
      DisplayBalanced(ts[i]);
    }
  }

  function NoTopCommas(ts: seq<DataType>): (r: seq<bool>)
    ensures |r| == |ts| && forall i :: 0 <= i < |ts| ==> r[i] == !TopComma(ts[i])
  {
    seq(|ts|, i requires 0 <= i < |ts| => !TopComma(ts[i]))
  }

  lemma UnionPieces(t: DataType)
    requires t.Union? && GoodNames(t)
    requires forall i :: 0 <= i < |t.types| ==> Pieces(Display(t.types[i]), !TopComma(t.types[i]))
    ensures Pieces(Display(t), !TopComma(t))
  {
    hide Balanced, Pieces, Word;
    HeadIsPlain(t);
    var ts := t.types;
    TypesAreListed(ts);
    if ts == [] {
      EmptyUnionPieces();
    } else {
      TypesBalanced(ts);
      ParenPieces("UNION", TypeTexts(ts), NoTopCommas(ts));
      assert TopComma(t) <==> |ts| > 1 || TopComma(ts[0]);
    }
  }

  lemma EmptyUnionPieces()
    ensures Pieces("UNION" + ("(" + "" + ")"), true)
  {
    var s := "UNION" + ("(" + "" + ")");
    assert s == "UNION()";
    assert NoCommas(s) && !IsSpace(s[0]);
    PlainPieces(s);
  }

  lemma DecimalPieces(t: DataType)
    requires t.Decimal?
    ensures Pieces(Display(t), false)
  {
    hide Balanced, Pieces, Word;
    HeadIsPlain(t);
    var xs := [Digits(t.precision), Digits(t.scale)];
    DecimalText(t.precision, t.scale);
    DigitsPieces(t.precision);
    DigitsPieces(t.scale);
    ParenPieces("DECIMAL", xs, [true, true]);
  }
}
