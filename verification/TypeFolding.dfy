/**
 Texts the type parser cannot tell apart. Runs of blanks count as one, blanks at the ends
 do not count, and letter case matters for nothing but the names of STRUCT fields.
 */
module TypeFolding {
  import opened Integers
  import opened Options
  import opened Strings
  import opened DataTypes
  import opened TypeText
  import opened TypeDisplay
  import opened TypeParser
  import opened PrintedText
  import opened TypeRoundTrip
  import opened ParsedTypes
  import opened TypeSpellings

  // ------------------------------------------------------------------- folding

  predicate Run(s: string) {
    |s| > 1 && IsSpace(s[0]) && IsSpace(s[1])
  }

  function FoldChar(c: char, up: bool): char {
    if IsSpace(c) then ' ' else if up then UpperChar(c) else c
  }

  /** Every run of blanks becomes one space; with `up`, small letters become capitals. */
  function Fold(s: string, up: bool): (r: string)
    ensures |r| <= |s|
  {
    if s == "" then ""
    else if Run(s) then Fold(s[1..], up)
    else [FoldChar(s[0], up)] + Fold(s[1..], up)
  }

  lemma FoldCharKeeps(c: char, up: bool)
    ensures IsSpace(FoldChar(c, up)) <==> IsSpace(c)
    ensures FoldChar(c, up) == '<' <==> c == '<'
    ensures FoldChar(c, up) == '>' <==> c == '>'
    ensures FoldChar(c, up) == ',' <==> c == ','
    ensures FoldChar(c, up) == '(' <==> c == '('
    ensures FoldChar(c, up) == ')' <==> c == ')'
    ensures IsDigit(FoldChar(c, up)) || IsDigit(c) ==> FoldChar(c, up) == c
  {
  }

  lemma NextFold(c: char, d: nat, up: bool)
    ensures Next(FoldChar(c, up), d) == Next(c, d)
  {
    FoldCharKeeps(c, up);
    hide FoldChar;
  }

  /** The first character stays blank or stays not blank. */
  lemma {:induction false} FoldStart(s: string, up: bool)
    requires s != ""
    ensures Fold(s, up) != ""
    ensures Fold(s, up)[0] == FoldChar(s[0], up)
    decreases |s|
  {
    if Run(s) {
      FoldStart(s[1..], up);
    }
  }

  lemma FoldCons(c: char, x: string, up: bool)
    ensures Fold([c] + x, up) ==
            if x != "" && IsSpace(c) && IsSpace(x[0]) then Fold(x, up) else [FoldChar(c, up)] + Fold(x, up)
  {
    assert ([c] + x)[1..] == x;
  }

  lemma {:induction false} FoldConcat(a: string, b: string, up: bool)
    requires a == "" || b == "" || !IsSpace(a[|a| - 1]) || !IsSpace(b[0])
    ensures Fold(a + b, up) == Fold(a, up) + Fold(b, up)
    decreases |a|
  {
    if a == "" {
      assert a + b == b;
    } else if b == "" {
      assert a + b == a;
    } else {
      var x := a[1..];
      assert a == [a[0]] + x && a + b == [a[0]] + (x + b);
      FoldConcat(x, b, up);
      FoldCons(a[0], x, up);
      FoldCons(a[0], x + b, up);
      hide IsSpace, Fold, FoldChar;
      assert x != "" ==> (x + b)[0] == x[0];
      Assoc([FoldChar(a[0], up)], Fold(x, up), Fold(b, up));
    }
  }

  function Case(s: string, up: bool): (r: string)
    ensures |r| == |s|
  {
    if up then Upper(s) else s
  }

  lemma {:induction false} FoldSolid(w: string, up: bool)
    requires forall i :: 0 <= i < |w| ==> !IsSpace(w[i])
    ensures Fold(w, up) == Case(w, up)
    decreases |w|
  {
    if w != "" {
      FoldSolid(w[1..], up);
    }
  }

  // -------------------------------------------------------- brackets and commas

  function FoldCut(r: Option<Cut>, up: bool): Option<Cut> {
    if r.None? then None else Some(Cut(Fold(r.value.content, up), Fold(r.value.rest, up)))
  }

  lemma CloseStarts(s: string, d: nat)
    requires s != "" && !(s[0] == '>' && d == 0) && CloseAngle(s, d).Some?
    ensures CloseAngle(s, d).value.content != "" && CloseAngle(s, d).value.content[0] == s[0]
  {
  }

  /** Two blanks in a row, the second at the start of the text. */
  predicate Meets(c: char, x: string) {
    x != "" && IsSpace(c) && IsSpace(x[0])
  }

  lemma LeadFold(c: char, r: Option<Cut>, up: bool)
    ensures FoldCut(Lead(c, r), up) ==
            if r.Some? && Meets(c, r.value.content) then FoldCut(r, up) else Lead(FoldChar(c, up), FoldCut(r, up))
  {
    if r.Some? {
      FoldCons(c, r.value.content, up);
    }
  }

  lemma CloseMeets(s: string, d: nat)
    requires |s| > 1
    ensures var r := CloseAngle(s[1..], d); r.Some? ==> (Meets(s[0], r.value.content) <==> Run(s))
  {
    var x := s[1..];
    if CloseAngle(x, d).Some? && !(x[0] == '>' && d == 0) {
      CloseStarts(x, d);
    }
  }

  lemma {:induction false} CloseFold(s: string, d: nat, up: bool)
    ensures CloseAngle(Fold(s, up), d) == FoldCut(CloseAngle(s, d), up)
    decreases |s|
  {
    if s != "" {
      FoldCharKeeps(s[0], up);
      NextFold(s[0], d, up);
      CloseFold(s[1..], Next(s[0], d), up);
      LeadFold(s[0], CloseAngle(s[1..], Next(s[0], d)), up);
      if |s| > 1 {
        CloseMeets(s, Next(s[0], d));
      }
      assert Run(s) ==> Next(s[0], d) == d;
      hide IsSpace, FoldChar, Meets, Lead;
    }
  }

  lemma {:induction false} TakeFold(s: string, up: bool)
    ensures TakeAngle(Fold(s, up)) == FoldCut(TakeAngle(s), up)
    decreases |s|
  {
    if s != "" {
      FoldCharKeeps(s[0], up);
      if s[0] == '<' {
        CloseFold(s[1..], 0, up);
      } else {
        TakeFold(s[1..], up);
      }
    }
  }

  function FoldAll(xs: seq<string>, up: bool): (r: seq<string>)
    ensures |r| == |xs| && forall i :: 0 <= i < |xs| ==> r[i] == Fold(xs[i], up)
  {
    seq(|xs|, i requires 0 <= i < |xs| => Fold(xs[i], up))
  }

  lemma SplitStarts(s: string, d: nat)
    requires s != ""
    ensures var p := Split(s, d)[0]; if s[0] == ',' && d == 0 then p == "" else p != "" && p[0] == s[0]
  {
  }

  lemma {:induction false} SplitFold(s: string, d: nat, up: bool)
    ensures Split(Fold(s, up), d) == FoldAll(Split(s, d), up)
    decreases |s|
  {
    if s != "" {
      FoldCharKeeps(s[0], up);
      NextFold(s[0], d, up);
      SplitFold(s[1..], Next(s[0], d), up);
      FrontFold(s[0], Split(s[1..], Next(s[0], d)), up);
      if |s| > 1 {
        SplitStarts(s[1..], Next(s[0], d));
      }
      assert Run(s) ==> Next(s[0], d) == d;
      hide FoldChar, Front, FoldAll;
    }
  }

  lemma FrontFold(c: char, r: seq<string>, up: bool)
    requires r != []
    ensures FoldAll(Front(c, r), up) ==
            if Meets(c, r[0]) then FoldAll(r, up) else Front(FoldChar(c, up), FoldAll(r, up))
    ensures FoldAll([""] + r, up) == [""] + FoldAll(r, up)
  {
    FoldCons(c, r[0], up);
  }

  // -------------------------------------------------------------------- blanks

  predicate Blank(s: string) {
    forall i :: 0 <= i < |s| ==> IsSpace(s[i])
  }

  lemma {:induction false} TrimStartFold(s: string, up: bool)
    ensures TrimStart(Fold(s, up)) == Fold(TrimStart(s), up)
    decreases |s|
  {
    if s != "" {
      FoldCharKeeps(s[0], up);
      FoldStart(s, up);
      if IsSpace(s[0]) {
        TrimStartFold(s[1..], up);
      }
    }
  }

  /** Trimming the end cuts off blanks only, and all of them. */
  lemma {:induction false} TrimEndParts(s: string) returns (y: string)
    ensures s == TrimEnd(s) + y && Blank(y)
    ensures TrimEnd(s) == "" || !IsSpace(TrimEnd(s)[|TrimEnd(s)| - 1])
    decreases |s|
  {
    hide IsSpace;
    if s != "" && IsSpace(s[|s| - 1]) {
      var k := |s| - 1;
      y := TrimEndParts(s[..k]);
      Assoc(TrimEnd(s), y, [s[k]]);
      assert s == s[..k] + [s[k]];
      y := y + [s[k]];
    } else {
      y := "";
    }
  }

  lemma {:induction false} TrimEndConcat(t: string, y: string)
    requires Blank(y) && (t == "" || !IsSpace(t[|t| - 1]))
    ensures TrimEnd(t + y) == t
    decreases |y|
  {
    if y == "" {
      assert t + y == t;
    } else {
      assert (t + y)[..|t + y| - 1] == t + y[..|y| - 1];
      TrimEndConcat(t, y[..|y| - 1]);
    }
  }

  lemma {:induction false} FoldBlank(y: string, up: bool)
    requires Blank(y)
    ensures Fold(y, up) == if y == "" then "" else " "
    decreases |y|
  {
    if |y| > 1 {
      FoldBlank(y[1..], up);
    }
  }

  lemma {:induction false} FoldEnd(s: string, up: bool)
    requires s != ""
    ensures Fold(s, up) != "" && Fold(s, up)[|Fold(s, up)| - 1] == FoldChar(s[|s| - 1], up)
    decreases |s|
  {
    if |s| > 1 {
      FoldEnd(s[1..], up);
    }
  }

  lemma BlankSpace()
    ensures Blank("") && Blank(" ")
  {
  }

  lemma TrimEndFold(s: string, up: bool)
    ensures TrimEnd(Fold(s, up)) == Fold(TrimEnd(s), up)
  {
    var t := TrimEnd(s);
    var y := TrimEndParts(s);
    FoldConcat(t, y, up);
    FoldBlank(y, up);
    if t != "" {
      FoldEnd(t, up);
      FoldCharKeeps(t[|t| - 1], up);
    }
    BlankSpace();
    hide *;
    TrimEndConcat(Fold(t, up), Fold(y, up));
  }

  lemma TrimFold(s: string, up: bool)
    ensures Trim(Fold(s, up)) == Fold(Trim(s), up)
    ensures Trim(Fold(s, up)) == "" <==> Trim(s) == ""
  {
    TrimStartFold(s, up);
    TrimEndFold(TrimStart(s), up);
    if Trim(s) != "" {
      FoldStart(Trim(s), up);
    }
  }

  // --------------------------------------------------------------------- words

  function CaseAll(ws: seq<string>, up: bool): (r: seq<string>)
    ensures |r| == |ws| && forall i :: 0 <= i < |ws| ==> r[i] == Case(ws[i], up)
  {
    seq(|ws|, i requires 0 <= i < |ws| => Case(ws[i], up))
  }

  lemma CaseSolid(w: string, up: bool)
    requires Solid(w)
    ensures Solid(Case(w, up))
  {
  }

  /** A word and what follows it. */
  lemma FoldWord(w: string, rest: string, up: bool)
    requires (forall i :: 0 <= i < |w| ==> !IsSpace(w[i])) && (rest == "" || IsSpace(rest[0]))
    ensures Fold(w + rest, up) == Case(w, up) + Fold(rest, up)
    ensures Fold(rest, up) == "" <==> rest == ""
    ensures rest != "" ==> IsSpace(Fold(rest, up)[0])
  {
    FoldConcat(w, rest, up);
    FoldSolid(w, up);
    if rest != "" {
      FoldStart(rest, up);
      FoldCharKeeps(rest[0], up);
    }
  }

  lemma WordsPastBlank(s: string, up: bool)
    requires s != "" && IsSpace(s[0])
    ensures Words(s) == Words(s[1..]) && Words(Fold(s, up)) == Words(Fold(s[1..], up))
  {
    if !Run(s) {
      assert Fold(s, up)[1..] == Fold(s[1..], up);
    }
  }

  lemma {:induction false} WordsFold(s: string, up: bool)
    ensures Words(Fold(s, up)) == CaseAll(Words(s), up)
    decreases |s|
  {
    if s != "" && IsSpace(s[0]) {
      WordsFold(s[1..], up);
      WordsPastBlank(s, up);
    } else if s != "" {
      var w := FirstWord(s);
      var rest := s[|w|..];
      hide IsSpace;
      assert s == w + rest && Words(s) == [w] + Words(rest) && Solid(w);
      WordsFold(rest, up);
      FoldWord(w, rest, up);
      CaseSolid(w, up);
      hide IsSpace, Fold, Case, Words, FirstWord, CaseAll;
      WordsOfSolid(Case(w, up), Fold(rest, up));
      CaseAllCons(w, Words(rest), up);
    }
  }

  lemma CaseAllCons(w: string, ws: seq<string>, up: bool)
    ensures CaseAll([w] + ws, up) == [Case(w, up)] + CaseAll(ws, up)
  {
  }

  lemma CaseConcat(a: string, b: string, up: bool)
    ensures Case(a + b, up) == Case(a, up) + Case(b, up)
  {
    UpperConcat(a, b);
  }

  lemma {:induction false} JoinCase(ws: seq<string>, up: bool)
    ensures JoinWords(CaseAll(ws, up)) == Case(JoinWords(ws), up)
    decreases |ws|
  {
    if |ws| > 1 {
      assert CaseAll(ws, up)[1..] == CaseAll(ws[1..], up);
      JoinCase(ws[1..], up);
      hide Case;
      CaseConcat(ws[0] + " ", JoinWords(ws[1..]), up);
      CaseConcat(ws[0], " ", up);
      CaseSpace(up);
    }
  }

  lemma CaseSpace(up: bool)
    ensures Case(" ", up) == " "
  {
  }

  /** The form the names and prefixes are looked up in is the same. */
  lemma NormalFold(s: string, up: bool)
    ensures Upper(Squeeze(Fold(s, up))) == Upper(Squeeze(s))
  {
    WordsFold(s, up);
    JoinCase(Words(s), up);
    UpperUpper(Squeeze(s));
  }

  // ------------------------------------------------------------------- lengths

  lemma {:induction false} FoldDigits(x: string, up: bool)
    ensures Numeral(Fold(x, up)) <==> Numeral(x)
    ensures Numeral(x) ==> Fold(x, up) == x
    decreases |x|
  {
    if x != "" {
      FoldDigits(x[1..], up);
      FoldCharKeeps(x[0], up);
      FoldStart(x, up);
      NumeralCons(x[0], x[1..]);
      NumeralCons(FoldChar(x[0], up), Fold(x[1..], up));
      assert x == [x[0]] + x[1..];
      assert Run(x) ==> !IsDigit(x[0]) && !IsDigit(FoldChar(x[0], up));
      hide IsSpace, FoldChar, IsDigit;
    }
  }

  predicate Numeral(x: string) {
    forall i :: 0 <= i < |x| ==> IsDigit(x[i])
  }

  lemma NumeralCons(c: char, x: string)
    ensures Numeral([c] + x) <==> IsDigit(c) && Numeral(x)
  {
    var s := [c] + x;
    assert s[0] == c && s[1..] == x;
    assert forall i :: 0 <= i < |x| ==> x[i] == s[i + 1];
    assert forall i :: 1 <= i < |s| ==> s[i] == x[i - 1];
  }

  lemma SizeFold(x: string, up: bool)
    ensures ParseSize(Fold(x, up)) == ParseSize(x)
  {
    FoldDigits(x, up);
    if x != "" {
      FoldStart(x, up);
    }
  }

  lemma LengthFold(rest: string, up: bool)
    ensures ParseLength(Fold(rest, up)) == ParseLength(rest)
  {
    var r := Trim(rest);
    TrimFold(rest, up);
    hide Trim, Fold, FoldChar, IsSpace, ParseSize;
    if r != "" {
      FoldStart(r, up);
      FoldEnd(r, up);
      FoldCharKeeps(r[0], up);
      FoldCharKeeps(r[|r| - 1], up);
      if |r| >= 2 && r[0] == '(' && r[|r| - 1] == ')' {
        var m := r[1..|r| - 1];
        assert r == "(" + (m + ")");
        FoldParens(m, up);
        Inside(Fold(m, up));
        TrimFold(m, up);
        SizeFold(Trim(m), up);
      }
    }
  }

  lemma Inside(m: string)
    ensures var r := "(" + (m + ")"); |r| >= 2 && r[0] == '(' && r[|r| - 1] == ')' && r[1..|r| - 1] == m
  {
  }

  lemma FoldParens(m: string, up: bool)
    ensures Fold("(" + (m + ")"), up) == "(" + (Fold(m, up) + ")")
  {
    FoldConcat("(", m + ")", up);
    FoldConcat(m, ")", up);
    FoldSolid("(", up);
    FoldSolid(")", up);
  }

  // ---------------------------------------------------------------- the parser

  function Raised(t: DataType, up: bool): DataType {
    if up then UpperNames(t) else t
  }

  function RaisedOption(o: Option<DataType>, up: bool): Option<DataType> {
    if o.None? then None else Some(Raised(o.value, up))
  }

  function RaisedField(f: Field, up: bool): Field {
    Field(Case(f.name, up), Raised(f.ty, up))
  }

  function RaisedFields(fs: seq<Field>, up: bool): (r: seq<Field>)
    ensures |r| == |fs| && forall i :: 0 <= i < |fs| ==> r[i] == RaisedField(fs[i], up)
  {
    seq(|fs|, i requires 0 <= i < |fs| => RaisedField(fs[i], up))
  }

  lemma RaisedStruct(fs: seq<Field>, up: bool)
    ensures Raised(Struct(fs), up) == Struct(RaisedFields(fs, up))
  {
    if up {
      assert UpperNames(Struct(fs)).fields == RaisedFields(fs, up);
    } else {
      assert RaisedFields(fs, up) == fs;
    }
  }

  /** The name of a field and the text of its type. */
  lemma FieldFold(p: string, up: bool)
    requires p != "" && |FirstWord(p)| < |p|
    ensures var n, n' := FirstWord(p), FirstWord(Fold(p, up));
            && n' == Case(n, up) && |n'| < |Fold(p, up)|
            && Trim(Fold(p, up)[|n'| + 1..]) == Fold(Trim(p[|n| + 1..]), up)
  {
    var n := FirstWord(p);
    var rest := p[|n|..];
    assert p == n + rest;
    FoldWord(n, rest, up);
    FirstWordCase(n, rest, up);
    TrimFold(rest, up);
    hide IsSpace, Fold, Trim, FirstWord, Case;
    AfterWord(n, rest);
    AfterWord(Case(n, up), Fold(rest, up));
    TrimPast(rest);
    TrimPast(Fold(rest, up));
  }

  lemma AfterWord(n: string, rest: string)
    requires rest != ""
    ensures (n + rest)[|n| + 1..] == rest[1..]
  {
  }

  lemma FirstWordCase(n: string, rest: string, up: bool)
    requires (forall i :: 0 <= i < |n| ==> !IsSpace(n[i])) && (rest == "" || IsSpace(rest[0]))
    ensures FirstWord(Fold(n + rest, up)) == Case(n, up)
  {
    FoldWord(n, rest, up);
    assert forall i :: 0 <= i < |n| ==> !IsSpace(Case(n, up)[i]);
    hide IsSpace, Case, Fold;
    FirstWordOf(Case(n, up), Fold(rest, up));
  }

  lemma TrimPast(s: string)
    requires s != "" && IsSpace(s[0])
    ensures Trim(s[1..]) == Trim(s)
  {
  }

  function RaisedFieldOption(o: Option<Field>, up: bool): Option<Field> {
    if o.None? then None else Some(RaisedField(o.value, up))
  }

  /** A trimmed part read as a field. */
  function FieldFrom(p: string, depth: nat): Option<Field> {
    if FirstWord(p) == p || FirstWord(p) == "" || TypePart(p) == "" then None
    else
      match Parse(TypePart(p), depth + 1)
      case None => None
      case Some(t) => Some(Field(FirstWord(p), t))
  }

  lemma FieldIs(part: string, depth: nat, bound: nat)
    requires |part| < bound
    ensures ParseField(part, depth, bound) == FieldFrom(Trim(part), depth)
  {
    hide Trim, Parse, FirstWord;
  }

  /** The name and the type text of a folded part are those of the part, folded. */
  lemma FieldTextFolds(p: string, up: bool)
    ensures FirstWord(Fold(p, up)) == Fold(p, up) <==> FirstWord(p) == p
    ensures FirstWord(Fold(p, up)) == Case(FirstWord(p), up)
    ensures FirstWord(p) != p ==> TypePart(Fold(p, up)) == Fold(TypePart(p), up)
    ensures FirstWord(p) != p ==> (TypePart(Fold(p, up)) == "" <==> TypePart(p) == "")
  {
    FoldEmpty(up);
    if FirstWord(p) == p {
      assert p == p + "";
      FoldSolid(p, up);
      FirstWordCase(p, "", up);
    } else {
      FieldFold(p, up);
      if TypePart(p) != "" {
        FoldStart(TypePart(p), up);
      }
    }
  }

  lemma {:induction false} FieldFromFolds(p: string, depth: nat, up: bool)
    ensures FieldFrom(Fold(p, up), depth) == RaisedFieldOption(FieldFrom(p, depth), up)
    decreases |p|, 4, 0
  {
    FieldTextFolds(p, up);
    hide Parse, FirstWord, Fold, Case, TypePart;
    if FirstWord(p) != p && TypePart(p) != "" {
      TypePartShrinks(p);
      ParseFolds(TypePart(p), depth + 1, up);
    }
  }

  lemma TypePartShrinks(p: string)
    requires FirstWord(p) != p
    ensures |TypePart(p)| < |p|
  {
    TrimShrinks(p[|FirstWord(p)| + 1..]);
  }

  lemma FoldEmpty(up: bool)
    ensures Fold("", up) == "" && Case("", up) == ""
  {
  }

  function RaisedFieldsOption(o: Option<seq<Field>>, up: bool): Option<seq<Field>> {
    if o.None? then None else Some(RaisedFields(o.value, up))
  }

  lemma RaisedCons(f: Field, fs: seq<Field>, up: bool)
    ensures RaisedFields([f] + fs, up) == [RaisedField(f, up)] + RaisedFields(fs, up)
  {
  }

  lemma {:induction false} ParseFieldsFolds(parts: seq<string>, depth: nat, bound: nat, less: nat, up: bool)
    requires forall i :: 0 <= i < |parts| ==> |parts[i]| < bound && |FoldAll(parts, up)[i]| < less
    ensures ParseFields(FoldAll(parts, up), depth, less) == RaisedFieldsOption(ParseFields(parts, depth, bound), up)
    decreases bound, 0, |parts|
  {
    if parts != [] {
      var p := parts[0];
      assert FoldAll(parts, up)[0] == Fold(p, up);
      assert FoldAll(parts, up)[1..] == FoldAll(parts[1..], up);
      ParseFieldsFolds(parts[1..], depth, bound, less, up);
      FieldIs(p, depth, bound);
      FieldIs(Fold(p, up), depth, less);
      TrimFold(p, up);
      TrimShrinks(p);
      hide Trim, Fold, FieldFrom, ParseField, RaisedField, RaisedFields, FoldAll;
      FieldFromFolds(Trim(p), depth, up);
      var f, fs := ParseField(p, depth, bound), ParseFields(parts[1..], depth, bound);
      if f.Some? && fs.Some? {
        RaisedCons(f.value, fs.value, up);
      }
    }
  }

  lemma {:induction false} ElementFolds(s: string, depth: nat, up: bool)
    ensures ParseElement(Fold(s, up), depth) == RaisedOption(ParseElement(s, depth), up)
    decreases |s|, 1, 0
  {
    TakeFold(s, up);
    hide Parse, TakeAngle, Trim, Fold, Raised;
    if TakeAngle(s).Some? {
      var cut := TakeAngle(s).value;
      TrimFold(cut.rest, up);
      TrimFold(cut.content, up);
      ParseFolds(cut.content, depth + 1, up);
    }
  }

  lemma {:induction false} ArrayFolds(s: string, depth: nat, up: bool)
    ensures ParseArray(Fold(s, up), depth) == RaisedOption(ParseArray(s, depth), up)
    decreases |s|, 1, 0
  {
    TakeFold(s, up);
    hide Parse, TakeAngle, ParseLength, Fold;
    if TakeAngle(s).Some? {
      var cut := TakeAngle(s).value;
      LengthFold(cut.rest, up);
      ParseFolds(cut.content, depth + 1, up);
    }
  }

  lemma {:induction false} StructFolds(s: string, depth: nat, up: bool)
    ensures ParseStruct(Fold(s, up), depth) == RaisedOption(ParseStruct(s, depth), up)
    decreases |s|, 1, 0
  {
    TakeFold(s, up);
    hide Parse, TakeAngle, Trim, Fold, Split, ParseFields, RaisedFields, Raised;
    if TakeAngle(s).Some? {
      var cut := TakeAngle(s).value;
      TrimFold(cut.rest, up);
      SplitFold(cut.content, 0, up);
      ParseFieldsFolds(Split(cut.content, 0), depth, |s|, |Fold(s, up)|, up);
      var fs := ParseFields(Split(cut.content, 0), depth, |s|);
      if fs.Some? {
        RaisedStruct(fs.value, up);
      }
    }
  }

  lemma {:induction false} MembersBound(parts: seq<string>, depth: nat, bound: nat, less: nat)
    requires forall i :: 0 <= i < |parts| ==> |parts[i]| < bound && |parts[i]| < less
    ensures ParseMembers(parts, depth, less) == ParseMembers(parts, depth, bound)
    decreases |parts|
  {
    hide Parse, Trim;
    if parts != [] {
      MembersBound(parts[1..], depth, bound, less);
    }
  }

  lemma UnionBound(rest: string, depth: nat, bound: nat, less: nat)
    requires |rest| < bound && |rest| < less
    ensures ParseUnion(rest, depth, less) == ParseUnion(rest, depth, bound)
  {
    hide ParseMembers, Split;
    if Inner(rest).Some? {
      MembersBound(Split(Inner(rest).value, 0), depth, bound, less);
    }
  }

  lemma {:induction false} ParameterizedFolds(s: string, u: string, depth: nat, up: bool)
    requires |u| <= |Fold(s, up)| && u == Upper(Squeeze(s)) && depth < MAX_DEPTH && Named(u).None? && u != "VID"
    ensures ParseParameterized(Fold(s, up), u, depth) == RaisedOption(ParseParameterized(s, u, depth), up)
    decreases |s|, 2, 0
  {
    hide Fold, Squeeze, Upper, Named, StartsWith;
    hide ParseElement, ParseStruct, ParseArray, ParseDecimal, ParseUnion, ParseSized;
    if StartsWith(u, "LIST<") || StartsWith(u, "MAP<") || StartsWith(u, "SET<") {
      ElementFolds(s, depth, up);
    } else if StartsWith(u, "STRUCT<") {
      StructFolds(s, depth, up);
    } else if StartsWith(u, "ARRAY<") {
      ArrayFolds(s, depth, up);
    } else if StartsWith(u, "DECIMAL(") {
      DecimalRaised(AfterPrefix(u, "DECIMAL("), up);
    } else if StartsWith(u, "UNION(") {
      PrefixFits(u, "UNION(");
      UnionBound(AfterPrefix(u, "UNION("), depth, |s|, |Fold(s, up)|);
      UnionIsUnion(AfterPrefix(u, "UNION("), depth, |s|);
      if ParseParameterized(s, u, depth).Some? {
        UnionRaised(s, u, depth, up);
      }
    } else {
      SizedRaised(u, up);
    }
  }

  lemma DecimalRaised(rest: string, up: bool)
    ensures RaisedOption(ParseDecimal(rest), up) == ParseDecimal(rest)
  {
  }

  lemma SizedRaised(u: string, up: bool)
    ensures RaisedOption(ParseSized(u), up) == ParseSized(u)
  {
  }

  /** A UNION is read from capitals, so its names are in capitals already. */
  lemma UnionRaised(s: string, u: string, depth: nat, up: bool)
    requires |u| <= |s| && u == Upper(Squeeze(s)) && depth < MAX_DEPTH && Named(u).None? && u != "VID"
    requires ParseParameterized(s, u, depth).Some? && ParseParameterized(s, u, depth).value.Union?
    ensures RaisedOption(ParseParameterized(s, u, depth), up) == ParseParameterized(s, u, depth)
  {
    assert Parse(s, depth) == ParseParameterized(s, u, depth);
    hide Parse, ParseParameterized, Named, Upper, Squeeze;
    ParsedIsSound(s, depth);
  }

  lemma {:induction false} ParseFolds(s: string, depth: nat, up: bool)
    ensures Parse(Fold(s, up), depth) == RaisedOption(Parse(s, depth), up)
    decreases |s|, 3, 0
  {
    var u := Upper(Squeeze(s));
    NormalFold(s, up);
    SqueezeShrinks(Fold(s, up));
    SqueezeShrinks(s);
    hide Fold, Squeeze, Upper, Named, ParseParameterized;
    if depth < MAX_DEPTH {
      if Named(u).Some? {
        NamedIsLeaf(u);
      } else if u != "VID" {
        ParameterizedFolds(s, u, depth, up);
      }
    }
  }

  // ------------------------------------------------------------------- spacing

  lemma {:induction false} FoldAfter(a: string, p: string, q: string, up: bool)
    requires p != "" && q != "" && (IsSpace(p[0]) <==> IsSpace(q[0])) && Fold(p, up) == Fold(q, up)
    ensures Fold(a + p, up) == Fold(a + q, up)
    decreases |a|
  {
    if a == "" {
      assert a + p == p && a + q == q;
    } else {
      var x := a[1..];
      FoldAfter(x, p, q, up);
      assert a + p == [a[0]] + (x + p) && a + q == [a[0]] + (x + q);
      FoldCons(a[0], x + p, up);
      FoldCons(a[0], x + q, up);
      hide IsSpace, FoldChar;
      assert x != "" ==> (x + p)[0] == x[0] == (x + q)[0];
    }
  }

  lemma {:induction false} FoldGap(x: string, b: string, up: bool)
    requires Blank(x) && x != ""
    ensures Fold(x + b, up) == Fold(" " + b, up)
    decreases |x|
  {
    FoldCons(x[0], x[1..] + b, up);
    FoldCons(' ', b, up);
    assert x + b == [x[0]] + (x[1..] + b);
    if |x| == 1 {
      assert x[1..] + b == b;
    } else {
      FoldGap(x[1..], b, up);
    }
  }

  lemma RaisedNothing(o: Option<DataType>)
    ensures RaisedOption(o, false) == o
  {
  }

  /** Anywhere in a text, any run of blanks can stand for any other. */
  lemma SpacingIgnored(a: string, x: string, y: string, b: string, depth: nat)
    requires Blank(x) && x != "" && Blank(y) && y != ""
    ensures Parse(a + (x + b), depth) == Parse(a + (y + b), depth)
  {
    FoldGap(x, b, false);
    FoldGap(y, b, false);
    assert IsSpace((x + b)[0]) && IsSpace((y + b)[0]);
    FoldAfter(a, x + b, y + b, false);
    hide *;
    ParseFolds(a + (x + b), depth, false);
    ParseFolds(a + (y + b), depth, false);
    RaisedNothing(Parse(a + (x + b), depth));
    RaisedNothing(Parse(a + (y + b), depth));
  }

  lemma {:induction false} FieldsBound(parts: seq<string>, depth: nat, bound: nat, less: nat)
    requires forall i :: 0 <= i < |parts| ==> |parts[i]| < bound && |parts[i]| < less
    ensures ParseFields(parts, depth, less) == ParseFields(parts, depth, bound)
    decreases |parts|
  {
    if parts != [] {
      FieldIs(parts[0], depth, bound);
      FieldIs(parts[0], depth, less);
      hide ParseField, FieldFrom, Trim;
      FieldsBound(parts[1..], depth, bound, less);
    }
  }

  /** Two results of cutting at brackets that the parser treats alike. */
  predicate SameCut(r: Option<Cut>, q: Option<Cut>) {
    if r.None? || q.None? then r.None? && q.None?
    else r.value.content == q.value.content && Trim(r.value.rest) == Trim(q.value.rest)
  }

  lemma StructSameCut(s: string, t: string, depth: nat)
    requires SameCut(TakeAngle(s), TakeAngle(t))
    ensures ParseStruct(s, depth) == ParseStruct(t, depth)
  {
    hide TakeAngle, Trim, Split, ParseFields;
    if TakeAngle(s).Some? {
      FieldsBound(Split(TakeAngle(s).value.content, 0), depth, |s|, |t|);
    }
  }

  lemma SameCutParses(s: string, t: string, depth: nat)
    requires SameCut(TakeAngle(s), TakeAngle(t))
    ensures ParseElement(s, depth) == ParseElement(t, depth) && ParseArray(s, depth) == ParseArray(t, depth)
  {
    hide TakeAngle, Trim, Parse, ParseSize;
  }

  lemma ParameterizedSameCut(s: string, t: string, u: string, depth: nat)
    requires |u| <= |s| && |u| <= |t| && SameCut(TakeAngle(s), TakeAngle(t))
    ensures ParseParameterized(s, u, depth) == ParseParameterized(t, u, depth)
  {
    SameCutParses(s, t, depth);
    StructSameCut(s, t, depth);
    hide TakeAngle, SameCut, StartsWith;
    hide ParseElement, ParseStruct, ParseArray, ParseDecimal, ParseUnion, ParseSized;
    if StartsWith(u, "UNION(") {
      PrefixFits(u, "UNION(");
      UnionBound(AfterPrefix(u, "UNION("), depth, |s|, |t|);
    }
  }

  /** Cuts aside, the parser reads the squeezed text. */
  lemma NormalParses(s: string, t: string, depth: nat)
    requires Squeeze(s) == Squeeze(t) && SameCut(TakeAngle(s), TakeAngle(t))
    ensures Parse(s, depth) == Parse(t, depth)
  {
    SqueezeShrinks(s);
    SqueezeShrinks(t);
    ParameterizedSameCut(s, t, Upper(Squeeze(s)), depth);
    hide Squeeze, Upper, Named, ParseParameterized;
  }

  lemma PadStart(c: char, s: string, depth: nat)
    requires IsSpace(c)
    ensures Parse([c] + s, depth) == Parse(s, depth)
  {
    var t := [c] + s;
    assert t[1..] == s;
    WordsSkip(t);
    assert TakeAngle(t) == TakeAngle(s);
    hide IsSpace, Words, TakeAngle, Parse;
    NormalParses(t, s, depth);
  }

  lemma {:induction false} CloseEnd(s: string, d: nat, c: char)
    requires c != '>'
    ensures CloseAngle(s + [c], d) ==
            match CloseAngle(s, d) case None => None case Some(cut) => Some(Cut(cut.content, cut.rest + [c]))
    decreases |s|
  {
    var t := s + [c];
    if s == "" {
      assert t[1..] == "";
    } else {
      assert t[1..] == s[1..] + [c];
      CloseEnd(s[1..], Next(s[0], d), c);
    }
  }

  lemma {:induction false} TakeEnd(s: string, c: char)
    requires c != '>' && c != '<'
    ensures TakeAngle(s + [c]) ==
            match TakeAngle(s) case None => None case Some(cut) => Some(Cut(cut.content, cut.rest + [c]))
    decreases |s|
  {
    var t := s + [c];
    if s == "" {
      assert t[1..] == "";
    } else {
      assert t[1..] == s[1..] + [c];
      if s[0] == '<' {
        CloseEnd(s[1..], 0, c);
      } else {
        TakeEnd(s[1..], c);
      }
    }
  }

  lemma {:induction false} TrimPadded(s: string, c: char)
    requires IsSpace(c)
    ensures Trim(s + [c]) == Trim(s)
    decreases |s|
  {
    var t := s + [c];
    if s == "" {
      assert t == [c] && t[1..] == "";
    } else if IsSpace(s[0]) {
      assert t[1..] == s[1..] + [c];
      TrimPadded(s[1..], c);
      TrimPast(t);
      TrimPast(s);
    } else {
      assert t[..|t| - 1] == s;
    }
  }

  lemma {:induction false} WordsPadded(s: string, c: char)
    requires IsSpace(c)
    ensures Words(s + [c]) == Words(s)
    decreases |s|
  {
    var t := s + [c];
    if s == "" {
      assert t == [c] && t[1..] == "";
    } else if IsSpace(s[0]) {
      assert t[1..] == s[1..] + [c];
      WordsPadded(s[1..], c);
    } else {
      var w := FirstWord(s);
      var rest := s[|w|..];
      assert s == w + rest && t == w + (rest + [c]);
      assert Solid(w) && (rest + [c])[0] == (if rest == "" then c else rest[0]);
      hide IsSpace, Words, FirstWord;
      WordsPadded(rest, c);
      WordsOfSolid(w, rest);
      WordsOfSolid(w, rest + [c]);
    }
  }

  lemma PadEnd(s: string, c: char, depth: nat)
    requires IsSpace(c)
    ensures Parse(s + [c], depth) == Parse(s, depth)
  {
    WordsPadded(s, c);
    TakeEnd(s, c);
    if TakeAngle(s).Some? {
      TrimPadded(TakeAngle(s).value.rest, c);
    }
    hide IsSpace, Words, TakeAngle, Parse, Trim;
    NormalParses(s + [c], s, depth);
  }

  /** Blanks before and after a text do not matter. */
  lemma {:induction false} PaddingIgnored(x: string, s: string, y: string, depth: nat)
    requires Blank(x) && Blank(y)
    ensures Parse(x + (s + y), depth) == Parse(s, depth)
    decreases |x|, |y|
  {
    hide IsSpace, Parse;
    if x != "" {
      assert x + (s + y) == [x[0]] + (x[1..] + (s + y));
      PadStart(x[0], x[1..] + (s + y), depth);
      PaddingIgnored(x[1..], s, y, depth);
    } else if y != "" {
      var k := |y| - 1;
      assert x + (s + y) == (x + (s + y[..k])) + [y[k]];
      PadEnd(x + (s + y[..k]), y[k], depth);
      PaddingIgnored(x, s, y[..k], depth);
    } else {
      assert x + (s + y) == s;
    }
  }

  // ---------------------------------------------------------------- letter case

  /** The same letter, small or capital. */
  predicate SameLetter(c: char, d: char) {
    || c == d
    || ('a' <= c <= 'z' && d as int == c as int - 32)
    || ('a' <= d <= 'z' && c as int == d as int - 32)
  }

  predicate SameLetters(s: string, t: string) {
    |s| == |t| && forall i :: 0 <= i < |s| ==> SameLetter(s[i], t[i])
  }

  lemma LetterFolds(c: char, d: char)
    requires SameLetter(c, d)
    ensures FoldChar(c, true) == FoldChar(d, true) && (IsSpace(c) <==> IsSpace(d))
  {
  }

  lemma {:induction false} LettersFold(s: string, t: string)
    requires SameLetters(s, t)
    ensures Fold(s, true) == Fold(t, true)
    decreases |s|
  {
    if s != "" {
      LetterFolds(s[0], t[0]);
      if |s| > 1 {
        LetterFolds(s[1], t[1]);
      }
      hide IsSpace, FoldChar, SameLetter;
      LettersFold(s[1..], t[1..]);
    }
  }

  /** Texts that differ in letter case only are both types or both not, and the types
      are the same up to the letter case of field names. */
  lemma CaseIgnored(s: string, t: string, depth: nat)
    requires SameLetters(s, t)
    ensures match (Parse(s, depth), Parse(t, depth))
            case (Some(a), Some(b)) => UpperNames(a) == UpperNames(b)
            case (None, None) => true
            case _ => false
  {
    LettersFold(s, t);
    hide Fold, Parse, SameLetters, UpperNames;
    ParseFolds(s, depth, true);
    ParseFolds(t, depth, true);
  }

  lemma NamesNoField(u: string, t: DataType)
    requires Names(u, t)
    ensures UpperNames(t) == t
  {
  }

  /** Without brackets and parentheses there are no field names, so case is ignored altogether. */
  lemma FlatCaseIgnored(s: string, t: string, depth: nat)
    requires SameLetters(s, t) && Flat(s)
    ensures Parse(s, depth) == Parse(t, depth)
  {
    CaseIgnored(s, t, depth);
    var a, b := Parse(s, depth), Parse(t, depth);
    assert Flat(t);
    if a.Some? {
      FlatTextExact(s, depth, a.value);
      FlatTextExact(t, depth, b.value);
      hide *;
      NamesNoField(Upper(Squeeze(s)), a.value);
      NamesNoField(Upper(Squeeze(t)), b.value);
    }
  }
}
