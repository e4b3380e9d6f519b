/**
 The types the parser can produce at all, from any text. They are exactly the types
 that survive printing and parsing.
 */
module ParsedTypes {
  import opened Options
  import opened Strings
  import opened DataTypes
  import opened TypeText
  import opened TypeDisplay
  import opened TypeParser
  import opened PrintedText
  import opened TypeRoundTrip

  // ------------------------------------------------- the characters that matter

  predicate IsMark(c: char) {
    c == '<' || c == '>' || c == ','
  }

  /** The brackets and commas of a text, which alone decide its depth and its pieces. */
  function Marks(s: string): string {
    if s == "" then "" else if IsMark(s[0]) then [s[0]] + Marks(s[1..]) else Marks(s[1..])
  }

  lemma {:induction false} MarksConcat(a: string, b: string)
    ensures Marks(a + b) == Marks(a) + Marks(b)
    decreases |a|
  {
    if a == "" {
      assert a + b == b;
    } else {
      assert (a + b)[1..] == a[1..] + b && (a + b)[0] == a[0];
      MarksConcat(a[1..], b);
    }
  }

  lemma {:induction false} MarksNone(s: string)
    requires forall i :: 0 <= i < |s| ==> !IsMark(s[i])
    ensures Marks(s) == ""
    decreases |s|
  {
    if s != "" {
      MarksNone(s[1..]);
    }
  }

  lemma {:induction false} MarksDepth(s: string, d: nat)
    ensures Depth(Marks(s), d) == Depth(s, d)
    decreases |s|
  {
    if s != "" {
      MarksDepth(s[1..], Next(s[0], d));
      assert ([s[0]] + Marks(s[1..]))[1..] == Marks(s[1..]);
    }
  }

  lemma {:induction false} MarksSplit(s: string, d: nat)
    ensures |Split(Marks(s), d)| == |Split(s, d)|
    decreases |s|
  {
    if s != "" {
      MarksSplit(s[1..], Next(s[0], d));
      assert ([s[0]] + Marks(s[1..]))[1..] == Marks(s[1..]);
    }
  }

  lemma {:induction false} MarksUpper(s: string)
    ensures Marks(Upper(s)) == Marks(s)
    decreases |s|
  {
    if s != "" {
      assert Upper(s)[1..] == Upper(s[1..]);
      MarksUpper(s[1..]);
    }
  }

  lemma {:induction false} MarksTrimStart(s: string)
    ensures Marks(TrimStart(s)) == Marks(s)
    decreases |s|
  {
    if s != "" && IsSpace(s[0]) {
      MarksTrimStart(s[1..]);
    }
  }

  lemma {:induction false} MarksTrimEnd(s: string)
    ensures Marks(TrimEnd(s)) == Marks(s)
    decreases |s|
  {
    if s != "" && IsSpace(s[|s| - 1]) {
      var k := |s| - 1;
      MarksTrimEnd(s[..k]);
      assert s == s[..k] + [s[k]];
      MarksConcat(s[..k], [s[k]]);
      MarksNone([s[k]]);
    }
  }

  lemma MarksTrim(s: string)
    ensures Marks(Trim(s)) == Marks(s)
  {
    MarksTrimStart(s);
    MarksTrimEnd(TrimStart(s));
  }

  lemma {:induction false} MarksSqueeze(s: string)
    ensures Marks(Squeeze(s)) == Marks(s)
    decreases |s|
  {
    if s != "" && IsSpace(s[0]) {
      MarksSqueeze(s[1..]);
    } else if s != "" {
      var w := FirstWord(s);
      var rest := s[|w|..];
      assert s == w + rest && w != "";
      MarksSqueeze(rest);
      MarksConcat(w, rest);
      assert Words(s) == [w] + Words(rest);
      hide Words, FirstWord;
      JoinMarks(w, Words(rest));
    }
  }

  lemma JoinMarks(w: string, ws: seq<string>)
    ensures Marks(JoinWords([w] + ws)) == Marks(w) + Marks(JoinWords(ws))
  {
    assert ([w] + ws)[1..] == ws;
    if ws != [] {
      MarksConcat(w, " ");
      MarksNone(" ");
      MarksConcat(w + " ", JoinWords(ws));
    }
  }

  /** The normalised text has the brackets and commas of the text itself. */
  lemma MarksNormal(s: string)
    ensures Marks(Upper(Squeeze(s))) == Marks(s)
  {
    MarksSqueeze(s);
    MarksUpper(Squeeze(s));
  }

  lemma SameMarks(a: string, b: string)
    requires Marks(a) == Marks(b)
    ensures Depth(a, 0) == Depth(b, 0) && |Split(a, 0)| == |Split(b, 0)|
  {
    MarksDepth(a, 0);
    MarksDepth(b, 0);
    MarksSplit(a, 0);
    MarksSplit(b, 0);
  }

  lemma NoMarks(s: string)
    requires Marks(s) == ""
    ensures Depth(s, 0) == Some(0) && |Split(s, 0)| == 1
  {
    SameMarks(s, "");
  }

  // ------------------------------------------------------- what was cut out

  lemma {:induction false} CloseParts(s: string, d: nat)
    requires CloseAngle(s, d).Some?
    ensures var cut := CloseAngle(s, d).value;
            s == cut.content + ">" + cut.rest && Depth(cut.content, d) == Some(0)
    decreases |s|
  {
    var cut := CloseAngle(s, d).value;
    if s[0] == '>' && d == 0 {
      assert s == ">" + s[1..] && cut.content == "";
    } else {
      CloseParts(s[1..], Next(s[0], d));
      var inner := CloseAngle(s[1..], Next(s[0], d)).value;
      assert cut.content == [s[0]] + inner.content && cut.rest == inner.rest;
      assert cut.content[1..] == inner.content && cut.content[0] == s[0];
      hide CloseAngle;
      PrependCut(s, inner.content, inner.rest);
    }
  }

  lemma PrependCut(s: string, content: string, rest: string)
    requires s != "" && s[1..] == content + ">" + rest
    ensures s == [s[0]] + content + ">" + rest
  {
    assert s == [s[0]] + s[1..];
  }

  /** The text around the first bracket and the one that closes it. */
  lemma {:induction false} TakeParts(s: string) returns (w: string)
    requires TakeAngle(s).Some?
    ensures var cut := TakeAngle(s).value;
            s == w + ("<" + cut.content + ">" + cut.rest) && '<' !in w && Depth(cut.content, 0) == Some(0)
    decreases |s|
  {
    if s[0] == '<' {
      w := "";
      CloseParts(s[1..], 0);
      assert s == "<" + s[1..];
    } else {
      var v := TakeParts(s[1..]);
      w := [s[0]] + v;
      assert s == [s[0]] + s[1..];
    }
  }

  /** A piece that starts at bracket depth `d`: nothing in it is left to split. */
  ghost predicate PartFrom(s: string, d: nat) {
    Depth(s, d) == Some(0) && |Split(s, d)| == 1
  }

  lemma PartCons(c: char, x: string, d: nat)
    requires d > 0 || (c != ',' && c != '>')
    requires PartFrom(x, Next(c, d))
    ensures PartFrom([c] + x, d)
  {
    assert ([c] + x)[1..] == x;
  }

  ghost predicate AllParts(r: seq<string>, d: nat) {
    r != [] && PartFrom(r[0], d) && forall i :: 1 <= i < |r| ==> PartFrom(r[i], 0)
  }

  lemma PartsComma(q: seq<string>)
    requires AllParts(q, 0)
    ensures AllParts([""] + q, 0)
  {
    assert PartFrom("", 0);
    hide PartFrom;
    var r := [""] + q;
    forall i | 1 <= i < |r| ensures PartFrom(r[i], 0) {
      assert r[i] == q[i - 1];
    }
  }

  lemma PartsFront(c: char, q: seq<string>, d: nat)
    requires d > 0 || (c != ',' && c != '>')
    requires AllParts(q, Next(c, d))
    ensures AllParts(Front(c, q), d)
  {
    hide PartFrom;
    PartCons(c, q[0], d);
  }

  /** Each piece of a balanced text is balanced and cannot be split again. */
  lemma {:induction false} SplitParts(s: string, d: nat)
    requires Depth(s, d) == Some(0)
    ensures AllParts(Split(s, d), d)
    decreases |s|
  {
    if s == "" {
    } else {
      hide AllParts;
      SplitParts(s[1..], Next(s[0], d));
      if s[0] == ',' && d == 0 {
        PartsComma(Split(s[1..], 0));
      } else {
        PartsFront(s[0], Split(s[1..], Next(s[0], d)), d);
      }
    }
  }

  /** A text is balanced when each of its pieces is. */
  lemma {:induction false} PartsJoin(s: string, d: nat)
    requires Depth(Split(s, d)[0], d) == Some(0)
    requires forall i :: 1 <= i < |Split(s, d)| ==> Depth(Split(s, d)[i], 0) == Some(0)
    ensures Depth(s, d) == Some(0)
    decreases |s|
  {
    var r := Split(s, d);
    if s == "" {
    } else if s[0] == ',' && d == 0 {
      var q := Split(s[1..], 0);
      assert forall i :: 0 <= i < |q| ==> q[i] == r[i + 1];
      PartsJoin(s[1..], 0);
    } else {
      var e := Next(s[0], d);
      var q := Split(s[1..], e);
      assert r[0] == [s[0]] + q[0] && r[0][1..] == q[0] && r[0][0] == s[0];
      PartsJoin(s[1..], e);
    }
  }

  lemma {:induction false} SplitAllJoin(s: string)
    requires |SplitAll(s)| <= 2
    ensures s == if |SplitAll(s)| == 1 then SplitAll(s)[0] else SplitAll(s)[0] + "," + SplitAll(s)[1]
    decreases |s|
  {
    if s != "" {
      var r, rest := SplitAll(s), SplitAll(s[1..]);
      SplitAllJoin(s[1..]);
      if s[0] == ',' {
        assert r == [""] + rest;
        hide SplitAll;
        assert rest == [s[1..]] && r == ["", s[1..]];
        assert s == "" + "," + s[1..];
      } else {
        assert r == [[s[0]] + rest[0]] + rest[1..];
        hide SplitAll;
        PrependFirst(s, rest);
      }
    }
  }

  lemma PrependFirst(s: string, rest: seq<string>)
    requires s != "" && 1 <= |rest| <= 2
    requires s[1..] == if |rest| == 1 then rest[0] else rest[0] + "," + rest[1]
    ensures s == if |rest| == 1 then [s[0]] + rest[0] else [s[0]] + rest[0] + "," + rest[1]
  {
    assert s == [s[0]] + s[1..];
    if |rest| == 2 {
      Enclose([s[0]], rest[0], ",", rest[1]);
    }
  }

  lemma DigitsNoMarks(s: string)
    requires AllDigits(s)
    ensures Marks(s) == ""
  {
    assert forall i :: 0 <= i < |s| ==> IsDigit(s[i]) && !IsMark(s[i]);
    MarksNone(s);
  }

  // ------------------------------------------------------------ the invariant

  /** What the type and the text it was parsed from have in common. */
  ghost predicate Sound(s: string, depth: nat, t: DataType) {
    && GoodNames(t) && Parses(t, depth) && Seen(t) == t
    && Depth(s, 0) == Some(0)
    && (|Split(s, 0)| == 1 ==> !TopComma(t))
    && (Upper(s) == s ==> UpperNames(t) == t)
  }

  /** A type without members, read from a text without brackets and commas. */
  lemma LeafSound(s: string, depth: nat, t: DataType)
    requires Marks(s) == "" && depth < MAX_DEPTH
    requires
      || t.Scalar? || t.FixedString? || t.VectorDense? || t.VectorSparse?
      || (HasElement(t) && !t.Array? && t.element == EmptyType)
    ensures Sound(s, depth, t)
  {
    NoMarks(s);
    hide Split, Depth, Upper;
  }

  lemma NamedSound(s: string, depth: nat)
    requires Named(Upper(Squeeze(s))).Some? && depth < MAX_DEPTH
    ensures Sound(s, depth, Named(Upper(Squeeze(s))).value)
  {
    var u := Upper(Squeeze(s));
    NamedIsLeaf(u);
    hide Named, Squeeze, Upper, Sound;
    NamedHasNoBracket(u);
    assert forall i :: 0 <= i < |u| ==> Punctuation(u[i]) || !IsMark(u[i]);
    MarksNone(u);
    MarksNormal(s);
    LeafSound(s, depth, Named(u).value);
  }

  lemma NamedIsLeaf(u: string)
    requires Named(u).Some?
    ensures var t := Named(u).value;
            t.Scalar? || (HasElement(t) && !t.Array? && t.element == EmptyType)
  {
  }

  lemma SizedSound(s: string, u: string, depth: nat)
    requires Marks(s) == Marks(u) && depth < MAX_DEPTH && ParseSized(u).Some?
    ensures Sound(s, depth, ParseSized(u).value)
  {
    hide Sound, ParseSize, Trim, StartsWith;
    SizedMarks(u);
    var t := ParseSized(u).value;
    assert t.FixedString? || t.VectorDense? || t.VectorSparse?;
    LeafSound(s, depth, t);
  }

  /** The text around a size parameter has no brackets and commas. */
  lemma SizeMarks(u: string, p: string)
    requires StartsWith(u, p) && ParseSizeParam(AfterPrefix(u, p)).Some? && Marks(p) == ""
    ensures Marks(u) == ""
  {
    var rest := AfterPrefix(u, p);
    var inner := Inner(rest).value;
    assert u == p + rest && rest == inner + ")";
    MarksTrim(inner);
    DigitsNoMarks(Trim(inner));
    MarksNone(")");
    hide Marks;
    MarksConcat(p, rest);
    MarksConcat(inner, ")");
  }

  lemma PrefixMarks()
    ensures Marks("FIXEDSTRING(") == "" && Marks("FIXED_STRING(") == ""
    ensures Marks("VECTOR_DENSE(") == "" && Marks("VECTOR_SPARSE(") == "" && Marks("VECTOR(") == ""
  {
    hide Marks;
    MarksNone("FIXEDSTRING(");
    MarksNone("FIXED_STRING(");
    MarksNone("VECTOR_DENSE(");
    MarksNone("VECTOR_SPARSE(");
    MarksNone("VECTOR(");
  }

  lemma SizedMarks(u: string)
    requires ParseSized(u).Some?
    ensures Marks(u) == ""
  {
    hide Marks, ParseSizeParam, StartsWith, AfterPrefix;
    PrefixMarks();
    if StartsWith(u, "FIXEDSTRING(") {
      SizeMarks(u, "FIXEDSTRING(");
    } else if StartsWith(u, "FIXED_STRING(") {
      SizeMarks(u, "FIXED_STRING(");
    } else if StartsWith(u, "VECTOR_DENSE(") {
      SizeMarks(u, "VECTOR_DENSE(");
    } else if StartsWith(u, "VECTOR_SPARSE(") {
      SizeMarks(u, "VECTOR_SPARSE(");
    } else {
      SizeMarks(u, "VECTOR(");
    }
  }

  lemma DecimalSound(s: string, u: string, depth: nat)
    requires Marks(s) == Marks(u) && depth < MAX_DEPTH
    requires StartsWith(u, "DECIMAL(") && ParseDecimal(AfterPrefix(u, "DECIMAL(")).Some?
    ensures Sound(s, depth, ParseDecimal(AfterPrefix(u, "DECIMAL(")).value)
  {
    hide Split, Depth, Marks, Upper, StartsWith, AfterPrefix;
    MarksNone("DECIMAL(");
    DecimalMarks(u, "DECIMAL(");
    CommaMarks();
    SameMarks(s, ",");
    CommaSplits();
  }

  lemma CommaSplits()
    ensures Depth(",", 0) == Some(0) && |Split(",", 0)| == 2
  {
    assert ","[1..] == "";
  }

  lemma ByteMarks(s: string)
    requires ParseByte(s).Some?
    ensures Marks(s) == ""
  {
    if s != "" && s[0] == '+' {
      DigitsNoMarks(s[1..]);
    } else {
      DigitsNoMarks(s);
    }
  }

  lemma CommaMarks()
    ensures Marks(",") == "," && Marks(")") == ""
  {
    assert Marks(",") == "," + Marks("");
  }

  lemma PairMarks(p: string, a: string, b: string)
    requires Marks(p) == "" && Marks(a) == "" && Marks(b) == ""
    ensures Marks(p + (a + "," + b + ")")) == ","
  {
    hide Marks;
    CommaMarks();
    MarksConcat(a, ",");
    MarksConcat(a + ",", b);
    MarksConcat(a + "," + b, ")");
    MarksConcat(p, a + "," + b + ")");
  }

  lemma PartMarks(part: string)
    requires ParseByte(Trim(part)).Some?
    ensures Marks(part) == ""
  {
    hide Marks, Trim, ParseByte;
    MarksTrim(part);
    ByteMarks(Trim(part));
  }

  lemma DecimalMarks(u: string, p: string)
    requires StartsWith(u, p) && Marks(p) == "" && ParseDecimal(AfterPrefix(u, p)).Some?
    ensures Marks(u) == ","
  {
    var rest := AfterPrefix(u, p);
    assert u == p + rest;
    hide Marks, StartsWith, AfterPrefix, ParseDecimal;
    var a, b := DecimalParts(rest);
    PairMarks(p, a, b);
  }

  lemma DecimalParts(rest: string) returns (a: string, b: string)
    requires ParseDecimal(rest).Some?
    ensures rest == a + "," + b + ")" && Marks(a) == "" && Marks(b) == ""
  {
    hide Marks, SplitAll, ParseByte, Trim;
    var inner := Inner(rest).value;
    var parts := SplitAll(inner);
    SplitAllJoin(inner);
    a, b := parts[0], parts[1];
    PartMarks(a);
    PartMarks(b);
  }

  // ------------------------------------------------------- text inside brackets

  lemma {:induction false} MarksIn(w: string)
    ensures Marks(w) != "" ==> Marks(w)[0] in w
    decreases |w|
  {
    if w != "" {
      MarksIn(w[1..]);
    }
  }

  lemma OpensAngle(u: string, w: string)
    requires StartsWith(u, w + "<") && Marks(w) == ""
    ensures Marks(u) != "" && Marks(u)[0] == '<'
  {
    var rest := u[|w|..];
    assert u == w + rest && rest[0] == '<';
    MarksConcat(w, rest);
  }

  /** A bracketed text with nothing before and after the brackets that matters. */
  lemma AngledDepth(s: string) returns (w: string)
    requires TakeAngle(s).Some? && Marks(s) != "" && Marks(s)[0] == '<' && Marks(TakeAngle(s).value.rest) == ""
    ensures var cut := TakeAngle(s).value; s == w + ("<" + cut.content + ">" + cut.rest)
    ensures Depth(s, 0) == Some(0)
  {
    w := TakeParts(s);
    hide TakeAngle, Marks, Depth, Balanced;
    var cut := TakeAngle(s).value;
    var b := "<" + cut.content + ">";
    MarksConcat(w, b + cut.rest);
    MarksIn(w);
    NoMarks(w);
    NoMarks(cut.rest);
    ClosedIsBalanced(w);
    ClosedIsBalanced(cut.rest);
    ClosedIsBalanced(cut.content);
    BalancedAngles(cut.content);
    BalancedConcat(b, cut.rest);
    BalancedConcat(w, b + cut.rest);
    BalancedCloses(s);
  }

  lemma BalancedCloses(s: string)
    requires Balanced(s)
    ensures Depth(s, 0) == Some(0)
  {
  }

  lemma UpperPiece(a: string, b: string, c: string)
    requires Upper(a + b + c) == a + b + c
    ensures Upper(b) == b
  {
    var s := a + b + c;
    forall i | 0 <= i < |b| ensures UpperChar(b[i]) == b[i] {
      assert s[|a| + i] == b[i];
    }
  }

  lemma {:induction false} UpperTrimStart(s: string)
    requires Upper(s) == s
    ensures Upper(TrimStart(s)) == TrimStart(s)
    decreases |s|
  {
    if s != "" && IsSpace(s[0]) {
      assert s == [s[0]] + s[1..] + "";
      UpperPiece([s[0]], s[1..], "");
      UpperTrimStart(s[1..]);
    }
  }

  lemma {:induction false} UpperTrimEnd(s: string)
    requires Upper(s) == s
    ensures Upper(TrimEnd(s)) == TrimEnd(s)
    decreases |s|
  {
    if s != "" && IsSpace(s[|s| - 1]) {
      var k := |s| - 1;
      assert s == "" + s[..k] + [s[k]];
      UpperPiece("", s[..k], [s[k]]);
      UpperTrimEnd(s[..k]);
    }
  }

  lemma UpperTrim(s: string)
    requires Upper(s) == s
    ensures Upper(Trim(s)) == Trim(s)
  {
    UpperTrimStart(s);
    UpperTrimEnd(TrimStart(s));
  }

  lemma UpperContent(s: string, w: string)
    requires TakeAngle(s).Some?
    requires var cut := TakeAngle(s).value; s == w + ("<" + cut.content + ">" + cut.rest)
    requires Upper(s) == s
    ensures Upper(TakeAngle(s).value.content) == TakeAngle(s).value.content
  {
    hide TakeAngle, Upper;
    var cut := TakeAngle(s).value;
    assert s == (w + "<") + cut.content + (">" + cut.rest);
    UpperPiece(w + "<", cut.content, ">" + cut.rest);
  }

  /** A container or array around an element parsed from the bracketed text. */
  lemma ElementSound(s: string, depth: nat, t: DataType)
    requires HasElement(t) && depth < MAX_DEPTH
    requires TakeAngle(s).Some? && Marks(s) != "" && Marks(s)[0] == '<' && Marks(TakeAngle(s).value.rest) == ""
    requires Sound(TakeAngle(s).value.content, depth + 1, t.element)
    ensures Sound(s, depth, t)
  {
    var w := AngledDepth(s);
    ElementKeeps(t, depth);
    hide TakeAngle, Marks, Depth, Split, Upper, GoodNames, Parses, Seen, UpperNames;
    if Upper(s) == s {
      UpperContent(s, w);
    }
  }

  lemma ElementKeeps(t: DataType, depth: nat)
    requires HasElement(t) && depth < MAX_DEPTH
    requires GoodNames(t.element) && Parses(t.element, depth + 1) && Seen(t.element) == t.element
    ensures GoodNames(t) && Parses(t, depth) && Seen(t) == t && !TopComma(t)
    ensures UpperNames(t.element) == t.element ==> UpperNames(t) == t
  {
  }

  lemma BlankMarks(s: string)
    requires Trim(s) == ""
    ensures Marks(s) == ""
  {
    MarksTrim(s);
  }

  lemma LengthMarks(rest: string)
    requires ParseLength(rest).Some?
    ensures Marks(rest) == ""
  {
    var r := Trim(rest);
    MarksTrim(rest);
    hide Trim, Marks;
    if r == "" {
      MarksNone(r);
    } else {
      var inner := r[1..|r| - 1];
      assert r == "(" + inner + ")";
      MarksTrim(inner);
      DigitsNoMarks(Trim(inner));
      MarksNone("(");
      MarksNone(")");
      MarksConcat("(", inner);
      MarksConcat("(" + inner, ")");
    }
  }

  // ------------------------------------------------------------------ structs

  ghost predicate FieldSound(f: Field, depth: nat, upper: bool) {
    && GoodName(f.name) && GoodNames(f.ty) && FieldParses(f, depth) && Seen(f.ty) == f.ty
    && (upper ==> Upper(f.name) == f.name && UpperNames(f.ty) == f.ty)
  }

  ghost predicate Part(s: string) {
    PartFrom(s, 0)
  }

  lemma TrimPart(s: string)
    requires Part(s)
    ensures Part(Trim(s))
  {
    MarksTrim(s);
    SameMarks(s, Trim(s));
  }

  /** The name in front of a type is a good name, and the type is a part of its own. */
  lemma NameBefore(name: string, gap: string, ty: string)
    requires Solid(name) && Marks(gap) == "" && Part(name + (gap + ty)) && Depth(ty, 0) == Some(0)
    ensures GoodName(name) && |Split(ty, 0)| == 1
  {
    var q := gap + ty;
    assert Marks(q) == Marks(ty) by {
      MarksConcat(gap, ty);
    }
    hide Split, Depth, Marks, Solid, Balanced;
    SameMarks(q, ty);
    ClosedIsBalanced(q);
    NameDepth(name, q);
    SplitPlus(name, q);
    SplitOne(name, 0);
  }

  lemma NameDepth(name: string, q: string)
    requires Balanced(q) && Depth(name + q, 0) == Some(0)
    ensures Depth(name, 0) == Some(0)
  {
    DepthConcat(name, q, 0);
  }

  lemma SplitPlus(name: string, q: string)
    requires Depth(name, 0) == Some(0)
    ensures |Split(name + q, 0)| == |Split(name, 0)| + |Split(q, 0)| - 1
  {
    hide Split;
    SplitConcat(name, q, 0, 0);
  }

  /** The words of a field part. */
  lemma FieldParts(p: string)
    requires FirstWord(p) != p && FirstWord(p) != ""
    ensures var name := FirstWord(p);
            Solid(name) && |name| < |p| && Marks([p[|name|]]) == "" && p == name + ([p[|name|]] + p[|name| + 1..])
  {
    var name := FirstWord(p);
    MarksNone([p[|name|]]);
    assert p == name + p[|name|..];
  }

  /** The type text of a field part, after the name. */
  function TypePart(p: string): string
    requires FirstWord(p) != p
  {
    Trim(p[|FirstWord(p)| + 1..])
  }

  lemma FieldNameGood(p: string)
    requires Part(p) && FirstWord(p) != "" && FirstWord(p) != p && Depth(TypePart(p), 0) == Some(0)
    ensures GoodName(FirstWord(p)) && |Split(TypePart(p), 0)| == 1
  {
    var name := FirstWord(p);
    FieldParts(p);
    var q := p[|name| + 1..];
    MarksTrim(q);
    hide Trim, Marks, Split, Depth, FirstWord, Solid, GoodName;
    SameMarks(q, TypePart(p));
    NameBefore(name, [p[|name|]], q);
  }

  lemma FieldUpper(p: string)
    requires Upper(p) == p && FirstWord(p) != "" && FirstWord(p) != p
    ensures Upper(FirstWord(p)) == FirstWord(p) && Upper(TypePart(p)) == TypePart(p)
  {
    var name := FirstWord(p);
    FieldParts(p);
    var gap, q := [p[|name|]], p[|name| + 1..];
    hide Trim, FirstWord, Upper, Solid;
    assert p == "" + name + (gap + q) && p == (name + gap) + q + "";
    UpperPiece("", name, gap + q);
    UpperPiece(name + gap, q, "");
    UpperTrim(q);
  }

  lemma FieldIsSound(part: string, depth: nat, bound: nat, upper: bool)
    requires |part| < bound && Part(part) && (upper ==> Upper(part) == part)
    requires ParseField(part, depth, bound).Some?
    ensures FieldSound(ParseField(part, depth, bound).value, depth, upper)
    decreases bound, 0, 0
  {
    var p := Trim(part);
    TrimPart(part);
    TrimShrinks(part);
    hide Trim, Split, Depth, Parse, FirstWord, Upper, GoodNames, GoodName, Parses, Seen, UpperNames, TopComma;
    assert FirstWord(p) != "" && FirstWord(p) != p;
    TrimShrinks(p[|FirstWord(p)| + 1..]);
    ParsedIsSound(TypePart(p), depth + 1);
    FieldNameGood(p);
    if upper {
      UpperTrim(part);
      FieldUpper(p);
    }
  }

  ghost predicate AllUpper(parts: seq<string>) {
    forall i :: 0 <= i < |parts| ==> Upper(parts[i]) == parts[i]
  }

  lemma {:induction false} FieldsAreSound(parts: seq<string>, depth: nat, bound: nat, upper: bool)
    requires forall i :: 0 <= i < |parts| ==> |parts[i]| < bound && Part(parts[i])
    requires upper ==> AllUpper(parts)
    requires ParseFields(parts, depth, bound).Some?
    ensures var fs := ParseFields(parts, depth, bound).value;
            forall i :: 0 <= i < |fs| ==> FieldSound(fs[i], depth, upper)
    decreases bound, 0, |parts|
  {
    hide FieldSound, Part, ParseField, Upper;
    if parts != [] {
      FieldIsSound(parts[0], depth, bound, upper);
      FieldsAreSound(parts[1..], depth, bound, upper);
    }
  }

  lemma StructIsSound(s: string, depth: nat, fs: seq<Field>)
    requires fs != [] && depth < MAX_DEPTH && Depth(s, 0) == Some(0)
    requires forall i :: 0 <= i < |fs| ==> FieldSound(fs[i], depth, Upper(s) == s)
    ensures Sound(s, depth, Struct(fs))
  {
    var t := Struct(fs);
    hide Upper, GoodName, FieldParses;
    assert Seen(t).fields == fs;
    if Upper(s) == s {
      assert UpperNames(t).fields == fs;
    }
  }

  lemma ContentParts(content: string)
    requires Depth(content, 0) == Some(0)
    ensures var parts := Split(content, 0);
            && (forall i :: 0 <= i < |parts| ==> Part(parts[i]))
            && (Upper(content) == content ==> AllUpper(parts))
  {
    SplitParts(content, 0);
    UpperSplit(content, 0);
    hide Split, Depth, Upper, PartFrom;
    if Upper(content) == content {
      var parts := Split(content, 0);
      assert forall i :: 0 <= i < |parts| ==> UpperAll(parts)[i] == Upper(parts[i]);
    }
  }

  lemma StructSound(s: string, depth: nat)
    requires Marks(s) != "" && Marks(s)[0] == '<' && depth < MAX_DEPTH && ParseStruct(s, depth).Some?
    ensures Sound(s, depth, ParseStruct(s, depth).value)
    decreases |s|, 1, 0
  {
    var cut := TakeAngle(s).value;
    BlankMarks(cut.rest);
    var w := AngledDepth(s);
    var v := TakeParts(s);
    hide TakeAngle, Marks, Depth, Split, Upper, ParseFields, Trim, Sound, FieldSound, Part, AllUpper;
    if Upper(s) == s {
      UpperContent(s, w);
    }
    ContentParts(cut.content);
    var parts := Split(cut.content, 0);
    assert forall i :: 0 <= i < |parts| ==> |parts[i]| <= |cut.content| < |s|;
    FieldsAreSound(parts, depth, |s|, Upper(s) == s);
    StructIsSound(s, depth, ParseFields(parts, depth, |s|).value);
  }

  // ------------------------------------------------------------------- unions

  ghost predicate MemberSound(t: DataType, depth: nat) {
    GoodNames(t) && Parses(t, depth + 1) && !TopComma(t) && UpperNames(t) == t
  }

  /** Every piece the members were parsed from is balanced. */
  lemma {:induction false} MembersBalanced(parts: seq<string>, depth: nat, bound: nat)
    requires forall i :: 0 <= i < |parts| ==> |parts[i]| < bound
    requires ParseMembers(parts, depth, bound).Some?
    ensures forall i :: 0 <= i < |parts| ==> Depth(parts[i], 0) == Some(0)
    decreases bound, 0, |parts|
  {
    if parts != [] {
      var p := Trim(parts[0]);
      TrimShrinks(parts[0]);
      MarksTrim(parts[0]);
      SameMarks(parts[0], p);
      if p == "" {
        NoMarks(p);
      } else {
        ParsedIsSound(p, depth + 1);
      }
      hide Trim, Depth, Parse, Marks, Split, GoodNames, Parses, Seen, TopComma, UpperNames;
      MembersBalanced(parts[1..], depth, bound);
      assert forall i :: 1 <= i < |parts| ==> parts[i] == parts[1..][i - 1];
    }
  }

  lemma MemberIsSound(part: string, depth: nat)
    requires Part(part) && Upper(part) == part && Parse(Trim(part), depth + 1).Some?
    ensures MemberSound(Parse(Trim(part), depth + 1).value, depth)
    decreases |part|, 4, 0
  {
    TrimShrinks(part);
    TrimPart(part);
    UpperTrim(part);
    ParsedIsSound(Trim(part), depth + 1);
    hide Trim, Depth, Parse, Split, GoodNames, Parses, Seen, TopComma, UpperNames, Upper;
  }

  lemma {:induction false} MembersSound(parts: seq<string>, depth: nat, bound: nat)
    requires AllUpper(parts) && forall i :: 0 <= i < |parts| ==> |parts[i]| < bound && Part(parts[i])
    requires ParseMembers(parts, depth, bound).Some?
    ensures var ts := ParseMembers(parts, depth, bound).value;
            |ts| <= |parts| && forall i :: 0 <= i < |ts| ==> MemberSound(ts[i], depth)
    decreases bound, 0, |parts|
  {
    hide Trim, Part, Parse, MemberSound, Upper;
    if parts != [] {
      if Trim(parts[0]) != "" {
        MemberIsSound(parts[0], depth);
      }
      MembersSound(parts[1..], depth, bound);
    }
  }

  lemma UnionIsSound(s: string, depth: nat, ts: seq<DataType>)
    requires ts != [] && depth < MAX_DEPTH && Depth(s, 0) == Some(0)
    requires forall i :: 0 <= i < |ts| ==> MemberSound(ts[i], depth)
    requires |ts| <= |Split(s, 0)|
    ensures Sound(s, depth, Union(ts))
  {
    var t := Union(ts);
    hide Upper, Split, Depth;
    assert UpperNames(t).types == ts;
  }

  lemma UnionTextParts(u: string)
    requires StartsWith(u, "UNION(") && Inner(AfterPrefix(u, "UNION(")).Some?
    ensures var inner := Inner(AfterPrefix(u, "UNION(")).value;
            u == "UNION(" + inner + ")" && Marks(u) == Marks(inner) && |inner| < |u|
  {
    var rest := AfterPrefix(u, "UNION(");
    var inner := Inner(rest).value;
    assert u == "UNION(" + rest && rest == inner + ")";
    hide Marks, StartsWith, AfterPrefix;
    Assoc("UNION(", inner, ")");
    MarksNone("UNION(");
    MarksNone(")");
    MarksConcat("UNION(", inner);
    MarksConcat("UNION(" + inner, ")");
  }

  lemma UnionSound(s: string, u: string, depth: nat)
    requires Marks(s) == Marks(u) && |u| <= |s| && Upper(u) == u && depth < MAX_DEPTH && StartsWith(u, "UNION(")
    requires ParseUnion(AfterPrefix(u, "UNION("), depth, |s|).Some?
    ensures Sound(s, depth, ParseUnion(AfterPrefix(u, "UNION("), depth, |s|).value)
    decreases |s|, 1, 0
  {
    UnionTextParts(u);
    var inner := Inner(AfterPrefix(u, "UNION(")).value;
    hide Marks, Depth, Split, Upper, ParseMembers, Trim, Sound, Part, StartsWith, AfterPrefix, Inner;
    UpperPiece("UNION(", inner, ")");
    SameMarks(s, inner);
    var parts := Split(inner, 0);
    MembersBalanced(parts, depth, |s|);
    PartsJoin(inner, 0);
    ContentParts(inner);
    MembersSound(parts, depth, |s|);
    UnionIsSound(s, depth, ParseMembers(parts, depth, |s|).value);
  }

  // ------------------------------------------------------------- every parse

  lemma ContainerSound(s: string, depth: nat, t: DataType)
    requires (t.List? || t.Map? || t.Set?) && ParseElement(s, depth) == Some(t.element)
    requires Marks(s) != "" && Marks(s)[0] == '<' && depth < MAX_DEPTH
    ensures Sound(s, depth, t)
    decreases |s|, 1, 0
  {
    var cut := TakeAngle(s).value;
    BlankMarks(cut.rest);
    ParsedIsSound(cut.content, depth + 1);
    hide Trim, Marks, Parse, TakeAngle, Sound;
    ElementSound(s, depth, t);
  }

  lemma ArraySound(s: string, depth: nat)
    requires ParseArray(s, depth).Some? && Marks(s) != "" && Marks(s)[0] == '<' && depth < MAX_DEPTH
    ensures Sound(s, depth, ParseArray(s, depth).value)
    decreases |s|, 1, 0
  {
    var cut := TakeAngle(s).value;
    LengthMarks(cut.rest);
    ParsedIsSound(cut.content, depth + 1);
    hide Trim, Marks, Parse, TakeAngle, Sound, ParseLength;
    ElementSound(s, depth, ParseArray(s, depth).value);
  }

  lemma OpensWith(u: string, p: string)
    requires StartsWith(u, p) && p in {"LIST<", "MAP<", "SET<", "STRUCT<", "ARRAY<"}
    ensures Marks(u) != "" && Marks(u)[0] == '<'
  {
    var w := p[..|p| - 1];
    assert p == w + "<" && forall i :: 0 <= i < |w| ==> !IsMark(w[i]);
    hide Marks, StartsWith;
    MarksNone(w);
    OpensAngle(u, w);
  }

  lemma BracketedSound(s: string, u: string, depth: nat)
    requires Marks(s) == Marks(u) && |u| <= |s| && Upper(u) == u && depth < MAX_DEPTH
    requires ParseParameterized(s, u, depth).Some?
    ensures Sound(s, depth, ParseParameterized(s, u, depth).value)
    decreases |s|, 2, 0
  {
    var t := ParseParameterized(s, u, depth).value;
    hide Marks, StartsWith, Sound, Upper, AfterPrefix;
    hide ParseElement, ParseStruct, ParseArray, ParseDecimal, ParseUnion, ParseSized;
    if StartsWith(u, "LIST<") {
      OpensWith(u, "LIST<");
      ContainerSound(s, depth, t);
    } else if StartsWith(u, "MAP<") {
      OpensWith(u, "MAP<");
      ContainerSound(s, depth, t);
    } else if StartsWith(u, "SET<") {
      OpensWith(u, "SET<");
      ContainerSound(s, depth, t);
    } else if StartsWith(u, "STRUCT<") {
      OpensWith(u, "STRUCT<");
      StructSound(s, depth);
    } else if StartsWith(u, "ARRAY<") {
      OpensWith(u, "ARRAY<");
      ArraySound(s, depth);
    } else if StartsWith(u, "DECIMAL(") {
      DecimalSound(s, u, depth);
    } else if StartsWith(u, "UNION(") {
      UnionSound(s, u, depth);
    } else {
      SizedSound(s, u, depth);
    }
  }

  /** Whatever text a type is parsed from, it is one that printing and parsing keeps. */
  lemma {:induction false} ParsedIsSound(s: string, depth: nat)
    requires Parse(s, depth).Some?
    ensures Sound(s, depth, Parse(s, depth).value)
    decreases |s|, 3, 0
  {
    var u := Upper(Squeeze(s));
    SqueezeShrinks(s);
    MarksNormal(s);
    UpperUpper(Squeeze(s));
    hide Marks, Sound, Named, ParseParameterized, Squeeze, Upper;
    if Named(u).Some? {
      NamedSound(s, depth);
    } else {
      BracketedSound(s, u, depth);
    }
  }

  ghost predicate Parseable(t: DataType) {
    exists s :: Parse(s, 0) == Some(t)
  }

  /** The parser mirrors the printer on exactly the types it can produce at all; these
      are the ones with good names, members it can take apart, and uppercase names
      inside UNIONs. */
  lemma PrintParseExact(t: DataType)
    ensures Parse(Display(t), 0) == Some(t) <==> Parseable(t)
    ensures Parseable(t) <==> GoodNames(t) && Parses(t, 0) && Seen(t) == t
  {
    if Parseable(t) {
      var s :| Parse(s, 0) == Some(t);
      ParsedIsSound(s, 0);
    }
    hide Parse, Display, GoodNames, Parses, Seen;
    if GoodNames(t) {
      RoundTrip(t);
    }
  }

  /** Printing normalises: a text that parses and the printed form of its type mean the
      same type. */
  lemma ParsePrintParse(s: string, t: DataType)
    requires Parse(s, 0) == Some(t)
    ensures Parse(Display(t), 0) == Parse(s, 0)
  {
    hide Parse, Display;
    PrintParseExact(t);
  }

  /** No STRUCT with a field of type DECIMAL comes back, whatever its names: the comma
      inside the parentheses is taken for a separator. */
  lemma DecimalFieldIsLost(fs: seq<Field>, i: nat)
    requires i < |fs| && fs[i].ty.Decimal?
    ensures Parse(Display(Struct(fs)), 0) != Some(Struct(fs))
  {
    assert !FieldParses(fs[i], 0);
    assert !Parses(Struct(fs), 0);
    hide Parse, Display, Parses;
    PrintParseExact(Struct(fs));
  }

  /** The same for any member that prints a comma outside angle brackets, in a STRUCT or
      a UNION, such as a UNION with two members. */
  lemma CommaMemberIsLost(t: DataType, i: nat)
    requires t.Struct? || t.Union?
    requires i < (if t.Struct? then |t.fields| else |t.types|)
    requires TopComma(if t.Struct? then t.fields[i].ty else t.types[i])
    ensures Parse(Display(t), 0) != Some(t)
  {
    assert t.Struct? ==> !FieldParses(t.fields[i], 0);
    assert !Parses(t, 0);
    hide Parse, Display, Parses;
    PrintParseExact(t);
  }
}
