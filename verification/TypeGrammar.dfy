/**
 The language of types as a grammar, without any of the parser's own tests: which texts
 stand for which type. The parser is proved to accept exactly this language.
 */
module TypeGrammar {
  import opened Integers
  import opened Options
  import opened Strings
  import opened DataTypes
  import opened TypeText
  import opened TypeDisplay
  import opened TypeParser
  import opened PrintedText
  import opened TypeRoundTrip
  import opened ParsedTypes
  import opened TypeSpellings
  import opened TypeFolding

  // --------------------------------------------------------------- the grammar

  /** Words with single spaces, in capitals. */
  function Normal(s: string): string {
    Upper(Squeeze(s))
  }

  /** Every angle bracket is closed after it was opened. */
  ghost predicate Closed(s: string) {
    Depth(s, 0) == Some(0)
  }

  /** Closed, and no comma outside the brackets. */
  ghost predicate Whole(s: string) {
    Closed(s) && forall i :: 0 <= i < |s| && s[i] == ',' ==> Depth(s[..i], 0) != Some(0)
  }

  function Commas(ps: seq<string>): string {
    if ps == [] then "" else if |ps| == 1 then ps[0] else ps[0] + ("," + Commas(ps[1..]))
  }

  /** The text is these whole pieces with commas between them. */
  ghost predicate Pieces(s: string, ps: seq<string>) {
    ps != [] && s == Commas(ps) && forall i :: 0 <= i < |ps| ==> Whole(ps[i])
  }

  /** A word in any letter case, with blanks before it or not, then closed text in angle
      brackets, then the rest. */
  ghost predicate Opens(s: string, word: string, x: string, w: string, c: string, r: string) {
    s == x + (w + ("<" + c + ">" + r)) && Blank(x) && Upper(w) == word && Closed(c)
  }

  /** A length in parentheses, or none. */
  ghost predicate LengthText(r: string, len: Option<Usize>) {
    match len
    case None => Blank(r)
    case Some(n) => exists x, y, z :: LengthAs(r, n, x, y, z)
  }

  ghost predicate LengthAs(r: string, n: Usize, x: string, y: string, z: string) {
    r == x + ("(" + (y + ")") + z) && Blank(x) && Blank(z) && Denotes(Trim(y), n)
  }

  function NonBlank(ps: seq<string>): seq<string> {
    if ps == [] then [] else (if Blank(ps[0]) then [] else [ps[0]]) + NonBlank(ps[1..])
  }

  /** The word of a container or composite type. */
  function WordOf(t: DataType): string
    requires HasElement(t) || t.Struct?
  {
    if t.List? then "LIST" else if t.Map? then "MAP" else if t.Set? then "SET"
    else if t.Struct? then "STRUCT" else "ARRAY"
  }

  /** The text stands for the type, within the nesting limit. */
  ghost predicate Reads(s: string, d: nat, t: DataType)
    decreases t, 1
  {
    && d < 16
    && (match t
        case Struct(fs) => exists x, w, c, r, ps :: Opens(s, "STRUCT", x, w, c, r) && StructReads(c, r, ps, d, t)
        case Union(ts) => exists x, ps :: Normal(s) == "UNION(" + (x + ")") && UnionReads(x, ps, d, t)
        case Decimal(p, q) => exists x, y :: DecimalAs(Normal(s), p, q, x, y)
        case FixedString(_) => SizedText(Normal(s), t)
        case VectorDense(_) => SizedText(Normal(s), t)
        case VectorSparse(_) => SizedText(Normal(s), t)
        case Scalar(_) => Names(Normal(s), t)
        case _ =>
          || Names(Normal(s), t)
          || exists x, w, c, r :: Opens(s, WordOf(t), x, w, c, r) && ElementReads(c, r, d, t))
  }

  /** A container has nothing after its brackets, an array a length or nothing. */
  ghost predicate ElementReads(c: string, r: string, d: nat, t: DataType)
    requires HasElement(t)
    decreases t, 0
  {
    (if t.Array? then LengthText(r, t.len) else Blank(r)) && Reads(c, d + 1, t.element)
  }

  ghost predicate StructReads(c: string, r: string, ps: seq<string>, d: nat, t: DataType)
    requires t.Struct?
    decreases t, 0
  {
    && Blank(r) && Pieces(c, ps) && |ps| == |t.fields|
    && forall i :: 0 <= i < |t.fields| ==> FieldReads(ps[i], d, t.fields[i])
  }

  /** A name, then blanks, then the type. */
  ghost predicate FieldReads(p: string, d: nat, f: Field)
    decreases f, 2
  {
    exists b, g, ty :: FieldAs(p, f.name, b, g, ty) && Reads(ty, d + 1, f.ty)
  }

  ghost predicate FieldAs(p: string, name: string, b: string, g: string, ty: string) {
    p == b + (name + (g + ty)) && Blank(b) && Solid(name) && Blank(g) && g != ""
  }

  /** Blank members do not count, but there is a member. */
  ghost predicate UnionReads(x: string, ps: seq<string>, d: nat, t: DataType)
    requires t.Union?
    decreases t, 0
  {
    && Pieces(x, ps) && |NonBlank(ps)| == |t.types| > 0
    && forall i :: 0 <= i < |t.types| ==> Reads(NonBlank(ps)[i], d + 1, t.types[i])
  }

  // ----------------------------------------------------------- trimming, pieces

  lemma {:induction false} TrimStartParts(s: string) returns (x: string)
    ensures s == x + TrimStart(s) && Blank(x) && (TrimStart(s) == "" || !IsSpace(TrimStart(s)[0]))
    decreases |s|
  {
    hide IsSpace;
    if s != "" && IsSpace(s[0]) {
      x := TrimStartParts(s[1..]);
      assert s == [s[0]] + s[1..];
      Assoc([s[0]], x, TrimStart(s));
      x := [s[0]] + x;
    } else {
      x := "";
    }
  }

  /** What trimming leaves: the text without the blanks at its ends. */
  lemma TrimParts(s: string) returns (x: string, z: string)
    ensures s == x + (Trim(s) + z) && Blank(x) && Blank(z) && (Trim(s) == "" || Trimmed(Trim(s)))
  {
    x := TrimStartParts(s);
    z := TrimEndParts(TrimStart(s));
    assert Trim(s) != "" ==> Trim(s)[0] == TrimStart(s)[0];
  }

  lemma {:induction false} TrimStartOf(x: string, t: string)
    requires Blank(x) && (t == "" || !IsSpace(t[0]))
    ensures TrimStart(x + t) == t
    decreases |x|
  {
    if x == "" {
      assert x + t == t;
    } else {
      assert (x + t)[1..] == x[1..] + t;
      TrimStartOf(x[1..], t);
    }
  }

  lemma TrimBlank(s: string)
    ensures Trim(s) == "" <==> Blank(s)
  {
    if Blank(s) {
      TrimStartOf(s, "");
      assert s + "" == s;
    } else {
      var x, z := TrimParts(s);
      assert Blank(x + ("" + z));
    }
  }

  /** Trimming is the only way to take blanks off both ends. */
  lemma TrimExact(s: string, t: string)
    requires t == "" || Trimmed(t)
    ensures Trim(s) == t <==> exists x, z :: s == x + (t + z) && Blank(x) && Blank(z)
  {
    if Trim(s) == t {
      var x, z := TrimParts(s);
    }
    if x, z :| s == x + (t + z) && Blank(x) && Blank(z) {
      TrimOf(x, t, z);
    }
  }

  lemma TrimOf(x: string, t: string, z: string)
    requires Blank(x) && Blank(z) && (t == "" || Trimmed(t))
    ensures Trim(x + (t + z)) == t
  {
    if t == "" {
      assert Blank(x + (t + z));
      TrimBlank(x + (t + z));
    } else {
      TrimStartOf(x, t + z);
      TrimEndConcat(t, z);
    }
  }

  lemma ParseTrimmed(s: string, d: nat)
    ensures Parse(Trim(s), d) == Parse(s, d)
  {
    var x, z := TrimParts(s);
    hide *;
    PaddingIgnored(x, Trim(s), z, d);
  }

  // -------------------------------------------------------------------- pieces

  /** The same from bracket depth `d` on. */
  ghost predicate WholeFrom(s: string, d: nat) {
    Depth(s, d) == Some(0) && forall i :: 0 <= i < |s| && s[i] == ',' ==> Depth(s[..i], d) != Some(0)
  }

  lemma DepthPast(s: string, d: nat, i: nat)
    requires 0 < i <= |s| && !(s[0] == '>' && d == 0)
    ensures Depth(s[..i], d) == Depth(s[1..][..i - 1], Next(s[0], d))
  {
    assert s[..i][1..] == s[1..][..i - 1];
  }

  lemma WholeFromNext(s: string, d: nat)
    requires s != "" && !(s[0] == '>' && d == 0) && !(s[0] == ',' && d == 0)
    ensures WholeFrom(s, d) <==> WholeFrom(s[1..], Next(s[0], d))
  {
    var t, e := s[1..], Next(s[0], d);
    assert Depth(s, d) == Depth(t, e);
    assert Depth(s[..0], d) == Some(d);
    if WholeFrom(s, d) {
      forall i | 0 <= i < |t| && t[i] == ',' ensures Depth(t[..i], e) != Some(0) {
        DepthPast(s, d, i + 1);
        assert s[i + 1] == ',';
      }
    }
    if WholeFrom(t, e) {
      forall i | 0 <= i < |s| && s[i] == ',' ensures Depth(s[..i], d) != Some(0) {
        if i > 0 {
          DepthPast(s, d, i);
          assert t[i - 1] == ',';
        }
      }
    }
  }

  /** A text that is not split is one without a comma outside its brackets. */
  lemma {:induction false} WholeIsOnePiece(s: string, d: nat)
    requires Depth(s, d) == Some(0)
    ensures WholeFrom(s, d) <==> |Split(s, d)| == 1
    decreases |s|
  {
    if s == "" {
    } else if s[0] == ',' && d == 0 {
      assert s[..0] == "" && Depth(s[..0], d) == Some(0);
    } else {
      WholeFromNext(s, d);
      WholeIsOnePiece(s[1..], Next(s[0], d));
    }
  }

  lemma WholeIsPart(s: string)
    ensures Whole(s) <==> Part(s)
  {
    if Depth(s, 0) == Some(0) {
      WholeIsOnePiece(s, 0);
    }
  }

  lemma CommasCons(p: string, ps: seq<string>)
    requires ps != []
    ensures Commas([p] + ps) == p + ("," + Commas(ps))
  {
    assert ([p] + ps)[1..] == ps;
  }

  lemma CommasFront(c: char, ps: seq<string>)
    requires ps != []
    ensures Commas(Front(c, ps)) == [c] + Commas(ps)
  {
    if |ps| > 1 {
      assert Front(c, ps)[1..] == ps[1..];
    }
  }

  lemma EmptyFirst(s: string)
    ensures "" + s == s
  {
  }

  lemma {:induction false} CommasOfSplit(s: string, d: nat)
    ensures Commas(Split(s, d)) == s
    decreases |s|
  {
    if s != "" {
      var e, t := Next(s[0], d), s[1..];
      CommasOfSplit(t, e);
      hide Commas;
      assert s == [s[0]] + t;
      if s[0] == ',' && d == 0 {
        assert Split(s, d) == [""] + Split(t, 0);
        hide Split;
        CommasCons("", Split(t, 0));
        EmptyFirst("," + t);
      } else {
        assert Split(s, d) == Front(s[0], Split(t, e));
        hide Split, Front;
        CommasFront(s[0], Split(t, e));
      }
    }
  }

  lemma SplitPast(p: string, rest: string)
    requires Part(p)
    ensures Split(p + ("," + rest), 0) == [p] + Split(rest, 0)
  {
    SplitConcat(p, "," + rest, 0, 0);
    SplitOne(p, 0);
    assert ("," + rest)[1..] == rest;
    assert Split("," + rest, 0) == [""] + Split(rest, 0);
    hide Split;
    assert p + "" == p;
  }

  lemma {:induction false} SplitOfCommas(ps: seq<string>)
    requires ps != [] && forall i :: 0 <= i < |ps| ==> Part(ps[i])
    ensures Split(Commas(ps), 0) == ps
    decreases |ps|
  {
    hide Part;
    if |ps| == 1 {
      PartIsOne(ps[0]);
    } else {
      SplitOfCommas(ps[1..]);
      SplitPast(ps[0], Commas(ps[1..]));
    }
  }

  lemma PartIsOne(p: string)
    requires Part(p)
    ensures Split(p, 0) == [p]
  {
    SplitOne(p, 0);
  }

  /** The splitter finds the pieces of a closed text, and those are the only ones. */
  lemma SplitExact(s: string, ps: seq<string>)
    requires Closed(s)
    ensures Split(s, 0) == ps <==> Pieces(s, ps)
  {
    if Split(s, 0) == ps {
      SplitParts(s, 0);
      CommasOfSplit(s, 0);
      forall i | 0 <= i < |ps| ensures Whole(ps[i]) {
        WholeIsPart(ps[i]);
      }
    }
    if Pieces(s, ps) {
      PiecesSplit(s, ps);
    }
  }

  lemma PiecesSplit(s: string, ps: seq<string>)
    requires Pieces(s, ps)
    ensures Split(s, 0) == ps
  {
    forall i | 0 <= i < |ps| ensures Part(ps[i]) {
      WholeIsPart(ps[i]);
    }
    hide Part, Whole;
    SplitOfCommas(ps);
  }

  // -------------------------------------------------------------- words opening

  lemma {:induction false} WordsPadStart(x: string, s: string)
    requires Blank(x)
    ensures Words(x + s) == Words(s)
    decreases |x|
  {
    if x == "" {
      assert x + s == s;
    } else {
      assert (x + s)[1..] == x[1..] + s;
      WordsSkip(x + s);
      WordsPadStart(x[1..], s);
    }
  }

  predicate NoBlanks(p: string) {
    forall i :: 0 <= i < |p| ==> !IsSpace(p[i])
  }

  lemma {:induction false} FirstWordPast(p: string, q: string)
    requires NoBlanks(p)
    ensures FirstWord(p + q) == p + FirstWord(q)
    decreases |p|
  {
    if p == "" {
      assert p + q == q && p + FirstWord(q) == FirstWord(q);
    } else {
      assert (p + q)[1..] == p[1..] + q;
      FirstWordPast(p[1..], q);
    }
  }

  /** The squeezed text is its first word, alone or with a space after it. */
  lemma SqueezeFirst(s: string)
    requires s != "" && !IsSpace(s[0])
    ensures Squeeze(s) == FirstWord(s) || StartsWith(Squeeze(s), FirstWord(s) + " ")
  {
    var w := FirstWord(s);
    var more := Words(s[|w|..]);
    assert Words(s) == [w] + more && ([w] + more)[1..] == more;
    hide Words, FirstWord;
    if more != [] {
      assert Squeeze(s) == w + " " + JoinWords(more);
    }
  }

  lemma UpperStarts(s: string, p: string)
    requires StartsWith(s, p)
    ensures StartsWith(Upper(s), Upper(p))
  {
  }

  lemma WordIsSolid(w: string, word: string)
    requires Word(word) && Upper(w) == word
    ensures NoBlanks(w) && '<' !in w && NoAngles(w)
  {
    forall i | 0 <= i < |w| ensures !IsSpace(w[i]) && w[i] != '<' && w[i] != '>' {
      assert WordChar(word[i]) && word[i] == UpperChar(w[i]);
    }
  }

  /** Text that opens with the word has the prefix that is tested for. */
  lemma OpensStarts(s: string, word: string, x: string, w: string, c: string, r: string)
    requires Opens(s, word, x, w, c, r) && Word(word)
    ensures StartsWith(Normal(s), word + "<") && TakeAngle(s) == Some(Cut(c, r))
  {
    hide IsSpace, TakeAngle, Squeeze, StartsWith;
    var tail := c + ">" + r;
    var t := w + ("<" + tail);
    assert "<" + tail == "<" + c + ">" + r;
    WordIsSolid(w, word);
    OpensTaken(x, w, c, r);
    WordsPadStart(x, t);
    SameSqueeze(s, t);
    SolidFirst(w);
    SqueezeOpens(w, tail);
    UpperOpens(Squeeze(t), w);
  }

  lemma SolidFirst(w: string)
    requires NoBlanks(w)
    ensures FirstWord(w) == w
  {
    assert w + "" == w;
    FirstWordOf(w, "");
  }

  lemma SqueezeOpens(w: string, tail: string)
    requires FirstWord(w) == w
    ensures StartsWith(Squeeze(w + ("<" + tail)), w + "<")
  {
    var t := w + ("<" + tail);
    assert t == (w + "<") + tail && NoBlanks(w + "<");
    assert t[0] == (w + "<")[0] && !IsSpace(t[0]);
    hide IsSpace, FirstWord, Squeeze, NoBlanks;
    FirstWordPast(w + "<", tail);
    SqueezeFirst(t);
    PrefixKept(Squeeze(t), FirstWord(t), w + "<", FirstWord(tail));
  }

  lemma SameSqueeze(s: string, t: string)
    requires Words(s) == Words(t)
    ensures Squeeze(s) == Squeeze(t)
  {
  }

  lemma PrefixKept(q: string, f: string, p: string, more: string)
    requires f == p + more && (q == f || StartsWith(q, f + " "))
    ensures StartsWith(q, p)
  {
  }

  lemma OpensTaken(x: string, w: string, c: string, r: string)
    requires Blank(x) && NoAngles(w) && Closed(c)
    ensures TakeAngle(x + (w + ("<" + c + ">" + r))) == Some(Cut(c, r))
  {
    ClosedIsBalanced(c);
    assert NoAngles(x + w) by {
      assert forall i :: 0 <= i < |x| ==> IsSpace(x[i]) && x[i] != '<' && x[i] != '>';
    }
    hide Balanced, Blank, NoAngles, TakeAngle;
    TakeAngleWord(x + w, c, r);
    assert x + (w + ("<" + c + ">" + r)) == (x + w) + "<" + c + ">" + r;
  }

  lemma AnglePosition(q: string, a: string)
    requires '<' !in a && StartsWith(q, a + "<")
    ensures |a| < |q| && q[|a|] == '<' && a == q[..|a|] && forall i :: 0 <= i < |a| ==> q[i] == a[i] != '<'
  {
    assert q[..|a| + 1] == a + "<";
  }

  lemma FirstAngle(q: string, a: string, b: string)
    requires '<' !in a && '<' !in b && StartsWith(q, a + "<") && StartsWith(q, b + "<")
    ensures a == b
  {
    AnglePosition(q, a);
    AnglePosition(q, b);
    hide StartsWith;
  }

  lemma UpperAngle(w: string)
    requires '<' !in w
    ensures '<' !in Upper(w)
  {
  }

  lemma SpacePosition(q: string, f: string)
    requires '<' !in f && (q == f || StartsWith(q, f + " "))
    ensures |f| <= |q| && (|f| < |q| ==> q[|f|] == ' ') && forall i :: 0 <= i < |f| ==> q[i] == f[i] != '<'
  {
    if StartsWith(q, f + " ") {
      assert q[..|f| + 1] == f + " ";
    }
  }

  /** A blank inside the word keeps the bracket away from it. */
  lemma GapBreaks(q: string, f: string, word: string)
    requires '<' !in f && Word(word) && StartsWith(q, word + "<")
    ensures q != f && !StartsWith(q, f + " ")
  {
    WordHasNoAngle(word);
    AnglePosition(q, word);
    assert forall i :: 0 <= i < |word| ==> WordChar(word[i]) && q[i] != ' ';
    if q == f || StartsWith(q, f + " ") {
      SpacePosition(q, f);
    }
  }

  lemma StartsOpens(s: string, word: string) returns (x: string, w: string)
    requires StartsWith(Normal(s), word + "<") && Word(word) && TakeAngle(s).Some?
    ensures var cut := TakeAngle(s).value; Opens(s, word, x, w, cut.content, cut.rest)
  {
    hide StartsWith, IsSpace, TakeAngle, Squeeze, TrimStart, Word, Upper;
    var cut := TakeAngle(s).value;
    var v := TakeParts(s);
    x := TrimStartParts(v);
    w := TrimStart(v);
    var tail := cut.content + ">" + cut.rest;
    var t := w + ("<" + tail);
    assert "<" + tail == "<" + cut.content + ">" + cut.rest;
    Assoc(x, w, "<" + tail);
    assert '<' !in w by {
      assert forall i :: 0 <= i < |w| ==> w[i] == v[|x| + i];
    }
    WordsPadStart(x, t);
    SameSqueeze(s, t);
    StartsAre(t, w, tail, word);
  }

  lemma StartsAre(t: string, w: string, tail: string, word: string)
    requires t == w + ("<" + tail) && '<' !in w && (w == "" || !IsSpace(w[0])) && Word(word)
    requires StartsWith(Upper(Squeeze(t)), word + "<")
    ensures Upper(w) == word
  {
    hide StartsWith, Squeeze, Word, Upper;
    var f := FirstWord(w);
    if f == w {
      SolidStart(t, w, tail, word);
    } else {
      GapStart(t, w, tail, word);
    }
  }

  lemma SolidStart(t: string, w: string, tail: string, word: string)
    requires t == w + ("<" + tail) && '<' !in w && FirstWord(w) == w && Word(word)
    requires StartsWith(Upper(Squeeze(t)), word + "<")
    ensures Upper(w) == word
  {
    SqueezeOpens(w, tail);
    hide FirstWord, Squeeze;
    UpperAngle(w);
    UpperOpens(Squeeze(t), w);
    WordHasNoAngle(word);
    hide StartsWith, Upper, Word;
    FirstAngle(Upper(Squeeze(t)), Upper(w), word);
  }

  lemma UpperOpens(q: string, w: string)
    requires StartsWith(q, w + "<")
    ensures StartsWith(Upper(q), Upper(w) + "<")
  {
    UpperStarts(q, w + "<");
    UpperConcat(w, "<");
    assert Upper("<") == "<";
  }

  lemma GapStart(t: string, w: string, tail: string, word: string)
    requires t == w + ("<" + tail) && '<' !in w && w != "" && !IsSpace(w[0]) && FirstWord(w) != w && Word(word)
    ensures !StartsWith(Upper(Squeeze(t)), word + "<")
  {
    var f := FirstWord(w);
    SqueezeGap(w, tail);
    hide FirstWord, Squeeze, IsSpace;
    assert '<' !in f;
    UpperAngle(f);
    UpperGap(Squeeze(t), f);
    hide StartsWith, Upper, Word;
    if StartsWith(Upper(Squeeze(t)), word + "<") {
      GapBreaks(Upper(Squeeze(t)), Upper(f), word);
    }
  }

  lemma UpperGap(q: string, f: string)
    requires q == f || StartsWith(q, f + " ")
    ensures Upper(q) == Upper(f) || StartsWith(Upper(q), Upper(f) + " ")
  {
    UpperConcat(f, " ");
    assert Upper(" ") == " ";
    if StartsWith(q, f + " ") {
      UpperStarts(q, f + " ");
    }
  }

  lemma Regroup(w: string, k: nat, tail: string)
    requires k < |w|
    ensures w + tail == w[..k] + (w[k..] + tail) && (w[k..] + tail)[0] == w[k]
  {
  }

  lemma SqueezeGap(w: string, tail: string)
    requires w != "" && !IsSpace(w[0]) && FirstWord(w) != w
    ensures var q, f := Squeeze(w + ("<" + tail)), FirstWord(w); q == f || StartsWith(q, f + " ")
  {
    hide IsSpace, Squeeze, FirstWord, StartsWith;
    var f, t := FirstWord(w), w + ("<" + tail);
    assert |f| < |w| && f == w[..|f|];
    var rest := w[|f|..] + ("<" + tail);
    Regroup(w, |f|, "<" + tail);
    FirstWordOf(f, rest);
    SqueezeFirst(t);
  }

  lemma WordHasNoAngle(word: string)
    requires Word(word)
    ensures '<' !in word
  {
  }

  // ------------------------------------------------------------------- lengths

  lemma ParensTrimmed(x: string, y: string, z: string)
    requires Blank(x) && Blank(z)
    ensures Trim(x + ("(" + (y + ")") + z)) == "(" + (y + ")")
  {
    var t := "(" + (y + ")");
    assert Trimmed(t) by {
      assert t[0] == '(' && t[|t| - 1] == ')';
    }
    hide Trim, Trimmed, IsSpace;
    TrimOf(x, t, z);
  }

  /** The optional length of an array is read exactly where it is written. */
  lemma LengthExact(r: string, len: Option<Usize>)
    ensures ParseLength(r) == Some(len) <==> LengthText(r, len)
  {
    TrimBlank(r);
    hide Trim, IsSpace, Denotes, ParseSize, Blank;
    if ParseLength(r) == Some(len) && len.Some? {
      var x, z := TrimParts(r);
      var q := Trim(r);
      var y := q[1..|q| - 1];
      assert q == "(" + (y + ")");
      SizeExact(Trim(y), len.value);
      assert LengthAs(r, len.value, x, y, z);
    }
    if LengthText(r, len) && len.Some? {
      var x, y, z :| LengthAs(r, len.value, x, y, z);
      ParensTrimmed(x, y, z);
      Inside(y);
      SizeExact(Trim(y), len.value);
    }
  }

  // ------------------------------------------------------------ which branch

  lemma AngleWordTests(w: string, r: string)
    requires Word(w) && r != "" && r[0] == '<'
    ensures var u := w + r;
            && (StartsWith(u, "LIST<") <==> w == "LIST") && (StartsWith(u, "MAP<") <==> w == "MAP")
            && (StartsWith(u, "SET<") <==> w == "SET") && (StartsWith(u, "STRUCT<") <==> w == "STRUCT")
            && (StartsWith(u, "ARRAY<") <==> w == "ARRAY")
  {
    assert "LIST" + ['<'] == "LIST<" && "MAP" + ['<'] == "MAP<" && "SET" + ['<'] == "SET<";
    assert "STRUCT" + ['<'] == "STRUCT<" && "ARRAY" + ['<'] == "ARRAY<";
    hide StartsWith;
    PrefixOf(w, r, "LIST", '<');
    PrefixOf(w, r, "MAP", '<');
    PrefixOf(w, r, "SET", '<');
    PrefixOf(w, r, "STRUCT", '<');
    PrefixOf(w, r, "ARRAY", '<');
  }

  /** What the parser does with text that opens with the word of the type. */
  lemma OpenBranch(s: string, u: string, d: nat, t: DataType)
    requires (HasElement(t) || t.Struct?) && |u| <= |s| && StartsWith(u, WordOf(t) + "<")
    ensures Named(u).None? && u != "VID"
    ensures ParseParameterized(s, u, d) ==
            if t.Struct? then ParseStruct(s, d) else if t.Array? then ParseArray(s, d)
            else Rewrap(t, ParseElement(s, d))
  {
    var w := WordOf(t);
    var r := u[|w|..];
    assert u == w + r && r[0] == '<' by {
      assert u[..|w| + 1] == w + "<";
    }
    assert Word(w) && u[|w|] == '<';
    BracketIsNoWord(u, |w|);
    AngleWordTests(w, r);
    WordsDiffer(t);
    hide StartsWith, Named, ParseStruct, ParseArray, ParseElement, WordOf, Word;
  }

  lemma WordsDiffer(t: DataType)
    requires HasElement(t) || t.Struct?
    ensures WordOf(t) == "LIST" <==> t.List?
    ensures WordOf(t) == "MAP" <==> t.Map?
    ensures WordOf(t) == "SET" <==> t.Set?
    ensures WordOf(t) == "STRUCT" <==> t.Struct?
    ensures WordOf(t) == "ARRAY" <==> t.Array?
  {
  }

  lemma BracketIsNoWord(u: string, i: nat)
    requires i < |u| && Punctuation(u[i])
    ensures Named(u).None? && u != "VID"
  {
    hide Named;
    if Named(u).Some? {
      NamedHasNoBracket(u);
    }
    if u == "VID" {
      RestHasNoBracket(u);
    }
  }

  lemma BlankIsNoType(s: string, d: nat)
    requires Blank(s)
    ensures Parse(s, d).None?
  {
    TrimBlank(s);
    ParseTrimmed(s, d);
    EmptyIsNoType(d);
    hide Parse, Trim;
  }

  lemma EmptyIsNoType(d: nat)
    ensures Parse("", d).None?
  {
    assert Upper(Squeeze("")) == "";
    if Parse("", d).Some? {
      hide Parse;
      FlatTextExact("", d, Parse("", d).value);
    }
  }

  // -------------------------------------------------------------------- fields

  /** A part that reads as a field, taken apart. */
  lemma FieldTextOf(part: string, d: nat, f: Field) returns (b: string, g: string, ty: string)
    requires FieldFrom(Trim(part), d) == Some(f)
    ensures FieldAs(part, f.name, b, g, ty) && Parse(ty, d + 1) == Some(f.ty) && |ty| < |part|
  {
    var p := Trim(part);
    var z;
    b, z := TrimParts(part);
    hide Parse, Trim, IsSpace, Trimmed;
    var name := FirstWord(p);
    var q := p[|name| + 1..];
    FieldParts(p);
    hide FirstWord, Marks;
    g, ty := [p[|name|]], q + z;
    assert part == b + (name + (g + ty)) by {
      assert p == name + (g + q);
      assert name + (g + q) + z == name + (g + (q + z));
    }
    ParseTrimmed(q, d + 1);
    assert "" + (q + z) == q + z;
    PaddingIgnored("", q, z, d + 1);
  }

  /** And put together again. */
  lemma FieldFromText(part: string, d: nat, f: Field, b: string, g: string, ty: string)
    requires FieldAs(part, f.name, b, g, ty) && Parse(ty, d + 1) == Some(f.ty)
    ensures FieldFrom(Trim(part), d) == Some(f)
  {
    hide Parse, IsSpace, Trim;
    var x, z := TrimParts(ty);
    var core := Trim(ty);
    if core == "" {
      TrimBlank(ty);
      BlankIsNoType(ty, d + 1);
    } else {
      var p := f.name + (g + (x + core));
      FieldTrimmed(part, f.name, b, g, x, core, z);
      FieldSplit(f.name, g, x + core);
      var q := g[1..] + (x + core);
      ParseTrimmed(q, d + 1);
      ParseTrimmed(ty, d + 1);
      assert q == (g[1..] + x) + (core + "");
      PaddingIgnored(g[1..] + x, core, "", d + 1);
      hide FirstWord;
      if TypePart(p) == "" {
        EmptyIsNoType(d + 1);
      }
    }
  }

  lemma FieldTrimmed(part: string, name: string, b: string, g: string, x: string, core: string, z: string)
    requires FieldAs(part, name, b, g, x + (core + z)) && Blank(x) && Blank(z) && Trimmed(core)
    ensures Trim(part) == name + (g + (x + core))
  {
    var t := name + (g + (x + core));
    assert part == b + (t + z);
    assert t[0] == name[0] && t[|t| - 1] == core[|core| - 1];
    hide Trim, IsSpace;
    TrimOf(b, t, z);
  }

  lemma FieldSplit(name: string, g: string, rest: string)
    requires Solid(name) && Blank(g) && g != ""
    ensures var p := name + (g + rest);
            FirstWord(p) == name && name != p && name != "" && p[|name| + 1..] == g[1..] + rest
  {
    assert (g + rest)[0] == g[0];
    hide IsSpace;
    FirstWordOf(name, g + rest);
  }

  lemma {:induction false} FieldsEach(parts: seq<string>, d: nat, bound: nat, fs: seq<Field>)
    requires forall i :: 0 <= i < |parts| ==> |parts[i]| < bound
    ensures ParseFields(parts, d, bound) == Some(fs) <==>
            |parts| == |fs| && forall i :: 0 <= i < |parts| ==> ParseField(parts[i], d, bound) == Some(fs[i])
    decreases |parts|
  {
    hide ParseField;
    if parts != [] && fs != [] {
      FieldsEach(parts[1..], d, bound, fs[1..]);
      assert fs == [fs[0]] + fs[1..];
      assert forall i :: 1 <= i < |parts| ==> parts[i] == parts[1..][i - 1];
      assert forall i :: 1 <= i < |fs| ==> fs[i] == fs[1..][i - 1];
    }
  }

  // ------------------------------------------------------------------- members

  ghost predicate EachParses(ps: seq<string>, d: nat, ts: seq<DataType>) {
    |ps| == |ts| && forall i :: 0 <= i < |ts| ==> Parse(ps[i], d + 1) == Some(ts[i])
  }

  lemma EachParsesCons(p: string, ps: seq<string>, d: nat, ts: seq<DataType>)
    ensures EachParses([p] + ps, d, ts) <==>
            ts != [] && Parse(p, d + 1) == Some(ts[0]) && EachParses(ps, d, ts[1..])
  {
    hide Parse;
    var all := [p] + ps;
    assert forall i :: 0 <= i < |ps| ==> all[i + 1] == ps[i];
    assert forall i :: 1 <= i < |all| ==> all[i] == ps[i - 1];
    assert forall i :: 1 <= i < |ts| ==> ts[i] == ts[1..][i - 1];
  }

  lemma MembersStep(parts: seq<string>, d: nat, bound: nat)
    requires parts != [] && forall i :: 0 <= i < |parts| ==> |parts[i]| < bound
    ensures var rest := ParseMembers(parts[1..], d, bound);
            ParseMembers(parts, d, bound) ==
            if Blank(parts[0]) then rest
            else
              match (Parse(parts[0], d + 1), rest)
              case (Some(t), Some(ts)) => Some([t] + ts)
              case _ => None
  {
    TrimBlank(parts[0]);
    ParseTrimmed(parts[0], d + 1);
    hide Parse, Trim, Blank;
  }

  lemma {:induction false} MembersEach(parts: seq<string>, d: nat, bound: nat, ts: seq<DataType>)
    requires forall i :: 0 <= i < |parts| ==> |parts[i]| < bound
    ensures ParseMembers(parts, d, bound) == Some(ts) <==> EachParses(NonBlank(parts), d, ts)
    decreases |parts|
  {
    if parts != [] {
      var p, rest := parts[0], parts[1..];
      MembersStep(parts, d, bound);
      hide Parse, Blank, ParseMembers, EachParses;
      if Blank(p) {
        MembersEach(rest, d, bound, ts);
        assert NonBlank(parts) == NonBlank(rest);
      } else {
        EachParsesCons(p, NonBlank(rest), d, ts);
        if ts != [] {
          MembersEach(rest, d, bound, ts[1..]);
          assert ts == [ts[0]] + ts[1..];
        }
      }
    }
  }

  lemma {:induction false} NonBlankFrom(ps: seq<string>, i: nat)
    requires i < |NonBlank(ps)|
    ensures NonBlank(ps)[i] in ps
    decreases |ps|
  {
    if Blank(ps[0]) {
      NonBlankFrom(ps[1..], i);
    } else if i > 0 {
      NonBlankFrom(ps[1..], i - 1);
    }
  }

  // ------------------------------------------------- what is parsed is grammatical

  lemma NamesRead(s: string, d: nat, t: DataType)
    requires d < 16 && Names(Normal(s), t)
    ensures Reads(s, d, t)
  {
    hide Normal, Spells;
  }

  lemma WordPrefixes()
    ensures "LIST" + "<" == "LIST<" && "MAP" + "<" == "MAP<" && "SET" + "<" == "SET<"
    ensures "STRUCT" + "<" == "STRUCT<" && "ARRAY" + "<" == "ARRAY<"
  {
  }

  lemma WordOfIsWord(t: DataType)
    requires HasElement(t) || t.Struct?
    ensures Word(WordOf(t))
  {
  }

  lemma ElementForward(s: string, d: nat, t: DataType)
    requires HasElement(t) && d < 16 && StartsWith(Normal(s), WordOf(t) + "<") && TakeAngle(s).Some?
    requires var cut := TakeAngle(s).value;
             && (if t.Array? then ParseLength(cut.rest) == Some(t.len) else Trim(cut.rest) == "")
             && Parse(cut.content, d + 1) == Some(t.element)
    ensures Reads(s, d, t)
    decreases |s|, 0
  {
    hide TakeAngle, Parse, Normal, WordOf, StartsWith, Trim, ParseLength, LengthText, Blank, Word, Opens, Reads;
    var cut := TakeAngle(s).value;
    WordOfIsWord(t);
    TrimBlank(cut.rest);
    if t.Array? {
      LengthExact(cut.rest, t.len);
    }
    var x, w := StartsOpens(s, WordOf(t));
    ParseReads(cut.content, d + 1);
    ElementIntro(s, x, w, cut.content, cut.rest, d, t);
  }

  lemma ElementIntro(s: string, x: string, w: string, c: string, r: string, d: nat, t: DataType)
    requires HasElement(t) && d < 16 && Opens(s, WordOf(t), x, w, c, r) && ElementReads(c, r, d, t)
    ensures Reads(s, d, t)
  {
    hide Normal, ElementReads, Opens, WordOf, Names;
  }

  lemma FieldForward(part: string, d: nat, bound: nat, f: Field)
    requires |part| < bound && ParseField(part, d, bound) == Some(f)
    ensures FieldReads(part, d, f)
    decreases |part|, 0
  {
    FieldIs(part, d, bound);
    hide ParseField, FieldFrom, Trim, Parse;
    var b, g, ty := FieldTextOf(part, d, f);
    ParseReads(ty, d + 1);
  }

  lemma StructForward(s: string, d: nat, fs: seq<Field>)
    requires d < 16 && StartsWith(Normal(s), "STRUCT<") && ParseStruct(s, d) == Some(Struct(fs))
    ensures Reads(s, d, Struct(fs))
    decreases |s|, 0
  {
    hide TakeAngle, Parse, Normal, StartsWith, Trim, Split, ParseFields, Pieces, Blank, Word, ParseField;
    hide Opens, Reads, FieldReads;
    var cut := TakeAngle(s).value;
    var ps := Split(cut.content, 0);
    var v := TakeParts(s);
    TrimBlank(cut.rest);
    SplitExact(cut.content, ps);
    FieldsEach(ps, d, |s|, fs);
    WordPrefixes();
    WordOfIsWord(Struct([]));
    var x, w := StartsOpens(s, "STRUCT");
    forall i | 0 <= i < |fs| ensures FieldReads(ps[i], d, fs[i]) {
      FieldForward(ps[i], d, |s|, fs[i]);
    }
    StructIntro(s, x, w, cut.content, cut.rest, ps, d, Struct(fs));
  }

  lemma StructIntro(s: string, x: string, w: string, c: string, r: string, ps: seq<string>, d: nat, t: DataType)
    requires t.Struct? && d < 16 && Opens(s, "STRUCT", x, w, c, r) && StructReads(c, r, ps, d, t)
    ensures Reads(s, d, t)
  {
    hide Normal, StructReads, Opens;
  }

  lemma UnionForward(s: string, u: string, d: nat, ts: seq<DataType>)
    requires d < 16 && u == Normal(s) && |u| <= |s| && StartsWith(u, "UNION(")
    requires |AfterPrefix(u, "UNION(")| < |s| && ParseUnion(AfterPrefix(u, "UNION("), d, |s|) == Some(Union(ts))
    ensures Reads(s, d, Union(ts))
    decreases |s|, 0
  {
    hide Split, Normal, ParseMembers, Parse, Pieces, NonBlank, Reads;
    var rest := AfterPrefix(u, "UNION(");
    var x := Inner(rest).value;
    assert u == "UNION(" + (x + ")");
    hide StartsWith, AfterPrefix, Inner;
    var ps := Split(x, 0);
    assert |x| < |s| && forall i :: 0 <= i < |ps| ==> |ps[i]| < |s|;
    MembersBalanced(ps, d, |s|);
    PartsJoin(x, 0);
    SplitExact(x, ps);
    MembersEach(ps, d, |s|, ts);
    forall i | 0 <= i < |ts| ensures Reads(NonBlank(ps)[i], d + 1, ts[i]) {
      NonBlankFrom(ps, i);
      ParseReads(NonBlank(ps)[i], d + 1);
    }
    UnionIntro(s, x, ps, d, Union(ts));
  }

  lemma UnionIntro(s: string, x: string, ps: seq<string>, d: nat, t: DataType)
    requires t.Union? && d < 16 && Normal(s) == "UNION(" + (x + ")") && UnionReads(x, ps, d, t)
    ensures Reads(s, d, t)
  {
    hide Normal, UnionReads;
  }

  lemma ContainerForward(s: string, d: nat, t: DataType)
    requires (t.List? || t.Map? || t.Set?) && d < 16 && StartsWith(Normal(s), WordOf(t) + "<")
    requires ParseElement(s, d) == Some(t.element)
    ensures Reads(s, d, t)
    decreases |s|, 1
  {
    hide TakeAngle, Parse, Normal, WordOf, StartsWith, Trim, Reads;
    ElementForward(s, d, t);
  }

  lemma ArrayForward(s: string, d: nat, t: DataType)
    requires t.Array? && d < 16 && StartsWith(Normal(s), "ARRAY<") && ParseArray(s, d) == Some(t)
    ensures Reads(s, d, t)
    decreases |s|, 1
  {
    hide TakeAngle, Parse, Normal, StartsWith, ParseLength, Reads;
    WordPrefixes();
    ElementForward(s, d, t);
  }

  lemma LeafForward(s: string, d: nat, t: DataType)
    requires (Sized(t) || t.Decimal?) && Parse(s, d) == Some(t)
    ensures Reads(s, d, t)
  {
    hide Parse, SizedText, DecimalAs;
    if t.Decimal? {
      DecimalTextExact(s, d, t.precision, t.scale);
      var x, y :| DecimalAs(Upper(Squeeze(s)), t.precision, t.scale, x, y);
      assert DecimalAs(Normal(s), t.precision, t.scale, x, y);
    } else {
      SizedTextExact(s, d, t);
    }
  }

  lemma BracketForward(s: string, u: string, d: nat)
    requires u == Normal(s) && |u| <= |s| && d < 16 && ParseParameterized(s, u, d).Some?
    requires StartsWith(u, "LIST<") || StartsWith(u, "MAP<") || StartsWith(u, "SET<") || StartsWith(u, "STRUCT<")
             || StartsWith(u, "ARRAY<")
    ensures Reads(s, d, ParseParameterized(s, u, d).value)
    decreases |s|, 2
  {
    hide Normal, StartsWith, Reads, ParseElement, ParseArray, ParseStruct;
    WordPrefixes();
    var t := ParseParameterized(s, u, d).value;
    if StartsWith(u, "LIST<") || StartsWith(u, "MAP<") || StartsWith(u, "SET<") {
      ContainerForward(s, d, t);
    } else if StartsWith(u, "STRUCT<") {
      StructIsStruct(s, d);
      StructForward(s, d, t.fields);
    } else {
      ArrayIsArray(s, d);
      ArrayForward(s, d, t);
    }
  }

  lemma StructIsStruct(s: string, d: nat)
    ensures ParseStruct(s, d).Some? ==> ParseStruct(s, d).value.Struct?
  {
  }

  lemma ArrayIsArray(s: string, d: nat)
    ensures ParseArray(s, d).Some? ==> ParseArray(s, d).value.Array?
  {
  }

  lemma ParenForward(s: string, u: string, d: nat)
    requires u == Normal(s) && |u| <= |s| && d < 16 && ParseParameterized(s, u, d).Some?
    requires Parse(s, d) == ParseParameterized(s, u, d)
    requires !(StartsWith(u, "LIST<") || StartsWith(u, "MAP<") || StartsWith(u, "SET<") || StartsWith(u, "STRUCT<")
             || StartsWith(u, "ARRAY<"))
    ensures Reads(s, d, ParseParameterized(s, u, d).value)
    decreases |s|, 2
  {
    hide Normal, StartsWith, Reads, ParseDecimal, ParseUnion, ParseSized, Parse;
    var t := ParseParameterized(s, u, d).value;
    SizedIsSized(u);
    if StartsWith(u, "DECIMAL(") {
      DecimalIsDecimal(AfterPrefix(u, "DECIMAL("));
      LeafForward(s, d, t);
    } else if StartsWith(u, "UNION(") {
      PrefixFits(u, "UNION(");
      UnionIsUnion(AfterPrefix(u, "UNION("), d, |s|);
      UnionForward(s, u, d, t.types);
    } else {
      LeafForward(s, d, t);
    }
  }

  /** Whatever is parsed is in the language. */
  lemma {:induction false} ParseReads(s: string, d: nat)
    requires Parse(s, d).Some?
    ensures Reads(s, d, Parse(s, d).value)
    decreases |s|, 3
  {
    hide Named, ParseParameterized, Squeeze, Upper, Reads, Names, StartsWith;
    var u, t := Normal(s), Parse(s, d).value;
    SqueezeShrinks(s);
    if Named(u).Some? {
      NamedExact(u, t);
      NamesRead(s, d, t);
    } else if StartsWith(u, "LIST<") || StartsWith(u, "MAP<") || StartsWith(u, "SET<") || StartsWith(u, "STRUCT<")
              || StartsWith(u, "ARRAY<") {
      BracketForward(s, u, d);
    } else {
      ParenForward(s, u, d);
    }
  }

  // ------------------------------------------------- what is grammatical is parsed

  lemma LeafBackward(s: string, d: nat, t: DataType)
    requires (Sized(t) || t.Decimal?) && Reads(s, d, t)
    ensures Parse(s, d) == Some(t)
  {
    hide Parse, SizedText, DecimalAs;
    if t.Decimal? {
      DecimalTextExact(s, d, t.precision, t.scale);
    } else {
      SizedTextExact(s, d, t);
    }
  }

  lemma NamesParse(s: string, d: nat, t: DataType)
    requires d < 16 && Names(Normal(s), t)
    ensures Parse(s, d) == Some(t)
  {
    SqueezeShrinks(s);
    NamedExact(Normal(s), t);
    hide Named, Names, ParseParameterized, Squeeze, Upper;
  }

  /** Past the names, the parser takes the branch for its prefix. */
  lemma PastNames(s: string, u: string, d: nat)
    requires u == Normal(s) && |u| <= |s| && d < 16 && Named(u).None? && u != "VID"
    ensures Parse(s, d) == ParseParameterized(s, u, d)
  {
    hide Named, ParseParameterized, Squeeze, Upper;
  }

  lemma ElementBackward(s: string, x: string, w: string, c: string, r: string, d: nat, t: DataType)
    requires HasElement(t) && d < 16 && Opens(s, WordOf(t), x, w, c, r) && ElementReads(c, r, d, t)
    ensures Parse(s, d) == Some(t)
    decreases t, 0
  {
    hide Normal, Reads, Opens, WordOf, Word, StartsWith, Parse, ParseParameterized, Trim, ParseLength, LengthText;
    hide Blank, TakeAngle, Named;
    var u := Normal(s);
    NormalShrinks(s);
    WordOfIsWord(t);
    OpensStarts(s, WordOf(t), x, w, c, r);
    OpenBranch(s, u, d, t);
    PastNames(s, u, d);
    ReadsParse(c, d + 1, t.element);
    if t.Array? {
      LengthExact(r, t.len);
    } else {
      TrimBlank(r);
      TrimBlank(c);
      if Blank(c) {
        BlankIsNoType(c, d + 1);
      }
    }
  }

  lemma NormalShrinks(s: string)
    ensures |Normal(s)| <= |s|
  {
    SqueezeShrinks(s);
  }

  lemma FieldBackward(part: string, d: nat, bound: nat, f: Field)
    requires |part| < bound && FieldReads(part, d, f)
    ensures ParseField(part, d, bound) == Some(f)
    decreases f, 3
  {
    hide Reads, FieldAs, Parse, Trim, FieldFrom, ParseField;
    var b, g, ty :| FieldAs(part, f.name, b, g, ty) && Reads(ty, d + 1, f.ty);
    ReadsParse(ty, d + 1, f.ty);
    FieldFromText(part, d, f, b, g, ty);
    FieldIs(part, d, bound);
  }

  lemma StructBackward(s: string, x: string, w: string, c: string, r: string, ps: seq<string>, d: nat, t: DataType)
    requires t.Struct? && d < 16 && Opens(s, "STRUCT", x, w, c, r) && StructReads(c, r, ps, d, t)
    ensures Parse(s, d) == Some(t)
    decreases t, 0
  {
    hide Normal, FieldReads, Opens, Word, StartsWith, Parse, ParseParameterized, Trim, ParseFields, ParseField;
    hide Blank, TakeAngle, Named, Pieces, Split;
    var u := Normal(s);
    NormalShrinks(s);
    WordOfIsWord(t);
    OpensStarts(s, "STRUCT", x, w, c, r);
    OpenBranch(s, u, d, t);
    PastNames(s, u, d);
    TrimBlank(r);
    PiecesSplit(c, ps);
    assert forall i :: 0 <= i < |ps| ==> |ps[i]| < |s|;
    forall i | 0 <= i < |ps| ensures ParseField(ps[i], d, |s|) == Some(t.fields[i]) {
      FieldBackward(ps[i], d, |s|, t.fields[i]);
    }
    FieldsEach(ps, d, |s|, t.fields);
    assert t.fields != [] by {
      PiecesSome(c, ps);
    }
  }

  lemma PiecesSome(c: string, ps: seq<string>)
    requires Pieces(c, ps)
    ensures ps != []
  {
  }

  lemma UnionBackward(s: string, x: string, ps: seq<string>, d: nat, t: DataType)
    requires t.Union? && d < 16 && Normal(s) == "UNION(" + (x + ")") && UnionReads(x, ps, d, t)
    ensures Parse(s, d) == Some(t)
    decreases t, 0
  {
    hide Normal, Reads, Parse, ParseParameterized, Named, Pieces, Split, NonBlank, ParseMembers;
    var u := Normal(s);
    NormalShrinks(s);
    forall i | 0 <= i < |t.types| ensures Parse(NonBlank(ps)[i], d + 1) == Some(t.types[i]) {
      ReadsParse(NonBlank(ps)[i], d + 1, t.types[i]);
    }
    PiecesSplit(x, ps);
    assert |x| < |s| && forall i :: 0 <= i < |ps| ==> |ps[i]| < |s|;
    MembersEach(ps, d, |s|, t.types);
    UnionBranch(s, u, x, d);
    PastNames(s, u, d);
  }

  lemma UnionBranch(s: string, u: string, x: string, d: nat)
    requires u == "UNION(" + (x + ")") && |u| <= |s|
    ensures Named(u).None? && u != "VID" && |x| + 1 < |s| && ParseParameterized(s, u, d) == ParseUnion(x + ")", d, |s|)
    ensures Inner(x + ")") == Some(x)
  {
    var r := "(" + (x + ")");
    assert u == "UNION" + r && u[5] == '(';
    InnerText(x);
    ParenIsNoName(u, 5);
    AngleTests("UNION", r);
    WordTests("UNION", r);
    AfterOpen("UNION", x, "UNION(");
    hide Named, StartsWith, AfterPrefix, ParseUnion;
  }

  /** Whatever is in the language is parsed, to the type it stands for. */
  lemma {:induction false} ReadsParse(s: string, d: nat, t: DataType)
    requires Reads(s, d, t)
    ensures Parse(s, d) == Some(t)
    decreases t, 1
  {
    hide Normal, Opens, StructReads, UnionReads, ElementReads, WordOf, Parse, Names, SizedText, DecimalAs;
    if t.Struct? {
      var x, w, c, r, ps :| Opens(s, "STRUCT", x, w, c, r) && StructReads(c, r, ps, d, t);
      StructBackward(s, x, w, c, r, ps, d, t);
    } else if t.Union? {
      var x, ps :| Normal(s) == "UNION(" + (x + ")") && UnionReads(x, ps, d, t);
      UnionBackward(s, x, ps, d, t);
    } else if Sized(t) || t.Decimal? {
      LeafBackward(s, d, t);
    } else if Names(Normal(s), t) {
      NamesParse(s, d, t);
    } else {
      var x, w, c, r :| Opens(s, WordOf(t), x, w, c, r) && ElementReads(c, r, d, t);
      ElementBackward(s, x, w, c, r, d, t);
    }
  }

  /** The parser accepts exactly the language: a text is parsed to a type, at any depth, if
      and only if it stands for that type. */
  lemma ParserIsGrammar(s: string, d: nat, t: DataType)
    ensures Parse(s, d) == Some(t) <==> Reads(s, d, t)
  {
    hide Parse, Reads;
    if Parse(s, d) == Some(t) {
      ParseReads(s, d);
    }
    if Reads(s, d, t) {
      ReadsParse(s, d, t);
    }
  }
}
