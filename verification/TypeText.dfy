/**
 The string operations of the type parser (whitespace, case, brackets, commas,
 decimal numbers) and the laws the parser's correctness rests on.
 */
module TypeText {
  import opened Options

  // ------------------------------------------------------------- characters

  /** `char::is_whitespace` */
  predicate IsSpace(c: char) {
    || c == ' ' || ('\t' <= c <= '\r') || c == '\U{0085}' || c == '\U{00A0}' || c == '\U{1680}'
    || ('\U{2000}' <= c <= '\U{200A}') || c == '\U{2028}' || c == '\U{2029}' || c == '\U{202F}'
    || c == '\U{205F}' || c == '\U{3000}'
  }

  function UpperChar(c: char): char {
    if 'a' <= c <= 'z' then 'A' + (c - 'a') else c
  }

  /** `to_ascii_uppercase` */
  function Upper(s: string): (r: string)
    ensures |r| == |s| && forall i :: 0 <= i < |s| ==> r[i] == UpperChar(s[i])
  {
    seq(|s|, i requires 0 <= i < |s| => UpperChar(s[i]))
  }

  lemma UpperConcat(a: string, b: string)
    ensures Upper(a + b) == Upper(a) + Upper(b)
  {
  }

  // --------------------------------------------------------------- whitespace

  function FirstWord(s: string): (w: string)
    ensures |w| <= |s| && w == s[..|w|] && forall i :: 0 <= i < |w| ==> !IsSpace(w[i])
    ensures |w| < |s| ==> IsSpace(s[|w|])
  {
    if s == "" || IsSpace(s[0]) then ""
    else
      var w := FirstWord(s[1..]);
      assert s[..|w| + 1] == [s[0]] + s[1..][..|w|];
      [s[0]] + w
  }

  /** `split_whitespace` */
  function Words(s: string): seq<string> {
    if s == "" then []
    else if IsSpace(s[0]) then Words(s[1..])
    else [FirstWord(s)] + Words(s[|FirstWord(s)|..])
  }

  function JoinWords(ws: seq<string>): string {
    if ws == [] then "" else if |ws| == 1 then ws[0] else ws[0] + " " + JoinWords(ws[1..])
  }

  /** Whitespace runs collapsed to one space, none at the ends. */
  function Squeeze(s: string): string {
    JoinWords(Words(s))
  }

  lemma {:induction false} SqueezeShrinks(s: string)
    ensures |Squeeze(s)| <= |s|
    ensures s != "" && IsSpace(s[0]) ==> |Squeeze(s)| < |s|
    decreases |s|
  {
    if s != "" && IsSpace(s[0]) {
      SqueezeShrinks(s[1..]);
    } else if s != "" {
      var w := FirstWord(s);
      var rest := s[|w|..];
      assert w != "";
      SqueezeShrinks(rest);
      if Words(rest) != [] {
        assert JoinWords(Words(s)) == w + " " + JoinWords(Words(rest)) by {
          assert Words(s)[1..] == Words(rest);
        }
        assert rest != "" && IsSpace(rest[0]);
      }
    }
  }

  /** Reads the text with `afterSpace` telling whether a space came just before:
      `None` at a tab, a newline or a second space. */
  function Tidy(s: string, afterSpace: bool): Option<bool> {
    if s == "" then Some(afterSpace)
    else if !IsSpace(s[0]) then Tidy(s[1..], false)
    else if s[0] == ' ' && !afterSpace then Tidy(s[1..], true)
    else None
  }

  lemma {:induction false} TidyConcat(a: string, b: string, p: bool)
    ensures Tidy(a + b, p) == match Tidy(a, p) case None => None case Some(q) => Tidy(b, q)
    decreases |a|
  {
    if a == "" {
      assert a + b == b;
    } else {
      assert (a + b)[1..] == a[1..] + b;
      TidyConcat(a[1..], b, false);
      TidyConcat(a[1..], b, true);
    }
  }

  predicate Solid(s: string) {
    s != "" && forall i :: 0 <= i < |s| ==> !IsSpace(s[i])
  }

  lemma {:induction false} SolidIsTidy(s: string, p: bool)
    requires Solid(s)
    ensures Tidy(s, p) == Some(false)
    decreases |s|
  {
    if |s| > 1 {
      SolidIsTidy(s[1..], false);
    }
  }

  /** Single spaces inside, none at the ends. */
  predicate Neat(s: string) {
    Tidy(s, true) == Some(false)
  }

  lemma WordsOfSolid(w: string, rest: string)
    requires Solid(w) && (rest == "" || IsSpace(rest[0]))
    ensures Words(w + rest) == [w] + Words(rest)
  {
    FirstWordOf(w, rest);
    assert (w + rest)[|w|..] == rest;
  }

  lemma {:induction false} FirstWordOf(w: string, rest: string)
    requires (forall i :: 0 <= i < |w| ==> !IsSpace(w[i])) && (rest == "" || IsSpace(rest[0]))
    ensures FirstWord(w + rest) == w
    decreases |w|
  {
    if w == "" {
      assert w + rest == rest;
    } else {
      assert (w + rest)[1..] == w[1..] + rest;
      FirstWordOf(w[1..], rest);
    }
  }

  /** Neat text is already squeezed. */
  lemma {:induction false} SqueezeNeat(s: string)
    requires Neat(s)
    ensures Squeeze(s) == s && Words(s) != []
    decreases |s|
  {
    var w := FirstWord(s);
    var rest := s[|w|..];
    assert s == w + rest && w != "";
    TidyConcat(w, rest, true);
    SolidIsTidy(w, true);
    WordsOfSolid(w, rest);
    if rest != "" {
      var more := rest[1..];
      assert Tidy(more, true) == Some(false);
      SqueezeNeat(more);
      hide Words, Tidy, FirstWord;
      assert Words(rest) == Words(more) by {
        WordsSkip(rest);
      }
      assert s == w + " " + more;
      assert ([w] + Words(more))[1..] == Words(more);
    }
  }

  lemma WordsSkip(s: string)
    requires s != "" && IsSpace(s[0])
    ensures Words(s) == Words(s[1..])
  {
  }

  function TrimStart(s: string): string {
    if s != "" && IsSpace(s[0]) then TrimStart(s[1..]) else s
  }

  function TrimEnd(s: string): string {
    if s != "" && IsSpace(s[|s| - 1]) then TrimEnd(s[..|s| - 1]) else s
  }

  function Trim(s: string): string {
    TrimEnd(TrimStart(s))
  }

  lemma {:induction false} TrimShrinks(s: string)
    ensures |TrimStart(s)| <= |s| && |TrimEnd(s)| <= |s| && |Trim(s)| <= |s|
    decreases |s|
  {
    TrimStartShrinks(s);
    TrimEndShrinks(s);
    TrimEndShrinks(TrimStart(s));
  }

  lemma {:induction false} TrimStartShrinks(s: string)
    ensures |TrimStart(s)| <= |s|
    decreases |s|
  {
    if s != "" && IsSpace(s[0]) {
      TrimStartShrinks(s[1..]);
    }
  }

  lemma {:induction false} TrimEndShrinks(s: string)
    ensures |TrimEnd(s)| <= |s|
    decreases |s|
  {
    if s != "" && IsSpace(s[|s| - 1]) {
      TrimEndShrinks(s[..|s| - 1]);
    }
  }

  /** No whitespace at either end. */
  predicate Trimmed(s: string) {
    s != "" && !IsSpace(s[0]) && !IsSpace(s[|s| - 1])
  }

  lemma TrimTrimmed(s: string)
    requires Trimmed(s)
    ensures Trim(s) == s && Trim(" " + s) == s
  {
    assert (" " + s)[1..] == s;
  }

  lemma {:induction false} NeatEnds(s: string, p: bool)
    requires Tidy(s, p) == Some(false) && (s != "" || p)
    ensures s != "" && !IsSpace(s[|s| - 1]) && (p ==> !IsSpace(s[0]))
    decreases |s|
  {
    if |s| > 1 {
      NeatEnds(s[1..], IsSpace(s[0]));
    }
  }

  lemma NeatIsTrimmed(s: string)
    requires Neat(s)
    ensures Trimmed(s)
  {
    NeatEnds(s, true);
  }

  // ------------------------------------------------------------ angle brackets

  /** Bracket depth after one character. */
  function Next(c: char, d: nat): nat {
    if c == '<' then d + 1 else if c == '>' && d > 0 then d - 1 else d
  }

  /** Bracket depth after the text, from depth `d`; `None` where a bracket closes that
      was not opened. */
  function Depth(s: string, d: nat): Option<nat> {
    if s == "" then Some(d)
    else if s[0] == '>' && d == 0 then None
    else Depth(s[1..], Next(s[0], d))
  }

  lemma {:induction false} DepthConcat(a: string, b: string, d: nat)
    ensures Depth(a + b, d) == match Depth(a, d) case None => None case Some(e) => Depth(b, e)
    decreases |a|
  {
    if a == "" {
      assert a + b == b;
    } else {
      assert (a + b)[1..] == a[1..] + b;
      DepthConcat(a[1..], b, Next(a[0], d));
    }
  }

  /** Every bracket opened in the text is closed in it. */
  ghost predicate Balanced(s: string) {
    forall d: nat :: Depth(s, d) == Some(d)
  }

  lemma BalancedConcat(a: string, b: string)
    requires Balanced(a) && Balanced(b)
    ensures Balanced(a + b)
  {
    forall d: nat ensures Depth(a + b, d) == Some(d) {
      DepthConcat(a, b, d);
    }
  }

  lemma BalancedAngles(s: string)
    requires Balanced(s)
    ensures Balanced("<" + s + ">")
  {
    forall d: nat ensures Depth("<" + s + ">", d) == Some(d) {
      assert Depth("<", d) == Some(d + 1);
      assert Depth(">", d + 1) == Some(d);
      DepthConcat("<", s, d);
      DepthConcat("<" + s, ">", d);
    }
  }

  predicate NoAngles(s: string) {
    forall i :: 0 <= i < |s| ==> s[i] != '<' && s[i] != '>'
  }

  lemma {:induction false} NoAnglesDepth(s: string, d: nat)
    requires NoAngles(s)
    ensures Depth(s, d) == Some(d)
    decreases |s|
  {
    if s != "" {
      NoAnglesDepth(s[1..], d);
    }
  }

  lemma NoAnglesBalanced(s: string)
    requires NoAngles(s)
    ensures Balanced(s)
  {
    forall d: nat ensures Depth(s, d) == Some(d) {
      NoAnglesDepth(s, d);
    }
  }

  lemma {:induction false} DepthShift(s: string, d: nat, e: nat, k: nat)
    requires Depth(s, d) == Some(e)
    ensures Depth(s, d + k) == Some(e + k)
    decreases |s|
  {
    if s != "" {
      DepthShift(s[1..], Next(s[0], d), e, k);
    }
  }

  /** Balance can be told from the outermost depth alone. */
  lemma ClosedIsBalanced(s: string)
    requires Depth(s, 0) == Some(0)
    ensures Balanced(s)
  {
    forall d: nat ensures Depth(s, d) == Some(d) {
      DepthShift(s, 0, 0, d);
    }
  }

  datatype Cut = Cut(content: string, rest: string)

  /** The text up to the bracket that closes depth `d`, and what follows it. */
  function CloseAngle(s: string, d: nat): (r: Option<Cut>)
    ensures r.Some? ==> |r.value.content| + |r.value.rest| < |s|
  {
    if s == "" then None
    else if s[0] == '>' && d == 0 then Some(Cut("", s[1..]))
    else Lead(s[0], CloseAngle(s[1..], Next(s[0], d)))
  }

  function Lead(c: char, r: Option<Cut>): Option<Cut> {
    if r.None? then None else Some(Cut([c] + r.value.content, r.value.rest))
  }

  function LeadAll(a: string, r: Option<Cut>): Option<Cut> {
    if r.None? then None else Some(Cut(a + r.value.content, r.value.rest))
  }

  /** `take_angle_brackets` */
  function TakeAngle(s: string): (r: Option<Cut>)
    ensures r.Some? ==> |r.value.content| + |r.value.rest| < |s|
  {
    if s == "" then None
    else if s[0] == '<' then CloseAngle(s[1..], 0)
    else TakeAngle(s[1..])
  }

  lemma LeadAllEmpty(r: Option<Cut>)
    ensures LeadAll("", r) == r
  {
    assert r.Some? ==> "" + r.value.content == r.value.content;
  }

  lemma LeadAllCons(a: string, r: Option<Cut>)
    requires a != ""
    ensures LeadAll(a, r) == Lead(a[0], LeadAll(a[1..], r))
  {
    assert r.Some? ==> [a[0]] + (a[1..] + r.value.content) == a + r.value.content;
  }

  lemma {:induction false} CloseSkips(a: string, b: string, d: nat, e: nat)
    requires Depth(a, d) == Some(e)
    ensures CloseAngle(a + b, d) == LeadAll(a, CloseAngle(b, e))
    decreases |a|
  {
    hide Lead, LeadAll;
    if a == "" {
      assert a + b == b;
      LeadAllEmpty(CloseAngle(b, e));
    } else {
      assert (a + b)[1..] == a[1..] + b;
      CloseSkips(a[1..], b, Next(a[0], d), e);
      LeadAllCons(a, CloseAngle(b, e));
    }
  }

  /** The brackets after a word enclose exactly the balanced text between them. */
  lemma {:induction false} TakeAngleWord(w: string, s: string, rest: string)
    requires NoAngles(w) && Balanced(s)
    ensures TakeAngle(w + "<" + s + ">" + rest) == Some(Cut(s, rest))
    decreases |w|
  {
    var t := w + "<" + s + ">" + rest;
    if w == "" {
      assert t == "<" + (s + (">" + rest)) && t[1..] == s + (">" + rest);
      assert Depth(s, 0) == Some(0);
      CloseSkips(s, ">" + rest, 0, 0);
      assert (">" + rest)[1..] == rest;
      assert s + "" == s;
    } else {
      TakeAngleWord(w[1..], s, rest);
      assert t[1..] == w[1..] + "<" + s + ">" + rest;
      assert t[0] == w[0];
    }
  }

  // ------------------------------------------------------------------- commas

  /** `split_top_level_commas`, from bracket depth `d`: at least one piece. */
  function Split(s: string, d: nat): (r: seq<string>)
    ensures r != []
    ensures forall i :: 0 <= i < |r| ==> |r[i]| <= |s|
  {
    if s == "" then [""]
    else if s[0] == ',' && d == 0 then [""] + Split(s[1..], 0)
    else Front(s[0], Split(s[1..], Next(s[0], d)))
  }

  /** The character put before the first piece. */
  function Front(c: char, r: seq<string>): (p: seq<string>)
    requires r != []
    ensures |p| == |r| && p[0] == [c] + r[0] && forall i :: 1 <= i < |r| ==> p[i] == r[i]
  {
    [[c] + r[0]] + r[1..]
  }

  /** Two lists of pieces with the pieces that meet joined. */
  function Weld(a: seq<string>, b: seq<string>): (r: seq<string>)
    requires a != [] && b != []
    ensures |r| == |a| + |b| - 1
  {
    a[..|a| - 1] + [a[|a| - 1] + b[0]] + b[1..]
  }

  lemma WeldEmpty(y: seq<string>)
    requires y != []
    ensures Weld([""], y) == y
  {
    assert "" + y[0] == y[0];
  }

  lemma WeldCons(p: string, x: seq<string>, y: seq<string>)
    requires x != [] && y != []
    ensures Weld([p] + x, y) == [p] + Weld(x, y)
  {
  }

  lemma WeldFront(c: char, x: seq<string>, y: seq<string>)
    requires x != [] && y != []
    ensures Weld(Front(c, x), y) == Front(c, Weld(x, y))
  {
    if |x| == 1 {
      assert [c] + x[0] + y[0] == [c] + (x[0] + y[0]);
    }
  }

  lemma {:induction false} SplitConcat(a: string, b: string, d: nat, e: nat)
    requires Depth(a, d) == Some(e)
    ensures Split(a + b, d) == Weld(Split(a, d), Split(b, e))
    decreases |a|
  {
    hide Weld, Front;
    var y := Split(b, e);
    if a == "" {
      assert a + b == b;
      WeldEmpty(y);
    } else {
      assert (a + b)[1..] == a[1..] + b && (a + b)[0] == a[0];
      SplitConcat(a[1..], b, Next(a[0], d), e);
      var x := Split(a[1..], Next(a[0], d));
      WeldCons("", x, y);
      WeldFront(a[0], x, y);
    }
  }

  lemma SplitBalanced(a: string, b: string)
    requires Balanced(a)
    ensures Split(a + b, 0) == Weld(Split(a, 0), Split(b, 0))
  {
    hide Split, Weld;
    assert Depth(a, 0) == Some(0);
    SplitConcat(a, b, 0, 0);
  }

  predicate NoCommas(s: string) {
    ',' !in s
  }

  lemma {:induction false} SplitNoCommas(s: string, d: nat)
    requires NoCommas(s)
    ensures Split(s, d) == [s]
    decreases |s|
  {
    if s != "" {
      SplitNoCommas(s[1..], Next(s[0], d));
      assert [s[0]] + s[1..] == s;
    }
  }

  /** Commas do not split where the brackets around them are still open. */
  lemma {:induction false} SplitDeep(s: string, base: nat)
    requires Depth(s, base).Some?
    ensures Split(s, base + 1) == [s]
    decreases |s|
  {
    if s != "" {
      assert Next(s[0], base + 1) == Next(s[0], base) + 1;
      SplitDeep(s[1..], Next(s[0], base));
      assert [s[0]] + s[1..] == s;
    }
  }

  lemma FrontOne(c: char, s: string)
    ensures Front(c, [s]) == [[c] + s]
  {
  }

  lemma WeldOnes(a: string, b: string)
    ensures Weld([a], [b]) == [a + b]
  {
  }

  /** Balanced text in brackets is one piece. */
  lemma SplitAngles(s: string)
    requires Balanced(s)
    ensures Split("<" + s + ">", 0) == ["<" + s + ">"]
  {
    var t := "<" + s + ">";
    assert Depth(s, 0) == Some(0) && Depth(s, 1) == Some(1);
    assert t[1..] == s + ">" && t[0] == '<' && "<" + (s + ">") == t;
    assert Split(t, 0) == Front('<', Split(t[1..], 1));
    hide Split, Weld, Front;
    SplitDeep(s, 0);
    SplitConcat(s, ">", 1, 1);
    SplitNoCommas(">", 1);
    WeldOnes(s, ">");
    FrontOne('<', s + ">");
  }
}
