/**
 Vector point ids: the vertex key escaped into `{vertex}#tag#field` when a point is
 written, and recovered by two whole-string replacements when hits are fused.
 */
module PointIds {
  import opened Strings

  /** `str::replace`: left to right, occurrences do not overlap. */
  function Replace(s: string, from: string, to: string): string
    requires from != ""
  {
    if s == "" then ""
    else if StartsWith(s, from) then to + Replace(s[|from|..], from, to)
    else [s[0]] + Replace(s[1..], from, to)
  }

  /** The writer: `%` first, then the delimiter. */
  function Escape(v: string): string {
    Replace(Replace(v, "%", "%25"), "#", "%23")
  }

  function Suffix(tag: string, field: string): string {
    "#" + tag + "#" + field
  }

  /** `format_vector_point_id` */
  function Format(v: string, tag: string, field: string): string {
    Escape(v) + Suffix(tag, field)
  }

  /** `normalize_vector_point_id`; an id without the suffix is decoded all the same. */
  function Normalize(id: string, tag: string, field: string): string {
    var suffix := Suffix(tag, field);
    var encoded := if EndsWith(id, suffix) then id[..|id| - |suffix|] else id;
    Replace(Replace(encoded, "%23", "#"), "%25", "%")
  }

  // ------------------------------------------- the escapes, character by character

  function Code(c: char): string {
    if c == '%' then "%25" else if c == '#' then "%23" else [c]
  }

  function Codes(v: string): string {
    if v == "" then "" else Code(v[0]) + Codes(v[1..])
  }

  /** With the delimiter decoded and the percent sign still escaped. */
  function HalfCode(c: char): string {
    if c == '%' then "%25" else [c]
  }

  function HalfCodes(v: string): string {
    if v == "" then "" else HalfCode(v[0]) + HalfCodes(v[1..])
  }

  lemma {:induction false} PercentFirst(v: string)
    ensures Replace(v, "%", "%25") == HalfCodes(v)
  {
    if v != "" {
      PercentFirst(v[1..]);
      assert StartsWith(v, "%") <==> v[0] == '%';
    }
  }

  lemma {:induction false} DelimiterNext(v: string)
    ensures Replace(HalfCodes(v), "#", "%23") == Codes(v)
  {
    if v != "" {
      var h, rest := HalfCode(v[0]), HalfCodes(v[1..]);
      DelimiterNext(v[1..]);
      if v[0] == '%' {
        SkipPercent(rest, "#", "%23");
      } else if v[0] == '#' {
        assert StartsWith(h + rest, "#") && (h + rest)[1..] == rest;
      } else {
        assert !StartsWith(h + rest, "#") && (h + rest)[1..] == rest;
      }
    }
  }

  lemma Mismatch(s: string, p: string, k: nat)
    requires k < |p| && k < |s| && s[k] != p[k]
    ensures !StartsWith(s, p)
  {
    if |p| <= |s| {
      assert s[..|p|][k] == s[k];
    }
  }

  lemma SkipOne(c: char, rest: string, from: string, to: string)
    requires from != "" && !StartsWith([c] + rest, from)
    ensures Replace([c] + rest, from, to) == [c] + Replace(rest, from, to)
  {
    assert ([c] + rest)[1..] == rest;
  }

  /** An escaped percent sign holds no escaped or plain delimiter. */
  lemma SkipPercent(rest: string, from: string, to: string)
    requires from == "#" || from == "%23"
    ensures Replace("%25" + rest, from, to) == "%25" + Replace(rest, from, to)
  {
    var s1, s2 := ['5'] + rest, ['2'] + (['5'] + rest);
    var s3 := ['%'] + s2;
    Mismatch(s1, from, 0);
    SkipOne('5', rest, from, to);
    Mismatch(s2, from, 0);
    SkipOne('2', s1, from, to);
    Mismatch(s3, from, if from == "#" then 0 else 2);
    SkipOne('%', s2, from, to);
    assert "%25" + rest == s3;
    assert "%25" + Replace(rest, from, to) == ['%'] + (['2'] + (['5'] + Replace(rest, from, to)));
  }

  lemma EscapeIsCodes(v: string)
    ensures Escape(v) == Codes(v)
  {
    PercentFirst(v);
    DelimiterNext(v);
  }

  lemma {:induction false} DecodeDelimiter(v: string)
    ensures Replace(Codes(v), "%23", "#") == HalfCodes(v)
  {
    if v != "" {
      var rest := Codes(v[1..]);
      DecodeDelimiter(v[1..]);
      if v[0] == '%' {
        SkipPercent(rest, "%23", "#");
      } else if v[0] == '#' {
        assert StartsWith("%23" + rest, "%23") && ("%23" + rest)[3..] == rest;
      } else {
        var s := [v[0]] + rest;
        assert s[0] != '%' && !StartsWith(s, "%23") && s[1..] == rest;
      }
    }
  }

  lemma {:induction false} DecodePercent(v: string)
    ensures Replace(HalfCodes(v), "%25", "%") == v
  {
    if v != "" {
      var rest := HalfCodes(v[1..]);
      DecodePercent(v[1..]);
      if v[0] == '%' {
        assert StartsWith("%25" + rest, "%25") && ("%25" + rest)[3..] == rest;
      } else {
        var s := [v[0]] + rest;
        assert s[0] != '%' && !StartsWith(s, "%25") && s[1..] == rest;
      }
    }
  }

  /** Two whole-string replacements, in that order, undo the two that wrote the id,
      for every vertex key, tag and field. */
  lemma NormalizeFormat(v: string, tag: string, field: string)
    ensures Normalize(Format(v, tag, field), tag, field) == v
  {
    hide Replace;
    var id, suffix := Format(v, tag, field), Suffix(tag, field);
    assert EndsWith(id, suffix) && id[..|id| - |suffix|] == Escape(v);
    EscapeIsCodes(v);
    DecodeDelimiter(v);
    DecodePercent(v);
  }

  predicate Contains(s: string, p: string) {
    exists i :: 0 <= i <= |s| && StartsWith(s[i..], p)
  }

  lemma ContainsLater(s: string, p: string)
    requires s != "" && p != "" && !StartsWith(s, p)
    ensures Contains(s, p) <==> Contains(s[1..], p)
  {
    assert s[0..] == s;
    if i :| 0 <= i <= |s| && StartsWith(s[i..], p) {
      assert s[1..][i - 1..] == s[i..];
    }
    if i :| 0 <= i <= |s[1..]| && StartsWith(s[1..][i..], p) {
      assert s[i + 1..] == s[1..][i..];
    }
  }

  /** Replacing by something shorter shortens, unless there is nothing to replace. */
  lemma {:induction false} ReplaceShortens(s: string, from: string, to: string)
    requires |to| < |from|
    ensures Contains(s, from) ==> |Replace(s, from, to)| < |s|
    ensures !Contains(s, from) ==> Replace(s, from, to) == s
    decreases |s|
  {
    if s == "" {
    } else if StartsWith(s, from) {
      assert s[0..] == s;
      ReplaceShortens(s[|from|..], from, to);
    } else {
      ContainsLater(s, from);
      ReplaceShortens(s[1..], from, to);
      assert s == [s[0]] + s[1..];
    }
  }

  /** An id passes through unchanged exactly when it lacks the suffix and holds no
      escape sequence. */
  lemma NormalizeKeeps(id: string, tag: string, field: string)
    ensures Normalize(id, tag, field) == id
       <==> !EndsWith(id, Suffix(tag, field)) && !Contains(id, "%23") && !Contains(id, "%25")
  {
    hide Replace, Contains;
    var suffix := Suffix(tag, field);
    var encoded := if EndsWith(id, suffix) then id[..|id| - |suffix|] else id;
    ReplaceShortens(encoded, "%23", "#");
    ReplaceShortens(Replace(encoded, "%23", "#"), "%25", "%");
  }

  /** The document key of an edge with an escape sequence in it does not pass through. */
  lemma EdgeKeyIsDecoded()
    ensures !EndsWith("%25->b#1", Suffix("t", "f")) && Normalize("%25->b#1", "t", "f") != "%25->b#1"
  {
    var id := "%25->b#1";
    assert id[0..] == id && StartsWith(id[0..], "%25");
    assert Contains(id, "%25");
    assert Suffix("t", "f")[3] == 'f' && id[|id| - 1] == '1';
    hide Contains, Normalize;
    NormalizeKeeps(id, "t", "f");
  }

  // --------------------------------------------------------- points of an index

  predicate NoDelimiter(s: string) {
    '#' !in s
  }

  /** The last delimiter splits a string in only one way. */
  lemma LastDelimiter(a: string, b: string, c: string, d: string)
    requires NoDelimiter(b) && NoDelimiter(d) && a + "#" + b == c + "#" + d
    ensures a == c && b == d
  {
    var s, t := a + "#" + b, c + "#" + d;
    assert s[|a|] == '#' && t[|c|] == '#';
    assert forall i :: |a| < i < |s| ==> s[i] == b[i - |a| - 1];
    assert forall i :: |c| < i < |t| ==> t[i] == d[i - |c| - 1];
    assert |a| == |c|;
    assert a == s[..|a|] && c == t[..|c|] && b == s[|a| + 1..] && d == t[|c| + 1..];
  }

  /** For names without the delimiter, a point belongs to the requested index exactly
      when its id has the index's suffix. */
  lemma SuffixIdentifiesIndex(v: string, tag: string, field: string, wantedTag: string, wantedField: string)
    requires NoDelimiter(tag) && NoDelimiter(field) && NoDelimiter(wantedTag) && NoDelimiter(wantedField)
    ensures EndsWith(Format(v, tag, field), Suffix(wantedTag, wantedField))
       <==> tag == wantedTag && field == wantedField
  {
    hide Escape;
    var id, suffix := Format(v, tag, field), Suffix(wantedTag, wantedField);
    if EndsWith(id, suffix) {
      var head := id[..|id| - |suffix|];
      assert id == head + suffix;
      assert id == (Escape(v) + "#" + tag) + "#" + field;
      assert id == (head + "#" + wantedTag) + "#" + wantedField;
      LastDelimiter(Escape(v) + "#" + tag, field, head + "#" + wantedTag, wantedField);
      LastDelimiter(Escape(v), tag, head, wantedTag);
    }
  }

  lemma EscapedHasNoDelimiter(v: string)
    ensures NoDelimiter(Escape(v))
  {
    EscapeIsCodes(v);
    CodesHaveNoDelimiter(v);
  }

  lemma {:induction false} CodesHaveNoDelimiter(v: string)
    ensures NoDelimiter(Codes(v))
    decreases |v|
  {
    if v != "" {
      CodesHaveNoDelimiter(v[1..]);
    }
  }

  /** With any names, a point is kept exactly when the suffix of its own index ends
      with the suffix of the requested one. */
  lemma SuffixExact(v: string, tag: string, field: string, wantedTag: string, wantedField: string)
    ensures EndsWith(Format(v, tag, field), Suffix(wantedTag, wantedField))
       <==> EndsWith(Suffix(tag, field), Suffix(wantedTag, wantedField))
  {
    hide Escape;
    EscapedHasNoDelimiter(v);
    var e, own, wanted := Escape(v), Suffix(tag, field), Suffix(wantedTag, wantedField);
    var id := Format(v, tag, field);
    assert id == e + own;
    assert forall i :: 0 <= i < |e| ==> id[i] == e[i] && e[i] in e;
    if EndsWith(id, wanted) {
      var k := |id| - |wanted|;
      assert id[k] == wanted[0] == '#';
      assert own[k - |e|..] == id[k..];
    }
    if EndsWith(own, wanted) {
      assert id[|id| - |wanted|..] == own[|own| - |wanted|..];
    }
  }

  /** With a delimiter in a name, points of another index are kept too. */
  lemma DelimiterInNameConfuses()
    ensures EndsWith(Format("v", "a#b", "c"), Suffix("b", "c"))
  {
    assert Suffix("a#b", "c") == "#a" + Suffix("b", "c");
    assert Format("v", "a#b", "c") == (Escape("v") + "#a") + Suffix("b", "c");
  }
}
