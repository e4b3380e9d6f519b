/**
 The parser as it runs: scanning loops over the characters, a loop over the fields of a
 STRUCT and one over the members of a UNION, each proved to compute the function the
 laws of the parser are stated about.
 */
module ParserLoops {
  import opened Options
  import opened Strings
  import opened DataTypes
  import opened TypeText
  import opened TypeParser

  /** `take_angle_brackets`: find the first bracket, then count to the one closing it. */
  method TakeAngleBrackets(input: string) returns (r: Option<Cut>)
    ensures r == TakeAngle(input)
  {
    var open := 0;
    assert input[0..] == input;
    while open < |input| && input[open] != '<'
      invariant 0 <= open <= |input|
      invariant TakeAngle(input) == TakeAngle(input[open..])
    {
      assert input[open..][1..] == input[open + 1..];
      open := open + 1;
    }
    if open == |input| {
      return None;
    }
    var body := input[open + 1..];
    assert input[open..][1..] == body;
    r := CloseBracket(body);
  }

  /** The text before the bracket that closes the one already open. */
  method CloseBracket(s: string) returns (r: Option<Cut>)
    ensures r == CloseAngle(s, 0)
  {
    var depth: nat := 0;
    assert s[0..] == s;
    LeadAllEmpty(CloseAngle(s, 0));
    for i := 0 to |s|
      invariant CloseAngle(s, 0) == LeadAll(s[..i], CloseAngle(s[i..], depth))
    {
      assert s[i..][1..] == s[i + 1..] && s[..i + 1] == s[..i] + [s[i]];
      if s[i] == '>' && depth == 0 {
        assert s[..i] + "" == s[..i];
        return Some(Cut(s[..i], s[i + 1..]));
      }
      var next := if s[i] == '<' then depth + 1 else if s[i] == '>' then depth - 1 else depth;
      LeadAllSnoc(s[..i], s[i], CloseAngle(s[i + 1..], next));
      depth := next;
    }
    r := None;
  }

  lemma LeadAllSnoc(a: string, c: char, r: Option<Cut>)
    ensures LeadAll(a, Lead(c, r)) == LeadAll(a + [c], r)
  {
    if r.Some? {
      assert a + ([c] + r.value.content) == a + [c] + r.value.content;
    }
  }

  /** `split_top_level_commas` */
  method SplitTopLevelCommas(s: string) returns (parts: seq<string>)
    ensures parts == Split(s, 0)
  {
    parts := [];
    var depth: nat, start := 0, 0;
    hide Split, Weld, Front, Next;
    assert s[0..] == s;
    WeldEmpty(Split(s, 0));
    for i := 0 to |s|
      invariant 0 <= start <= i
      invariant Split(s, 0) == parts + Weld([s[start..i]], Split(s[i..], depth))
    {
      SplitStep(s, start, i, depth);
      if s[i] == ',' && depth == 0 {
        AppendPiece(parts, s[start..i], Weld([s[i + 1..i + 1]], Split(s[i + 1..], 0)));
        parts := parts + [s[start..i]];
        start := i + 1;
      } else {
        depth := Next(s[i], depth);
      }
    }
    LastPiece(s[start..], depth);
    assert s[start..|s|] == s[start..] && s[|s|..] == "";
    parts := parts + [s[start..]];
  }

  lemma AppendPiece(parts: seq<string>, x: string, rest: seq<string>)
    ensures parts + ([x] + rest) == parts + [x] + rest
  {
  }

  lemma LastPiece(x: string, depth: nat)
    ensures Weld([x], Split("", depth)) == [x]
  {
    assert x + "" == x;
  }

  /** One more character: it ends the piece or joins it. */
  lemma SplitStep(s: string, start: nat, i: nat, depth: nat)
    requires start <= i < |s|
    ensures Weld([s[start..i]], Split(s[i..], depth)) ==
            if s[i] == ',' && depth == 0 then [s[start..i]] + Weld([s[i + 1..i + 1]], Split(s[i + 1..], 0))
            else Weld([s[start..i + 1]], Split(s[i + 1..], Next(s[i], depth)))
  {
    var rest := Split(s[i + 1..], Next(s[i], depth));
    assert s[i..][1..] == s[i + 1..] && s[start..i + 1] == s[start..i] + [s[i]] && s[i + 1..i + 1] == "";
    hide Weld, Front;
    WeldComma(s[start..i], rest);
    WeldOne(s[start..i], s[i], rest);
  }

  lemma WeldComma(x: string, rest: seq<string>)
    requires rest != []
    ensures Weld([x], [""] + rest) == [x] + Weld([""], rest)
  {
    assert x + "" == x && "" + rest[0] == rest[0];
  }

  lemma WeldOne(x: string, c: char, rest: seq<string>)
    requires rest != []
    ensures Weld([x], Front(c, rest)) == Weld([x + [c]], rest)
  {
    assert x + ([c] + rest[0]) == x + [c] + rest[0];
  }

  /** `parse_type` and `parse_parameterized` */
  method ParseType(input: string, depth: nat) returns (r: Option<DataType>)
    ensures r == Parse(input, depth)
    decreases |input|, 3, 0
  {
    if depth >= MAX_DEPTH {
      return None;
    }
    SqueezeShrinks(input);
    var upper := Upper(Squeeze(input));
    hide Upper, Squeeze, Named, StartsWith, TakeAngle, Trim, AfterPrefix;
    r := Named(upper);
    if r.Some? || upper == "VID" {
      return;
    }
    if StartsWith(upper, "LIST<") || StartsWith(upper, "MAP<") || StartsWith(upper, "SET<") {
      var element := ParseElementType(input, depth);
      if element.None? {
        return None;
      } else if StartsWith(upper, "LIST<") {
        return Some(List(element.value));
      } else if StartsWith(upper, "MAP<") {
        return Some(Map(element.value));
      } else {
        return Some(Set(element.value));
      }
    } else if StartsWith(upper, "STRUCT<") {
      r := ParseStructType(input, depth);
    } else if StartsWith(upper, "ARRAY<") {
      r := ParseArrayType(input, depth);
    } else if StartsWith(upper, "DECIMAL(") {
      r := ParseDecimal(AfterPrefix(upper, "DECIMAL("));
    } else if StartsWith(upper, "UNION(") {
      r := ParseUnionType(input, upper, depth);
    } else {
      r := ParseSized(upper);
    }
  }

  method ParseElementType(input: string, depth: nat) returns (r: Option<DataType>)
    ensures r == ParseElement(input, depth)
    decreases |input|, 2, 0
  {
    var cut := TakeAngleBrackets(input);
    if cut.None? || Trim(cut.value.rest) != "" || Trim(cut.value.content) == "" {
      return None;
    }
    r := ParseType(cut.value.content, depth + 1);
  }

  method ParseArrayType(input: string, depth: nat) returns (r: Option<DataType>)
    ensures r == ParseArray(input, depth)
    decreases |input|, 2, 0
  {
    var cut := TakeAngleBrackets(input);
    if cut.None? {
      return None;
    }
    var element := ParseType(cut.value.content, depth + 1);
    var len := ParseLength(cut.value.rest);
    r := if element.None? || len.None? then None else Some(Array(element.value, len.value));
  }

  /** `parse_struct_fields`, after the brackets are taken off. */
  method ParseStructType(input: string, depth: nat) returns (r: Option<DataType>)
    ensures r == ParseStruct(input, depth)
    decreases |input|, 2, 0
  {
    var cut := TakeAngleBrackets(input);
    if cut.None? || Trim(cut.value.rest) != "" {
      return None;
    }
    var parts := SplitTopLevelCommas(cut.value.content);
    var fields: seq<Field> := [];
    AfterNone(ParseFields(parts, depth, |input|));
    assert parts[0..] == parts;
    for i := 0 to |parts|
      invariant ParseFields(parts, depth, |input|) == After(fields, ParseFields(parts[i..], depth, |input|))
    {
      assert parts[i..][1..] == parts[i + 1..];
      var field := ParseFieldType(parts[i], depth, |input|);
      if field.None? {
        return None;
      }
      AfterSnoc(fields, field.value, ParseFields(parts[i + 1..], depth, |input|));
      fields := fields + [field.value];
    }
    assert fields + [] == fields;
    r := if fields == [] then None else Some(Struct(fields));
  }

  /** The results collected so far, before those still to come. */
  ghost function After<T>(done: seq<T>, rest: Option<seq<T>>): Option<seq<T>> {
    if rest.None? then None else Some(done + rest.value)
  }

  lemma AfterNone<T>(rest: Option<seq<T>>)
    ensures After([], rest) == rest
  {
    if rest.Some? {
      assert [] + rest.value == rest.value;
    }
  }

  lemma AfterSnoc<T>(done: seq<T>, x: T, rest: Option<seq<T>>)
    ensures After(done, if rest.None? then None else Some([x] + rest.value)) == After(done + [x], rest)
  {
    if rest.Some? {
      assert done + ([x] + rest.value) == done + [x] + rest.value;
    }
  }

  method ParseFieldType(part: string, depth: nat, ghost bound: nat) returns (r: Option<Field>)
    requires |part| < bound
    ensures r == ParseField(part, depth, bound)
    decreases bound, 1, 0
  {
    TrimShrinks(part);
    var p := Trim(part);
    var name := FirstWord(p);
    if p == "" || |name| == |p| {
      return None;
    }
    TrimShrinks(p[|name| + 1..]);
    var ty := Trim(p[|name| + 1..]);
    if name == "" || ty == "" {
      return None;
    }
    var t := ParseType(ty, depth + 1);
    r := if t.None? then None else Some(Field(name, t.value));
  }

  method ParseUnionType(input: string, upper: string, depth: nat) returns (r: Option<DataType>)
    requires |upper| <= |input| && StartsWith(upper, "UNION(")
    ensures r == ParseUnion(AfterPrefix(upper, "UNION("), depth, |input|)
    decreases |input|, 2, 0
  {
    var inner := Inner(AfterPrefix(upper, "UNION("));
    if inner.None? {
      return None;
    }
    var parts := SplitTopLevelCommas(inner.value);
    var types: seq<DataType> := [];
    AfterNone(ParseMembers(parts, depth, |input|));
    assert parts[0..] == parts;
    for i := 0 to |parts|
      invariant ParseMembers(parts, depth, |input|) == After(types, ParseMembers(parts[i..], depth, |input|))
    {
      assert parts[i..][1..] == parts[i + 1..];
      TrimShrinks(parts[i]);
      var part := Trim(parts[i]);
      if part != "" {
        var t := ParseType(part, depth + 1);
        if t.None? {
          return None;
        }
        AfterSnoc(types, t.value, ParseMembers(parts[i + 1..], depth, |input|));
        types := types + [t.value];
      }
    }
    assert types + [] == types;
    r := if types == [] then None else Some(Union(types));
  }
}
