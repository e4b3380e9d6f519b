/**
 The type parser (`DataType::from_str`), documented as the exact mirror of the
 printer. The types that really survive printing and parsing are determined exactly.
 Error values are reduced to `None`.
 */
module TypeParser {
  import opened Integers
  import opened Options
  import opened Strings
  import opened DataTypes
  import opened TypeText
  import Print = TypeDisplay

  const MAX_DEPTH := 16

  // ------------------------------------------------------------------ numbers

  function Value(s: string): nat
    requires forall i :: 0 <= i < |s| ==> Print.IsDigit(s[i])
  {
    if s == "" then 0 else assert Print.IsDigit(s[|s| - 1]); 10 * Value(s[..|s| - 1]) + (s[|s| - 1] as int - '0' as int)
  }

  predicate AllDigits(s: string) {
    s != "" && forall i :: 0 <= i < |s| ==> Print.IsDigit(s[i])
  }

  function ParseSize(s: string): Option<Usize> {
    if AllDigits(s) && Value(s) < 0x1_0000_0000_0000_0000 then Some(Value(s)) else None
  }

  /** `str::parse::<u8>`: one leading plus sign is allowed. */
  function ParseByte(s: string): Option<Byte> {
    var digits := if s != "" && s[0] == '+' then s[1..] else s;
    if AllDigits(digits) && Value(digits) < 256 then Some(Value(digits)) else None
  }

  lemma {:induction false} DigitsValue(n: nat)
    ensures AllDigits(Print.Digits(n)) && Value(Print.Digits(n)) == n
  {
    if n >= 10 {
      DigitsValue(n / 10);
      var s := Print.Digits(n);
      assert s[..|s| - 1] == Print.Digits(n / 10);
    }
  }

  // --------------------------------------------------------------- the parser

  /** The names without parameters, with their aliases. */
  function Named(u: string): Option<DataType> {
    if u == "EMPTY" then Some(Scalar(Empty))
    else if u == "UNKNOWN" then Some(Scalar(Unknown))
    else if u == "NULL" then Some(Scalar(Null))
    else if u == "BOOL" || u == "BOOLEAN" then Some(Scalar(Bool))
    else if u == "SMALLINT" || u == "INT2" then Some(Scalar(SmallInt))
    else if u == "INT" || u == "INTEGER" || u == "INT4" || u == "INT16" || u == "INT32" then Some(Scalar(Int))
    else if u == "BIGINT" || u == "INT8" || u == "INT64" then Some(Scalar(BigInt))
    else if u == "FLOAT" || u == "FLOAT4" || u == "REAL" then Some(Scalar(Float))
    else if u == "DOUBLE" || u == "FLOAT8" || u == "DOUBLE PRECISION" then Some(Scalar(Double))
    else NamedMore(u)
  }

  function NamedMore(u: string): Option<DataType> {
    if u == "DECIMAL128" then Some(Scalar(Decimal128))
    else if u == "STRING" || u == "VARCHAR" || u == "TEXT" || u == "STR" then Some(Scalar(String))
    else if u == "DATE" then Some(Scalar(Date))
    else if u == "TIME" then Some(Scalar(Time))
    else if u == "DATETIME" || u == "TIMESTAMP" then Some(Scalar(DateTime))
    else if u == "VERTEX" then Some(Scalar(Vertex))
    else if u == "EDGE" then Some(Scalar(Edge))
    else if u == "PATH" then Some(Scalar(Path))
    else NamedRest(u)
  }

  function NamedRest(u: string): Option<DataType> {
    if u == "LIST" then Some(List(EmptyType))
    else if u == "MAP" then Some(Map(EmptyType))
    else if u == "SET" then Some(Set(EmptyType))
    else if u == "GEOGRAPHY" then Some(Scalar(Geography))
    else if u == "DATASET" then Some(Scalar(DataSet))
    else if u == "BLOB" then Some(Scalar(Blob))
    else if u == "VECTOR" then Some(Scalar(Vector))
    else if u == "JSON" then Some(Scalar(Json))
    else if u == "JSONB" then Some(Scalar(JsonB))
    else if u == "UUID" then Some(Scalar(Uuid))
    else if u == "INTERVAL" then Some(Scalar(Interval))
    else None
  }

  /** `parse_type` */
  function Parse(s: string, depth: nat): Option<DataType>
    decreases |s|, 3, 0
  {
    if depth >= MAX_DEPTH then None
    else
      SqueezeShrinks(s);
      var upper := Upper(Squeeze(s));
      if Named(upper).Some? then Named(upper)
      else if upper == "VID" then None
      else ParseParameterized(s, upper, depth)
  }

  function AfterPrefix(u: string, p: string): string
    requires StartsWith(u, p)
  {
    u[|p|..]
  }

  /** `parse_parameterized`: brackets are looked for in the text as given, the other
      forms are read from its uppercase form. */
  function ParseParameterized(s: string, u: string, depth: nat): Option<DataType>
    requires |u| <= |s|
    decreases |s|, 2, 0
  {
    if StartsWith(u, "LIST<") then MapOption(ParseElement(s, depth), e => List(e))
    else if StartsWith(u, "MAP<") then MapOption(ParseElement(s, depth), e => Map(e))
    else if StartsWith(u, "SET<") then MapOption(ParseElement(s, depth), e => Set(e))
    else if StartsWith(u, "STRUCT<") then ParseStruct(s, depth)
    else if StartsWith(u, "ARRAY<") then ParseArray(s, depth)
    else if StartsWith(u, "DECIMAL(") then ParseDecimal(AfterPrefix(u, "DECIMAL("))
    else if StartsWith(u, "UNION(") then ParseUnion(AfterPrefix(u, "UNION("), depth, |s|)
    else ParseSized(u)
  }

  function MapOption(o: Option<DataType>, f: DataType -> DataType): Option<DataType> {
    if o.Some? then Some(f(o.value)) else None
  }

  function ParseElement(s: string, depth: nat): Option<DataType>
    decreases |s|, 1, 0
  {
    match TakeAngle(s)
    case None => None
    case Some(cut) =>
      if Trim(cut.rest) != "" || Trim(cut.content) == "" then None
      else Parse(cut.content, depth + 1)
  }

  function ParseStruct(s: string, depth: nat): Option<DataType>
    decreases |s|, 1, 0
  {
    match TakeAngle(s)
    case None => None
    case Some(cut) =>
      if Trim(cut.rest) != "" then None
      else
        match ParseFields(Split(cut.content, 0), depth, |s|)
        case None => None
        case Some(fields) => if fields == [] then None else Some(Struct(fields))
  }

  function ParseArray(s: string, depth: nat): Option<DataType>
    decreases |s|, 1, 0
  {
    match TakeAngle(s)
    case None => None
    case Some(cut) =>
      match (Parse(cut.content, depth + 1), ParseLength(cut.rest))
      case (Some(e), Some(len)) => Some(Array(e, len))
      case _ => None
  }

  /** `parse_optional_length`: outer `None` is an error, inner `None` no length. */
  function ParseLength(rest: string): Option<Option<Usize>> {
    var r := Trim(rest);
    if r == "" then Some(None)
    else if |r| >= 2 && r[0] == '(' && r[|r| - 1] == ')' then
      match ParseSize(Trim(r[1..|r| - 1]))
      case None => None
      case Some(n) => Some(Some(n))
    else None
  }

  /** The parameters up to the closing parenthesis at the very end. */
  function Inner(rest: string): Option<string> {
    if rest != "" && rest[|rest| - 1] == ')' then Some(rest[..|rest| - 1]) else None
  }

  /** `str::split(',')` */
  function SplitAll(s: string): (r: seq<string>)
    ensures r != []
  {
    if s == "" then [""]
    else if s[0] == ',' then [""] + SplitAll(s[1..])
    else
      var r := SplitAll(s[1..]);
      [[s[0]] + r[0]] + r[1..]
  }

  function ParseDecimal(rest: string): Option<DataType> {
    match Inner(rest)
    case None => None
    case Some(inner) =>
      var parts := SplitAll(inner);
      if |parts| != 2 then None
      else
        match (ParseByte(Trim(parts[0])), ParseByte(Trim(parts[1])))
        case (Some(p), Some(s)) => Some(Decimal(p, s))
        case _ => None
  }

  function ParseUnion(rest: string, depth: nat, bound: nat): Option<DataType>
    requires |rest| < bound
    decreases bound, 1, 0
  {
    match Inner(rest)
    case None => None
    case Some(inner) =>
      match ParseMembers(Split(inner, 0), depth, bound)
      case None => None
      case Some(types) => if types == [] then None else Some(Union(types))
  }

  function ParseSizeParam(rest: string): Option<Usize> {
    match Inner(rest)
    case None => None
    case Some(inner) => ParseSize(Trim(inner))
  }

  function ParseSized(u: string): Option<DataType> {
    if StartsWith(u, "FIXEDSTRING(") then SizedAfter(u, "FIXEDSTRING(", (n: Usize) => FixedString(n))
    else if StartsWith(u, "FIXED_STRING(") then SizedAfter(u, "FIXED_STRING(", (n: Usize) => FixedString(n))
    else if StartsWith(u, "VECTOR_DENSE(") then SizedAfter(u, "VECTOR_DENSE(", (n: Usize) => VectorDense(n))
    else if StartsWith(u, "VECTOR_SPARSE(") then SizedAfter(u, "VECTOR_SPARSE(", (n: Usize) => VectorSparse(n))
    else if StartsWith(u, "VECTOR(") then SizedAfter(u, "VECTOR(", (n: Usize) => VectorDense(n))
    else None
  }

  function SizedAfter(u: string, p: string, f: Usize -> DataType): Option<DataType>
    requires StartsWith(u, p)
  {
    var n := ParseSizeParam(AfterPrefix(u, p));
    if n.Some? then Some(f(n.value)) else None
  }

  function ParseFields(parts: seq<string>, depth: nat, bound: nat): (r: Option<seq<Field>>)
    requires forall i :: 0 <= i < |parts| ==> |parts[i]| < bound
    ensures r.Some? ==> |r.value| == |parts|
    decreases bound, 0, |parts|
  {
    if parts == [] then Some([])
    else
      match (ParseField(parts[0], depth, bound), ParseFields(parts[1..], depth, bound))
      case (Some(f), Some(fs)) => Some([f] + fs)
      case _ => None
  }

  /** Name up to the first whitespace, then the type. */
  function ParseField(part: string, depth: nat, bound: nat): Option<Field>
    requires |part| < bound
    decreases bound, 0, 0
  {
    TrimShrinks(part);
    var p := Trim(part);
    var name := FirstWord(p);
    if p == "" || |name| == |p| then None
    else
      TrimShrinks(p[|name| + 1..]);
      var ty := Trim(p[|name| + 1..]);
      if name == "" || ty == "" then None
      else
        match Parse(ty, depth + 1)
        case None => None
        case Some(t) => Some(Field(name, t))
  }

  /** Empty members are skipped. */
  function ParseMembers(parts: seq<string>, depth: nat, bound: nat): (r: Option<seq<DataType>>)
    requires forall i :: 0 <= i < |parts| ==> |parts[i]| < bound
    decreases bound, 0, |parts|
  {
    if parts == [] then Some([])
    else
      TrimShrinks(parts[0]);
      var p := Trim(parts[0]);
      var rest := ParseMembers(parts[1..], depth, bound);
      if p == "" then rest
      else
        match (Parse(p, depth + 1), rest)
        case (Some(t), Some(ts)) => Some([t] + ts)
        case _ => None
  }
}
