/**
 The common supertype of two types (`TypeUtils::get_common_type`), proved to be
 the least upper bound in an independently defined promotion order whenever any
 upper bound exists.
 */
module TypeAlgebra {
  import opened Options
  import opened DataTypes

  // ---------------------------------------------------------------- the code

  predicate Superior(t: DataType) {
    t.Scalar? && (t.kind.Null? || t.kind.Empty? || t.kind.Unknown?)
  }

  /** `numeric_promotion_rank`; 0 stands for "not numeric". */
  function Rank(t: DataType): nat {
    if !t.Scalar? then 0
    else
      match t.kind
      case SmallInt => 1
      case Int => 2
      case BigInt => 3
      case Decimal128 => 4
      case Float => 5
      case Double => 6
      case _ => 0
  }

  function CommonNumeric(a: DataType, b: DataType): DataType {
    if Rank(a) == 0 || Rank(b) == 0 then EmptyType
    else if (a.kind.Decimal128? || b.kind.Decimal128?) && (a.kind.Float? || b.kind.Float?) then Scalar(Double)
    else if Rank(a) >= Rank(b) then a
    else b
  }

  /** `get_common_type`. */
  function CommonType(a: DataType, b: DataType): DataType
    decreases Height(a) + Height(b), 2
  {
    if a == b then a
    else if Superior(a) then b
    else if Superior(b) then a
    else if Rank(a) != 0 && Rank(b) != 0 then CommonNumeric(a, b)
    else if (a == Scalar(Date) && b == Scalar(DateTime)) || (a == Scalar(DateTime) && b == Scalar(Date)) then
      Scalar(DateTime)
    else if a.Struct? && b.Struct? then Struct(CombineFields(a, b))
    else if a.Array? && b.Array? then Array(CommonType(a.element, b.element), None)
    else if a.List? && b.List? then List(CommonType(a.element, b.element))
    else if a.Array? && b.List? then UnifyArrayList(a, b)
    else if a.List? && b.Array? then UnifyArrayList(b, a)
    else EmptyType
  }

  /** `unify_array_list`: the array's element always comes first. */
  function UnifyArrayList(arr: DataType, list: DataType): DataType
    requires arr.Array? && list.List?
    decreases Height(arr) + Height(list), 1
  {
    if arr.element == EmptyType then Array(list.element, None)
    else if list.element == EmptyType then Array(arr.element, None)
    else Array(CommonType(arr.element, list.element), None)
  }

  /** Field list of `combine_struct_types`: the first struct's fields in order,
      then those of the second whose name is new. */
  function CombineFields(a: DataType, b: DataType): seq<Field>
    requires a.Struct? && b.Struct?
    decreases Height(a) + Height(b), 1
  {
    seq(|a.fields|, i requires 0 <= i < |a.fields| => CombineField(a, b, i)) + NewFields(a.fields, b.fields)
  }

  function CombineField(a: DataType, b: DataType, i: nat): Field
    requires a.Struct? && b.Struct? && i < |a.fields|
    decreases Height(a) + Height(b), 0
  {
    match Find(b.fields, a.fields[i].name)
    case None => a.fields[i]
    case Some(t) => Field(a.fields[i].name, CommonType(a.fields[i].ty, t))
  }

  function NewFields(known: seq<Field>, fields: seq<Field>): seq<Field> {
    if fields == [] then []
    else if Find(known, fields[0].name).Some? then NewFields(known, fields[1..])
    else [fields[0]] + NewFields(known, fields[1..])
  }

  /** `combine_struct_types` with its two loops and its set of seen names. */
  method CombineStructTypes(a: DataType, b: DataType) returns (r: DataType)
    requires a.Struct? && b.Struct?
    ensures r == Struct(CombineFields(a, b))
  {
    var fields: seq<Field> := [];
    var seen: set<string> := {};
    for i := 0 to |a.fields|
      invariant fields == seq(i, k requires 0 <= k < i => CombineField(a, b, k))
      invariant seen == set k | 0 <= k < i :: a.fields[k].name
    {
      seen := seen + {a.fields[i].name};
      fields := fields + [CombineField(a, b, i)];
    }
    ghost var merged := fields;
    for i := 0 to |b.fields|
      invariant fields == merged + NewFields(a.fields, b.fields[..i])
    {
      NewFieldsSnoc(a.fields, b.fields[..i], b.fields[i]);
      assert b.fields[..i] + [b.fields[i]] == b.fields[..i + 1];
      if b.fields[i].name !in seen {
        fields := fields + [b.fields[i]];
      }
    }
    assert b.fields[..|b.fields|] == b.fields;
    r := Struct(fields);
  }

  lemma {:induction false} NewFieldsSnoc(known: seq<Field>, fields: seq<Field>, f: Field)
    ensures NewFields(known, fields + [f])
         == NewFields(known, fields) + (if Find(known, f.name).Some? then [] else [f])
  {
    if fields != [] {
      assert (fields + [f])[1..] == fields[1..] + [f];
      NewFieldsSnoc(known, fields[1..], f);
    }
  }

  // ------------------------------------------------------ the promotion order

  /** The types that stand for a missing type. */
  predicate Sentinel(t: DataType) {
    t == Scalar(Empty) || t == Scalar(Null) || t == Scalar(Unknown)
  }

  /** Bits of an integer type; 0 for every other type. */
  function Width(k: Kind): nat {
    if k.SmallInt? then 16 else if k.Int? then 32 else if k.BigInt? then 64 else 0
  }

  predicate Numeric(t: DataType) {
    t.Scalar? && (Width(t.kind) > 0 || t.kind.Decimal128? || t.kind.Float? || t.kind.Double?)
  }

  /** Integers promote to wider ones and to every number with a fraction; the decimal
      and the short float to DOUBLE only. */
  predicate Promotes(a: Kind, b: Kind) {
    if Width(a) > 0 then Width(a) < Width(b) || b.Decimal128? || b.Float? || b.Double?
    else (a.Decimal128? || a.Float?) && b.Double?
  }

  /** `a` promotes to `b`: the sentinel types promote to anything, numbers follow
      SMALLINT < INT < BIGINT < {DECIMAL128, FLOAT} < DOUBLE, structs may gain
      fields and promote the shared ones, and a list or an array promotes to an
      array of unspecified length over a promoted element. */
  ghost predicate Leq(a: DataType, b: DataType)
    decreases a
  {
    if a == b || Sentinel(a) then true
    else if a.Struct? then
      b.Struct? && forall i :: 0 <= i < |a.fields| ==>
        Find(b.fields, a.fields[i].name).Some? && Leq(a.fields[i].ty, Find(b.fields, a.fields[i].name).value)
    else if Container(a) then
      ((b.Array? && b.len.None?) || (a.List? && b.List?)) && Leq(a.element, b.element)
    else if a == Scalar(Date) then b == Scalar(DateTime)
    else a.Scalar? && b.Scalar? && Promotes(a.kind, b.kind)
  }

  predicate Container(t: DataType) {
    t.Array? || t.List?
  }

  /** Neither two different structs nor two different containers. */
  predicate ScalarPair(a: DataType, b: DataType) {
    a == b || !((a.Struct? && b.Struct?) || (Container(a) && Container(b)))
  }

  /** Struct field names are unique at every level a join can reach. */
  ghost predicate WellFormed(t: DataType)
    decreases t
  {
    if t.Struct? then
      UniqueNames(t.fields) && forall i :: 0 <= i < |t.fields| ==> WellFormed(t.fields[i].ty)
    else
      Container(t) ==> WellFormed(t.element)
  }

  predicate Temporal(t: DataType) {
    t == Scalar(Date) || t == Scalar(DateTime)
  }

  /** No aligned pair of components clashes. */
  ghost predicate Joinable(a: DataType, b: DataType)
    decreases a
  {
    if a == b || Sentinel(a) || Sentinel(b) then true
    else if a.Struct? then
      b.Struct? && forall i :: 0 <= i < |a.fields| && Find(b.fields, a.fields[i].name).Some? ==>
        Joinable(a.fields[i].ty, Find(b.fields, a.fields[i].name).value)
    else if Container(a) then Container(b) && Joinable(a.element, b.element)
    else if Temporal(a) then Temporal(b)
    else Numeric(a) && Numeric(b)
  }

  lemma {:induction false} FindAt(fs: seq<Field>, i: nat)
    requires UniqueNames(fs) && i < |fs|
    ensures Find(fs, fs[i].name) == Some(fs[i].ty)
  {
    var r := Find(fs, fs[i].name);
    if r.Some? {
      var j :| 0 <= j < |fs| && fs[j] == Field(fs[i].name, r.value);
    }
  }

  lemma {:induction false} LeqTransitive(a: DataType, b: DataType, c: DataType)
    requires Leq(a, b) && Leq(b, c)
    ensures Leq(a, c)
    decreases a
  {
    if a == b || b == c || Sentinel(a) {
    } else if a.Struct? {
      forall i | 0 <= i < |a.fields|
        ensures Find(c.fields, a.fields[i].name).Some? && Leq(a.fields[i].ty, Find(c.fields, a.fields[i].name).value)
      {
        var n := a.fields[i].name;
        var tb := Find(b.fields, n).value;
        var j :| 0 <= j < |b.fields| && b.fields[j] == Field(n, tb);
        LeqTransitive(a.fields[i].ty, tb, Find(c.fields, n).value);
      }
    } else if a.Array? || a.List? {
      LeqTransitive(a.element, b.element, c.element);
    }
  }

  // ------------------------------------------------- structs, field by field

  lemma {:induction false} FindNewFields(known: seq<Field>, fs: seq<Field>, n: string)
    ensures Find(NewFields(known, fs), n) == if Find(known, n).Some? then None else Find(fs, n)
  {
    if fs != [] {
      FindNewFields(known, fs[1..], n);
    }
  }

  lemma {:induction false} FindConcat(xs: seq<Field>, ys: seq<Field>, n: string)
    ensures Find(xs + ys, n) == if Find(xs, n).Some? then Find(xs, n) else Find(ys, n)
  {
    if xs == [] {
      assert xs + ys == ys;
    } else {
      assert (xs + ys)[1..] == xs[1..] + ys;
      FindConcat(xs[1..], ys, n);
    }
  }

  /** What a name means in a combined struct, from what it means in each side. */
  lemma {:induction false} FindCombined(a: DataType, b: DataType, n: string)
    requires a.Struct? && b.Struct? && UniqueNames(a.fields)
    ensures Find(CombineFields(a, b), n) ==
            match (Find(a.fields, n), Find(b.fields, n))
            case (Some(ta), Some(tb)) => Some(CommonType(ta, tb))
            case (Some(ta), None) => Some(ta)
            case (None, r) => r
  {
    var xs := seq(|a.fields|, i requires 0 <= i < |a.fields| => CombineField(a, b, i));
    assert forall i :: 0 <= i < |xs| ==> xs[i].name == a.fields[i].name;
    FindConcat(xs, NewFields(a.fields, b.fields), n);
    FindNewFields(a.fields, b.fields, n);
    hide CommonType, NewFields;
    if i :| 0 <= i < |a.fields| && a.fields[i].name == n {
      FindAt(a.fields, i);
      FindAt(xs, i);
    }
  }

  lemma {:induction false} NewFieldsUnique(known: seq<Field>, fs: seq<Field>)
    requires UniqueNames(fs)
    ensures UniqueNames(NewFields(known, fs))
    ensures forall f :: f in NewFields(known, fs) ==> f in fs && Find(known, f.name).None?
  {
    if fs != [] {
      NewFieldsUnique(known, fs[1..]);
    }
  }

  /** Distinct names followed by distinct names that are new. */
  lemma {:induction false} UniqueConcat(xs: seq<Field>, ys: seq<Field>)
    requires UniqueNames(xs) && UniqueNames(ys)
    requires forall i, j :: 0 <= i < |xs| && 0 <= j < |ys| ==> xs[i].name != ys[j].name
    ensures UniqueNames(xs + ys)
  {
    var c := xs + ys;
    forall i, j | 0 <= i < j < |c| ensures c[i].name != c[j].name {
      assert c[i] == if i < |xs| then xs[i] else ys[i - |xs|];
      assert c[j] == if j < |xs| then xs[j] else ys[j - |xs|];
    }
  }

  lemma {:induction false} CombinedUnique(a: DataType, b: DataType)
    requires a.Struct? && b.Struct? && UniqueNames(a.fields) && UniqueNames(b.fields)
    ensures UniqueNames(CombineFields(a, b))
    ensures |CombineFields(a, b)| >= |a.fields|
    ensures forall i :: 0 <= i < |a.fields| ==> CombineFields(a, b)[i].name == a.fields[i].name
  {
    var xs := seq(|a.fields|, i requires 0 <= i < |a.fields| => CombineField(a, b, i));
    var ys := NewFields(a.fields, b.fields);
    assert forall i :: 0 <= i < |xs| ==> xs[i].name == a.fields[i].name;
    assert xs + ys == CombineFields(a, b);
    hide CombineFields, CombineField, CommonType, NewFields, Find;
    NewFieldsUnique(a.fields, b.fields);
    forall i, j | 0 <= i < |xs| && 0 <= j < |ys| ensures xs[i].name != ys[j].name {
      assert ys[j] in ys;
    }
    UniqueConcat(xs, ys);
    assert forall i :: 0 <= i < |xs| ==> (xs + ys)[i] == xs[i];
  }

  /** `Leq` on structs, by name instead of by position. */
  lemma {:induction false} StructLeq(a: DataType, b: DataType)
    requires a.Struct? && b.Struct? && UniqueNames(a.fields)
    requires forall n :: Find(a.fields, n).Some? ==>
               Find(b.fields, n).Some? && Leq(Find(a.fields, n).value, Find(b.fields, n).value)
    ensures Leq(a, b)
  {
    forall i | 0 <= i < |a.fields| ensures Find(a.fields, a.fields[i].name) == Some(a.fields[i].ty) {
      FindAt(a.fields, i);
    }
  }

  lemma {:induction false} StructLeqFind(a: DataType, b: DataType, n: string)
    requires a.Struct? && b.Struct? && Leq(a, b) && Find(a.fields, n).Some?
    ensures Find(b.fields, n).Some? && Leq(Find(a.fields, n).value, Find(b.fields, n).value)
  {
    var t := Find(a.fields, n).value;
    var i :| 0 <= i < |a.fields| && a.fields[i] == Field(n, t);
  }

  /** A component found in a struct is lower and well formed. */
  lemma {:induction false} FindComponent(t: DataType, n: string)
    requires t.Struct? && Find(t.fields, n).Some?
    ensures Height(Find(t.fields, n).value) < Height(t)
    ensures WellFormed(t) ==> WellFormed(Find(t.fields, n).value)
  {
    var i :| 0 <= i < |t.fields| && t.fields[i] == Field(n, Find(t.fields, n).value);
  }

  lemma {:induction false} StructJoinable(a: DataType, b: DataType, n: string)
    requires a.Struct? && b.Struct? && Joinable(a, b) && a != b
    requires Find(a.fields, n).Some? && Find(b.fields, n).Some?
    ensures Joinable(Find(a.fields, n).value, Find(b.fields, n).value)
  {
    var i :| 0 <= i < |a.fields| && a.fields[i] == Field(n, Find(a.fields, n).value);
  }

  lemma {:induction false} StructJoinableIntro(a: DataType, b: DataType)
    requires a.Struct? && b.Struct? && UniqueNames(a.fields)
    requires forall n :: Find(a.fields, n).Some? && Find(b.fields, n).Some? ==>
               Joinable(Find(a.fields, n).value, Find(b.fields, n).value)
    ensures Joinable(a, b)
  {
    forall i | 0 <= i < |a.fields| ensures Find(a.fields, a.fields[i].name) == Some(a.fields[i].ty) {
      FindAt(a.fields, i);
    }
  }

  // --------------------------------------------------- containers, one level

  lemma {:induction false} ContainerLeq(a: DataType, b: DataType)
    requires Container(a)
    ensures Leq(a, b) <==>
            (a == b || (Container(b) && Leq(a.element, b.element) && (if b.Array? then b.len.None? else a.List?)))
  {
  }

  /** Element type of the common type of two different containers. */
  function CommonElement(a: DataType, b: DataType): DataType
    requires Container(a) && Container(b)
  {
    if a.List? && b.Array? then UnifyElement(b.element, a.element)
    else if a.Array? && b.List? then UnifyElement(a.element, b.element)
    else CommonType(a.element, b.element)
  }

  function UnifyElement(x: DataType, y: DataType): DataType {
    if x == EmptyType then y else if y == EmptyType then x else CommonType(x, y)
  }

  lemma {:induction false} CommonContainer(a: DataType, b: DataType)
    requires Container(a) && Container(b) && a != b
    ensures CommonType(a, b) ==
            if a.List? && b.List? then List(CommonElement(a, b)) else Array(CommonElement(a, b), None)
  {
  }

  // ------------------------------------------------------ least upper bound

  /** The common type is above both arguments when nothing clashes. */
  lemma {:induction false} CommonIsUpperBound(a: DataType, b: DataType)
    requires WellFormed(a) && WellFormed(b) && Joinable(a, b)
    ensures Leq(a, CommonType(a, b)) && Leq(b, CommonType(a, b))
    decreases Height(a) + Height(b), 2
  {
    if a.Struct? && b.Struct? && a != b {
      CommonStructIsUpperBound(a, b);
    } else if Container(a) && Container(b) && a != b {
      CommonContainerIsUpperBound(a, b);
    } else {
      CommonScalarIsUpperBound(a, b);
    }
  }

  lemma {:induction false} CommonScalarIsUpperBound(a: DataType, b: DataType)
    requires ScalarPair(a, b) && Joinable(a, b)
    ensures Leq(a, CommonType(a, b)) && Leq(b, CommonType(a, b))
  {
    CommonScalar(a, b);
    if a != b && Numeric(a) && Numeric(b) {
      CommonNumericIsUpperBound(a, b);
    }
  }

  lemma {:induction false} CommonScalar(a: DataType, b: DataType)
    requires ScalarPair(a, b)
    ensures CommonType(a, b) ==
            if a == b || (Sentinel(b) && !Sentinel(a)) then a
            else if Sentinel(a) then b
            else if Numeric(a) && Numeric(b) then CommonNumeric(a, b)
            else if Temporal(a) && Temporal(b) then Scalar(DateTime)
            else EmptyType
  {
  }

  lemma {:induction false} CommonNumericIsUpperBound(a: DataType, b: DataType)
    requires Numeric(a) && Numeric(b)
    ensures Leq(a, CommonNumeric(a, b)) && Leq(b, CommonNumeric(a, b))
  {
  }

  lemma {:induction false} CommonStructIsUpperBound(a: DataType, b: DataType)
    requires a.Struct? && b.Struct? && a != b && WellFormed(a) && WellFormed(b) && Joinable(a, b)
    ensures Leq(a, CommonType(a, b)) && Leq(b, CommonType(a, b))
    decreases Height(a) + Height(b), 1
  {
    forall n {
      CommonStructUpper(a, b, n);
    }
    StructLeq(a, CommonType(a, b));
    StructLeq(b, CommonType(a, b));
  }

  lemma {:induction false} CommonContainerIsUpperBound(a: DataType, b: DataType)
    requires Container(a) && Container(b) && a != b && WellFormed(a) && WellFormed(b) && Joinable(a, b)
    ensures Leq(a, CommonType(a, b)) && Leq(b, CommonType(a, b))
    decreases Height(a) + Height(b), 1
  {
    CommonContainer(a, b);
    ContainerLeq(a, CommonType(a, b));
    ContainerLeq(b, CommonType(a, b));
    JoinableSymmetric(a.element, b.element);
    CommonIsUpperBound(b.element, a.element);
    CommonIsUpperBound(a.element, b.element);
  }

  lemma {:induction false} CommonStructUpper(a: DataType, b: DataType, n: string)
    requires a.Struct? && b.Struct? && a != b && WellFormed(a) && WellFormed(b) && Joinable(a, b)
    ensures Find(a.fields, n).Some? ==>
              Find(CombineFields(a, b), n).Some? && Leq(Find(a.fields, n).value, Find(CombineFields(a, b), n).value)
    ensures Find(b.fields, n).Some? ==>
              Find(CombineFields(a, b), n).Some? && Leq(Find(b.fields, n).value, Find(CombineFields(a, b), n).value)
    decreases Height(a) + Height(b), 0
  {
    FindCombined(a, b, n);
    if Find(a.fields, n).Some? && Find(b.fields, n).Some? {
      FindComponent(a, n);
      FindComponent(b, n);
      StructJoinable(a, b, n);
      CommonIsUpperBound(Find(a.fields, n).value, Find(b.fields, n).value);
    }
  }

  lemma {:induction false} JoinableSymmetric(a: DataType, b: DataType)
    requires WellFormed(a) && WellFormed(b) && Joinable(a, b)
    ensures Joinable(b, a)
    decreases a
  {
    if a == b || Sentinel(a) || Sentinel(b) {
    } else if a.Struct? && b.Struct? {
      forall i | 0 <= i < |b.fields| && Find(a.fields, b.fields[i].name).Some?
        ensures Joinable(b.fields[i].ty, Find(a.fields, b.fields[i].name).value)
      {
        var n := b.fields[i].name;
        FindAt(b.fields, i);
        StructJoinable(a, b, n);
        var j :| 0 <= j < |a.fields| && a.fields[j] == Field(n, Find(a.fields, n).value);
        JoinableSymmetric(a.fields[j].ty, b.fields[i].ty);
      }
    } else if (a.Array? || a.List?) && (b.Array? || b.List?) {
      JoinableSymmetric(a.element, b.element);
    }
  }

  /** Family of types that can promote into each other; 0 for the isolated ones. */
  ghost function Family(t: DataType): nat {
    if Numeric(t) then 1
    else if Temporal(t) then 2
    else if t.Struct? then 3
    else if Container(t) then 4
    else 0
  }

  lemma {:induction false} LeqKeepsFamily(a: DataType, b: DataType)
    requires Leq(a, b) && !Sentinel(a)
    ensures Family(a) == Family(b)
    ensures Family(a) == 0 ==> a == b
  {
  }

  lemma {:induction false} CommonScalarIsLeast(a: DataType, b: DataType, u: DataType)
    requires ScalarPair(a, b) && Leq(a, u) && Leq(b, u)
    ensures Joinable(a, b) && Leq(CommonType(a, b), u)
  {
    CommonScalar(a, b);
    if a != b && !Sentinel(a) && !Sentinel(b) {
      LeqKeepsFamily(a, u);
      LeqKeepsFamily(b, u);
      if Family(a) == 1 {
        CommonNumericIsLeast(a, b, u);
      }
    }
  }

  lemma {:induction false} CommonNumericIsLeast(a: DataType, b: DataType, u: DataType)
    requires Numeric(a) && Numeric(b) && Leq(a, u) && Leq(b, u)
    ensures Leq(CommonNumeric(a, b), u)
  {
  }

  /** Any upper bound of the arguments is above their common type, and its
      existence already rules out a clash. */
  lemma {:induction false} CommonIsLeast(a: DataType, b: DataType, u: DataType)
    requires WellFormed(a) && WellFormed(b) && Leq(a, u) && Leq(b, u)
    ensures Joinable(a, b) && Leq(CommonType(a, b), u)
    decreases Height(a) + Height(b), 2
  {
    if a.Struct? && b.Struct? && a != b {
      CommonStructIsLeast(a, b, u);
    } else if Container(a) && Container(b) && a != b {
      CommonContainerIsLeast(a, b, u);
    } else {
      CommonScalarIsLeast(a, b, u);
    }
  }

  lemma {:induction false} CommonStructIsLeast(a: DataType, b: DataType, u: DataType)
    requires a.Struct? && b.Struct? && a != b && WellFormed(a) && WellFormed(b) && Leq(a, u) && Leq(b, u)
    ensures Joinable(a, b) && Leq(CommonType(a, b), u)
    decreases Height(a) + Height(b), 1
  {
    assert u.Struct?;
    var c := Struct(CombineFields(a, b));
    assert CommonType(a, b) == c;
    hide Leq, CommonType, CombineFields;
    forall n
      ensures Find(c.fields, n).Some? ==>
                Find(u.fields, n).Some? && Leq(Find(c.fields, n).value, Find(u.fields, n).value)
      ensures Find(a.fields, n).Some? && Find(b.fields, n).Some? ==>
                Joinable(Find(a.fields, n).value, Find(b.fields, n).value)
    {
      CommonStructLeast(a, b, u, n);
    }
    CombinedUnique(a, b);
    StructLeq(c, u);
    forall i | 0 <= i < |a.fields| ensures Find(a.fields, a.fields[i].name) == Some(a.fields[i].ty) {
      FindAt(a.fields, i);
    }
  }

  lemma {:induction false} CommonContainerIsLeast(a: DataType, b: DataType, u: DataType)
    requires Container(a) && Container(b) && a != b && WellFormed(a) && WellFormed(b) && Leq(a, u) && Leq(b, u)
    ensures Joinable(a, b) && Leq(CommonType(a, b), u)
    decreases Height(a) + Height(b), 1
  {
    CommonContainer(a, b);
    ContainerLeq(a, u);
    ContainerLeq(b, u);
    ContainerLeq(CommonType(a, b), u);
    CommonIsLeast(b.element, a.element, u.element);
    CommonIsLeast(a.element, b.element, u.element);
  }

  lemma {:induction false} CommonStructLeast(a: DataType, b: DataType, u: DataType, n: string)
    requires a.Struct? && b.Struct? && u.Struct? && WellFormed(a) && WellFormed(b) && Leq(a, u) && Leq(b, u)
    ensures Find(CombineFields(a, b), n).Some? ==>
              Find(u.fields, n).Some? && Leq(Find(CombineFields(a, b), n).value, Find(u.fields, n).value)
    ensures Find(a.fields, n).Some? && Find(b.fields, n).Some? ==>
              Joinable(Find(a.fields, n).value, Find(b.fields, n).value)
    decreases Height(a) + Height(b), 0
  {
    FindCombined(a, b, n);
    if Find(a.fields, n).Some? {
      StructLeqFind(a, u, n);
      FindComponent(a, n);
    }
    if Find(b.fields, n).Some? {
      StructLeqFind(b, u, n);
      FindComponent(b, n);
    }
    if Find(a.fields, n).Some? && Find(b.fields, n).Some? {
      CommonIsLeast(Find(a.fields, n).value, Find(b.fields, n).value, Find(u.fields, n).value);
    }
  }

  ghost predicate UpperBound(a: DataType, b: DataType, u: DataType) {
    Leq(a, u) && Leq(b, u)
  }

  ghost predicate LeastUpperBound(a: DataType, b: DataType, c: DataType) {
    UpperBound(a, b, c) && forall u :: UpperBound(a, b, u) ==> Leq(c, u)
  }

  /** The common type is the least upper bound of its arguments when no aligned
      pair of components clashes, and otherwise there is no upper bound at all. */
  lemma {:induction false} CommonTypeIsJoin(a: DataType, b: DataType)
    requires WellFormed(a) && WellFormed(b)
    ensures Joinable(a, b) ==> LeastUpperBound(a, b, CommonType(a, b))
    ensures !Joinable(a, b) ==> !exists u :: UpperBound(a, b, u)
  {
    var c, joinable := CommonType(a, b), Joinable(a, b);
    if joinable {
      CommonIsUpperBound(a, b);
    }
    forall u | UpperBound(a, b, u) ensures joinable && Leq(c, u) {
      CommonIsLeast(a, b, u);
    }
  }

  lemma {:induction false} CommonWellFormed(a: DataType, b: DataType)
    requires WellFormed(a) && WellFormed(b)
    ensures WellFormed(CommonType(a, b))
    decreases Height(a) + Height(b)
  {
    if a.Struct? && b.Struct? && a != b {
      CombinedUnique(a, b);
      var c := CombineFields(a, b);
      forall i | 0 <= i < |c| ensures WellFormed(c[i].ty) {
        var n := c[i].name;
        FindAt(c, i);
        FindCombined(a, b, n);
        if Find(a.fields, n).Some? {
          FindComponent(a, n);
        }
        if Find(b.fields, n).Some? {
          FindComponent(b, n);
        }
        if Find(a.fields, n).Some? && Find(b.fields, n).Some? {
          CommonWellFormed(Find(a.fields, n).value, Find(b.fields, n).value);
        }
      }
    } else if a.List? && b.Array? {
      CommonWellFormed(b.element, a.element);
    } else if Container(a) && Container(b) {
      CommonWellFormed(a.element, b.element);
    }
  }

  // ------------------------------------------------------------ commutativity

  /** Equal except for the order of struct fields. */
  ghost predicate SameUpToOrder(a: DataType, b: DataType)
    decreases a
  {
    || a == b
    || (a.Struct? && b.Struct?
        && (forall i :: 0 <= i < |a.fields| ==>
              Find(b.fields, a.fields[i].name).Some?
              && SameUpToOrder(a.fields[i].ty, Find(b.fields, a.fields[i].name).value))
        && (forall j :: 0 <= j < |b.fields| ==> Find(a.fields, b.fields[j].name).Some?))
    || (a.Array? && b.Array? && a.len == b.len && SameUpToOrder(a.element, b.element))
    || (a.List? && b.List? && SameUpToOrder(a.element, b.element))
  }

  /** Two different sentinels (EMPTY, NULL, UNKNOWN) meet at the same place. */
  ghost predicate SentinelsMeet(a: DataType, b: DataType)
    decreases a
  {
    && a != b
    && (|| (Sentinel(a) && Sentinel(b))
        || (a.Struct? && b.Struct? && exists i :: (
              0 <= i < |a.fields| && Find(b.fields, a.fields[i].name).Some?
              && SentinelsMeet(a.fields[i].ty, Find(b.fields, a.fields[i].name).value)))
        || (a.Array? && b.Array? && SentinelsMeet(a.element, b.element))
        || (a.List? && b.List? && SentinelsMeet(a.element, b.element)))
  }

  /** The common type does not depend on the order of the arguments, up to struct
      field order, exactly when no two different sentinels meet. */
  lemma {:induction false} CommonTypeCommutes(a: DataType, b: DataType)
    requires WellFormed(a) && WellFormed(b)
    ensures SameUpToOrder(CommonType(a, b), CommonType(b, a)) <==> !SentinelsMeet(a, b)
    decreases Height(a) + Height(b), 2
  {
    if a.Struct? && b.Struct? && a != b {
      CommonStructCommutes(a, b);
    } else if (a.Array? && b.Array?) || (a.List? && b.List?) {
      CommonTypeCommutes(a.element, b.element);
    } else {
      CommonScalarCommutes(a, b);
    }
  }

  lemma {:induction false} CommonScalarCommutes(a: DataType, b: DataType)
    requires a == b || !((a.Struct? && b.Struct?) || (a.Array? && b.Array?) || (a.List? && b.List?))
    ensures (Sentinel(a) && Sentinel(b)) || CommonType(a, b) == CommonType(b, a)
    ensures SentinelsMeet(a, b) <==> a != b && Sentinel(a) && Sentinel(b)
  {
  }

  lemma {:induction false} CommonStructCommutes(a: DataType, b: DataType)
    requires a.Struct? && b.Struct? && a != b && WellFormed(a) && WellFormed(b)
    ensures SameUpToOrder(CommonType(a, b), CommonType(b, a)) <==> !SentinelsMeet(a, b)
    decreases Height(a) + Height(b), 1
  {
    var c, d := CommonType(a, b), CommonType(b, a);
    CombinedUnique(a, b);
    CombinedUnique(b, a);
    hide CombineFields, Joinable, Leq;
    forall n ensures CommutesAt(a, b, c, d, n) {
      FieldCommutes(a, b, n);
    }
    hide CommonType, SentinelsMeet, SameUpToOrder, CommutesAt, WellFormed;
    if SentinelsMeet(a, b) {
      StructMeets(a, b, c, d);
    } else {
      StructAgrees(a, b, c, d);
    }
  }

  lemma {:induction false} FieldCommutes(a: DataType, b: DataType, n: string)
    requires a.Struct? && b.Struct? && a != b && WellFormed(a) && WellFormed(b)
    requires CommonType(a, b).Struct? && CommonType(b, a).Struct?
    ensures CommutesAt(a, b, CommonType(a, b), CommonType(b, a), n)
    decreases Height(a) + Height(b), 0
  {
    FindCombined(a, b, n);
    FindCombined(b, a, n);
    if Find(a.fields, n).Some? && Find(b.fields, n).Some? {
      FindComponent(a, n);
      FindComponent(b, n);
      CommonTypeCommutes(Find(a.fields, n).value, Find(b.fields, n).value);
    }
  }

  /** How the two orders of combination treat the name `n`. */
  ghost predicate CommutesAt(a: DataType, b: DataType, c: DataType, d: DataType, n: string)
    requires a.Struct? && b.Struct? && c.Struct? && d.Struct?
  {
    match (Find(a.fields, n), Find(b.fields, n))
    case (Some(ta), Some(tb)) =>
      && Find(c.fields, n).Some? && Find(d.fields, n).Some?
      && (SameUpToOrder(Find(c.fields, n).value, Find(d.fields, n).value) <==> !SentinelsMeet(ta, tb))
    case _ => Find(c.fields, n) == Find(d.fields, n)
  }

  lemma {:induction false} StructMeets(a: DataType, b: DataType, c: DataType, d: DataType)
    requires a.Struct? && b.Struct? && c.Struct? && d.Struct? && UniqueNames(a.fields) && UniqueNames(c.fields)
    requires |c.fields| >= |a.fields| && forall i :: 0 <= i < |a.fields| ==> c.fields[i].name == a.fields[i].name
    requires forall n :: CommutesAt(a, b, c, d, n)
    requires SentinelsMeet(a, b)
    ensures !SameUpToOrder(c, d)
  {
    var i :| 0 <= i < |a.fields| && Find(b.fields, a.fields[i].name).Some?
      && SentinelsMeet(a.fields[i].ty, Find(b.fields, a.fields[i].name).value);
    FindAt(a.fields, i);
    FindAt(c.fields, i);
    assert CommutesAt(a, b, c, d, a.fields[i].name);
  }

  lemma {:induction false} StructAgrees(a: DataType, b: DataType, c: DataType, d: DataType)
    requires a.Struct? && b.Struct? && c.Struct? && d.Struct? && a != b && UniqueNames(c.fields)
    requires forall n :: CommutesAt(a, b, c, d, n)
    requires !SentinelsMeet(a, b)
    ensures SameUpToOrder(c, d)
  {
    forall i | 0 <= i < |c.fields|
      ensures Find(d.fields, c.fields[i].name).Some?
           && SameUpToOrder(c.fields[i].ty, Find(d.fields, c.fields[i].name).value)
    {
      var n := c.fields[i].name;
      FindAt(c.fields, i);
      assert CommutesAt(a, b, c, d, n);
      if Find(a.fields, n).Some? && Find(b.fields, n).Some? {
        var k :| 0 <= k < |a.fields| && a.fields[k] == Field(n, Find(a.fields, n).value);
      }
    }
    forall j | 0 <= j < |d.fields| ensures Find(c.fields, d.fields[j].name).Some? {
      assert CommutesAt(a, b, c, d, d.fields[j].name);
    }
  }

  // --------------------------------------------------------------- absorption

  /** No sentinel at any level a join can reach. */
  ghost predicate Clean(t: DataType)
    decreases t
  {
    && !Sentinel(t)
    && (t.Struct? ==> forall i :: 0 <= i < |t.fields| ==> Clean(t.fields[i].ty))
    && (Container(t) ==> Clean(t.element))
  }

  lemma {:induction false} FindClean(t: DataType, n: string)
    requires t.Struct? && Clean(t) && Find(t.fields, n).Some?
    ensures Clean(Find(t.fields, n).value)
  {
    var i :| 0 <= i < |t.fields| && t.fields[i] == Field(n, Find(t.fields, n).value);
  }

  lemma {:induction false} CleanHasNoSentinels(a: DataType, b: DataType)
    requires Clean(a)
    ensures !SentinelsMeet(a, b)
    decreases a
  {
    if a.Struct? && b.Struct? {
      forall i | 0 <= i < |a.fields| && Find(b.fields, a.fields[i].name).Some?
        ensures !SentinelsMeet(a.fields[i].ty, Find(b.fields, a.fields[i].name).value)
      {
        CleanHasNoSentinels(a.fields[i].ty, Find(b.fields, a.fields[i].name).value);
      }
    } else if Container(a) && Container(b) {
      CleanHasNoSentinels(a.element, b.element);
    }
  }

  /** One argument without sentinels is enough for the order not to matter. */
  lemma {:induction false} CleanCommutes(a: DataType, b: DataType)
    requires WellFormed(a) && WellFormed(b) && Clean(a)
    ensures SameUpToOrder(CommonType(a, b), CommonType(b, a))
  {
    hide *;
    CleanHasNoSentinels(a, b);
    CommonTypeCommutes(a, b);
  }

  lemma {:induction false} CommonClean(a: DataType, b: DataType)
    requires Clean(a) && Clean(b) && WellFormed(a) && WellFormed(b) && Joinable(a, b)
    ensures Clean(CommonType(a, b))
    decreases Height(a) + Height(b), 1
  {
    if a.Struct? && b.Struct? && a != b {
      var c := CombineFields(a, b);
      forall i | 0 <= i < |c| ensures Clean(c[i].ty) {
        CombinedClean(a, b, i);
      }
    } else if Container(a) && Container(b) && a != b {
      CommonContainer(a, b);
      hide CommonType, Leq;
      if a.List? && b.Array? {
        JoinableSymmetric(a.element, b.element);
        CommonClean(b.element, a.element);
      } else {
        CommonClean(a.element, b.element);
      }
    } else {
      CommonScalarClean(a, b);
    }
  }

  lemma {:induction false} CommonScalarClean(a: DataType, b: DataType)
    requires ScalarPair(a, b) && Clean(a) && Clean(b) && Joinable(a, b)
    ensures Clean(CommonType(a, b))
  {
  }

  lemma {:induction false} CombinedClean(a: DataType, b: DataType, i: nat)
    requires a.Struct? && b.Struct? && a != b && i < |CombineFields(a, b)|
    requires Clean(a) && Clean(b) && WellFormed(a) && WellFormed(b) && Joinable(a, b)
    ensures Clean(CombineFields(a, b)[i].ty)
    decreases Height(a) + Height(b), 0
  {
    var c := CombineFields(a, b);
    var n := c[i].name;
    CombinedUnique(a, b);
    hide CombineFields, CommonType, Joinable, Clean, Leq;
    FindAt(c, i);
    FindCombined(a, b, n);
    if Find(a.fields, n).Some? {
      FindComponent(a, n);
      FindClean(a, n);
    }
    if Find(b.fields, n).Some? {
      FindComponent(b, n);
      FindClean(b, n);
    }
    if Find(a.fields, n).Some? && Find(b.fields, n).Some? {
      StructJoinable(a, b, n);
      CommonClean(Find(a.fields, n).value, Find(b.fields, n).value);
    }
  }

  lemma {:induction false} NewFieldsConcat(known: seq<Field>, xs: seq<Field>, ys: seq<Field>)
    ensures NewFields(known, xs + ys) == NewFields(known, xs) + NewFields(known, ys)
  {
    if xs == [] {
      assert xs + ys == ys;
    } else {
      assert (xs + ys)[1..] == xs[1..] + ys;
      NewFieldsConcat(known, xs[1..], ys);
    }
  }

  lemma {:induction false} NewFieldsNone(known: seq<Field>, fs: seq<Field>)
    requires forall i :: 0 <= i < |fs| ==> Find(known, fs[i].name).Some?
    ensures NewFields(known, fs) == []
  {
    if fs != [] {
      NewFieldsNone(known, fs[1..]);
    }
  }

  lemma {:induction false} NewFieldsAll(known: seq<Field>, fs: seq<Field>)
    requires forall f :: f in fs ==> Find(known, f.name).None?
    ensures NewFields(known, fs) == fs
  {
    if fs != [] {
      NewFieldsAll(known, fs[1..]);
    }
  }

  /** Joining with something below changes nothing, not even the field order. */
  lemma {:induction false} LeqIsAbsorbed(c: DataType, a: DataType)
    requires Leq(a, c) && Clean(a) && Clean(c) && WellFormed(a) && WellFormed(c)
    ensures CommonType(c, a) == c
    decreases Height(a) + Height(c), 1
  {
    if a.Struct? && a != c {
      forall i | 0 <= i < |c.fields| ensures CombineField(c, a, i) == c.fields[i] {
        FieldIsAbsorbed(c, a, i);
      }
      NewFieldsNone(c.fields, a.fields);
      assert CombineFields(c, a) == c.fields;
    } else if Container(a) && a != c {
      LeqIsAbsorbed(c.element, a.element);
      ContainerIsAbsorbed(c, a);
    }
  }

  lemma {:induction false} ContainerIsAbsorbed(c: DataType, a: DataType)
    requires Container(a) && a != c && Leq(a, c) && Clean(a) && Clean(c)
    requires CommonType(c.element, a.element) == c.element
    ensures CommonType(c, a) == c
  {
    ContainerLeq(a, c);
    CommonContainer(c, a);
    hide CommonType, Leq;
  }

  lemma {:induction false} FieldIsAbsorbed(c: DataType, a: DataType, i: nat)
    requires a.Struct? && c.Struct? && a != c && i < |c.fields|
    requires Leq(a, c) && Clean(a) && Clean(c) && WellFormed(a) && WellFormed(c)
    ensures CombineField(c, a, i) == c.fields[i]
    decreases Height(a) + Height(c), 0
  {
    var n := c.fields[i].name;
    assert Clean(c.fields[i].ty) && WellFormed(c.fields[i].ty);
    hide CommonType, Leq, Clean, Joinable;
    FindAt(c.fields, i);
    if Find(a.fields, n).Some? {
      StructLeqFind(a, c, n);
      FindComponent(a, n);
      FindClean(a, n);
      LeqIsAbsorbed(c.fields[i].ty, Find(a.fields, n).value);
    }
  }

  lemma {:induction false} FirstIsAbsorbed(a: DataType, b: DataType)
    requires Clean(a) && Clean(b) && WellFormed(a) && WellFormed(b) && Joinable(a, b)
    ensures CommonType(a, CommonType(a, b)) == CommonType(a, b)
    decreases Height(a) + Height(b), 2
  {
    if a.Struct? && b.Struct? && a != b {
      FirstStructIsAbsorbed(a, b);
    } else if Container(a) && Container(b) && a != b {
      FirstContainerIsAbsorbed(a, b);
    } else {
      FirstScalarIsAbsorbed(a, b);
    }
  }

  lemma {:induction false} FirstScalarIsAbsorbed(a: DataType, b: DataType)
    requires ScalarPair(a, b) && Joinable(a, b)
    ensures CommonType(a, CommonType(a, b)) == CommonType(a, b)
  {
  }

  lemma {:induction false} NewFieldsAgain(known: seq<Field>, xs: seq<Field>, fs: seq<Field>)
    requires UniqueNames(fs) && |xs| == |known| && forall i :: 0 <= i < |xs| ==> xs[i].name == known[i].name
    ensures NewFields(known, xs + NewFields(known, fs)) == NewFields(known, fs)
  {
    NewFieldsUnique(known, fs);
    NewFieldsNone(known, xs);
    NewFieldsAll(known, NewFields(known, fs));
    NewFieldsConcat(known, xs, NewFields(known, fs));
  }

  lemma {:induction false} FirstContainerIsAbsorbed(a: DataType, b: DataType)
    requires Container(a) && Container(b) && a != b
    requires Clean(a) && Clean(b) && WellFormed(a) && WellFormed(b) && Joinable(a, b)
    ensures CommonType(a, CommonType(a, b)) == CommonType(a, b)
    decreases Height(a) + Height(b), 1
  {
    var c := CommonType(a, b);
    CommonContainer(a, b);
    if a.List? && b.Array? {
      ListIsAbsorbed(a, b);
    } else {
      FirstIsAbsorbed(a.element, b.element);
    }
    hide CommonType, Leq, Joinable, WellFormed;
    if a != c {
      CommonContainer(a, c);
    }
  }

  lemma {:induction false} ListIsAbsorbed(a: DataType, b: DataType)
    requires a.List? && b.Array?
    requires Clean(a) && Clean(b) && WellFormed(a) && WellFormed(b) && Joinable(a, b)
    ensures CommonType(CommonType(b.element, a.element), a.element) == CommonType(b.element, a.element)
    ensures Clean(CommonType(b.element, a.element))
  {
    JoinableSymmetric(a.element, b.element);
    CommonIsUpperBound(b.element, a.element);
    CommonClean(b.element, a.element);
    CommonWellFormed(b.element, a.element);
    LeqIsAbsorbed(CommonType(b.element, a.element), a.element);
  }

  lemma {:induction false} FirstStructIsAbsorbed(a: DataType, b: DataType)
    requires a.Struct? && b.Struct? && a != b
    requires Clean(a) && Clean(b) && WellFormed(a) && WellFormed(b) && Joinable(a, b)
    ensures CombineFields(a, Struct(CombineFields(a, b))) == CombineFields(a, b)
    decreases Height(a) + Height(b), 1
  {
    var c := Struct(CombineFields(a, b));
    var xs := seq(|a.fields|, i requires 0 <= i < |a.fields| => CombineField(a, b, i));
    var zs := seq(|a.fields|, i requires 0 <= i < |a.fields| => CombineField(a, c, i));
    forall i | 0 <= i < |a.fields| ensures xs[i].name == a.fields[i].name && zs[i] == xs[i] {
      FirstFieldIsAbsorbed(a, b, i);
    }
    NewFieldsAgain(a.fields, xs, b.fields);
    assert zs == xs;
  }

  lemma {:induction false} FirstFieldIsAbsorbed(a: DataType, b: DataType, i: nat)
    requires a.Struct? && b.Struct? && a != b && i < |a.fields|
    requires Clean(a) && Clean(b) && WellFormed(a) && WellFormed(b) && Joinable(a, b)
    ensures CombineField(a, Struct(CombineFields(a, b)), i) == CombineField(a, b, i)
    decreases Height(a) + Height(b), 0
  {
    var n := a.fields[i].name;
    FindAt(a.fields, i);
    FindCombined(a, b, n);
    if Find(b.fields, n).Some? {
      FindComponent(b, n);
      FindClean(b, n);
      StructJoinable(a, b, n);
      FirstIsAbsorbed(a.fields[i].ty, Find(b.fields, n).value);
    }
  }

  lemma {:induction false} JoinableWithCommon(a: DataType, b: DataType)
    requires WellFormed(a) && WellFormed(b)
    ensures Joinable(a, CommonType(a, b)) && Joinable(b, CommonType(a, b))
    decreases Height(a) + Height(b), 2
  {
    if a.Struct? && b.Struct? && a != b {
      JoinableWithCommonStruct(a, b);
    } else if Container(a) && Container(b) && a != b {
      JoinableWithCommonContainer(a, b);
    } else {
      JoinableWithCommonScalar(a, b);
    }
  }

  lemma {:induction false} JoinableWithCommonScalar(a: DataType, b: DataType)
    requires ScalarPair(a, b)
    ensures Joinable(a, CommonType(a, b)) && Joinable(b, CommonType(a, b))
  {
    CommonScalar(a, b);
  }

  lemma {:induction false} JoinableWithCommonStruct(a: DataType, b: DataType)
    requires a.Struct? && b.Struct? && a != b && WellFormed(a) && WellFormed(b)
    ensures Joinable(a, CommonType(a, b)) && Joinable(b, CommonType(a, b))
    decreases Height(a) + Height(b), 1
  {
    forall n {
      JoinableWithCombined(a, b, n);
    }
    StructJoinableIntro(a, CommonType(a, b));
    StructJoinableIntro(b, CommonType(a, b));
  }

  lemma {:induction false} JoinableWithCommonContainer(a: DataType, b: DataType)
    requires Container(a) && Container(b) && a != b && WellFormed(a) && WellFormed(b)
    ensures Joinable(a, CommonType(a, b)) && Joinable(b, CommonType(a, b))
    decreases Height(a) + Height(b), 0
  {
    CommonContainer(a, b);
    hide CommonType, Leq, WellFormed, CombineFields;
    assert WellFormed(a.element) && WellFormed(b.element) by {
      WellFormedElement(a);
      WellFormedElement(b);
    }
    if a.List? && b.Array? {
      JoinableWithCommon(b.element, a.element);
    } else {
      JoinableWithCommon(a.element, b.element);
    }
  }

  lemma {:induction false} WellFormedElement(t: DataType)
    requires Container(t) && WellFormed(t)
    ensures WellFormed(t.element)
  {
  }

  lemma {:induction false} JoinableWithCombined(a: DataType, b: DataType, n: string)
    requires a.Struct? && b.Struct? && WellFormed(a) && WellFormed(b)
    ensures Find(a.fields, n).Some? && Find(CombineFields(a, b), n).Some? ==>
              Joinable(Find(a.fields, n).value, Find(CombineFields(a, b), n).value)
    ensures Find(b.fields, n).Some? && Find(CombineFields(a, b), n).Some? ==>
              Joinable(Find(b.fields, n).value, Find(CombineFields(a, b), n).value)
    decreases Height(a) + Height(b), 0
  {
    FindCombined(a, b, n);
    if Find(a.fields, n).Some? && Find(b.fields, n).Some? {
      FindComponent(a, n);
      FindComponent(b, n);
      JoinableWithCommon(Find(a.fields, n).value, Find(b.fields, n).value);
    }
  }

  /** On types without sentinels, the common type absorbs both arguments exactly
      when no aligned pair of components clashes. */
  lemma {:induction false} CommonTypeAbsorbs(a: DataType, b: DataType)
    requires Clean(a) && Clean(b) && WellFormed(a) && WellFormed(b)
    ensures Joinable(a, b) <==>
              && CommonType(a, CommonType(a, b)) == CommonType(a, b)
              && CommonType(CommonType(a, b), b) == CommonType(a, b)
  {
    hide *;
    var c := CommonType(a, b);
    CommonWellFormed(a, b);
    if Joinable(a, b) {
      FirstIsAbsorbed(a, b);
      CommonIsUpperBound(a, b);
      CommonClean(a, b);
      LeqIsAbsorbed(c, b);
    } else if CommonType(a, c) == c && CommonType(c, b) == c {
      JoinableWithCommon(a, b);
      JoinableSymmetric(b, c);
      CommonIsUpperBound(a, c);
      CommonIsUpperBound(c, b);
      CommonIsLeast(a, b, c);
    }
  }

  // ------------------------------------------------- three and more arguments

  lemma {:induction false} LeqAntisymmetric(a: DataType, b: DataType)
    requires Leq(a, b) && Leq(b, a) && Clean(a) && Clean(b) && WellFormed(a) && WellFormed(b)
    ensures SameUpToOrder(a, b)
    decreases a
  {
    if a.Struct? && a != b {
      forall i | 0 <= i < |a.fields|
        ensures SameUpToOrder(a.fields[i].ty, Find(b.fields, a.fields[i].name).value)
      {
        var n := a.fields[i].name;
        FindAt(a.fields, i);
        StructLeqFind(b, a, n);
        FindComponent(b, n);
        FindClean(b, n);
        LeqAntisymmetric(a.fields[i].ty, Find(b.fields, n).value);
      }
    } else if Container(a) && a != b {
      LeqAntisymmetric(a.element, b.element);
    }
  }

  ghost predicate Proper(t: DataType) {
    Clean(t) && WellFormed(t)
  }

  ghost predicate Bounds3(a: DataType, b: DataType, c: DataType, u: DataType) {
    Leq(a, u) && Leq(b, u) && Leq(c, u)
  }

  ghost predicate LeftJoinable(a: DataType, b: DataType, c: DataType) {
    Joinable(a, b) && Joinable(CommonType(a, b), c)
  }

  ghost predicate RightJoinable(a: DataType, b: DataType, c: DataType) {
    Joinable(b, c) && Joinable(a, CommonType(b, c))
  }

  lemma {:induction false} JoinIsProper(a: DataType, b: DataType)
    requires Proper(a) && Proper(b) && Joinable(a, b)
    ensures Proper(CommonType(a, b))
  {
    CommonClean(a, b);
    CommonWellFormed(a, b);
  }

  ghost predicate AllWellFormed(a: DataType, b: DataType, c: DataType) {
    WellFormed(a) && WellFormed(b) && WellFormed(c)
  }

  lemma {:induction false} LeftJoinAbove(a: DataType, b: DataType, c: DataType)
    requires AllWellFormed(a, b, c) && LeftJoinable(a, b, c)
    ensures Bounds3(a, b, c, CommonType(CommonType(a, b), c))
  {
    hide CommonType, Joinable, Leq, WellFormed;
    var ab := CommonType(a, b);
    CommonWellFormed(a, b);
    CommonIsUpperBound(a, b);
    CommonIsUpperBound(ab, c);
    LeqTransitive(a, ab, CommonType(ab, c));
    LeqTransitive(b, ab, CommonType(ab, c));
  }

  lemma {:induction false} RightJoinAbove(a: DataType, b: DataType, c: DataType)
    requires AllWellFormed(a, b, c) && RightJoinable(a, b, c)
    ensures Bounds3(a, b, c, CommonType(a, CommonType(b, c)))
  {
    hide CommonType, Joinable, Leq, WellFormed;
    var bc := CommonType(b, c);
    CommonWellFormed(b, c);
    CommonIsUpperBound(b, c);
    CommonIsUpperBound(a, bc);
    LeqTransitive(b, bc, CommonType(a, bc));
    LeqTransitive(c, bc, CommonType(a, bc));
  }

  lemma {:induction false} LeftJoinLeast(a: DataType, b: DataType, c: DataType, u: DataType)
    requires AllWellFormed(a, b, c) && Bounds3(a, b, c, u)
    ensures LeftJoinable(a, b, c) && Leq(CommonType(CommonType(a, b), c), u)
  {
    hide CommonType, Joinable, Leq, WellFormed;
    CommonIsLeast(a, b, u);
    CommonWellFormed(a, b);
    CommonIsLeast(CommonType(a, b), c, u);
  }

  lemma {:induction false} RightJoinLeast(a: DataType, b: DataType, c: DataType, u: DataType)
    requires AllWellFormed(a, b, c) && Bounds3(a, b, c, u)
    ensures RightJoinable(a, b, c) && Leq(CommonType(a, CommonType(b, c)), u)
  {
    hide CommonType, Joinable, Leq, WellFormed;
    CommonIsLeast(b, c, u);
    CommonWellFormed(b, c);
    CommonIsLeast(a, CommonType(b, c), u);
  }

  /** Grouping does not matter. Both groupings of three types clash somewhere, exactly
      when no type is above all three; or neither does, and the two results are below
      each other. */
  lemma {:induction false} CommonTypeAssociates(a: DataType, b: DataType, c: DataType)
    requires AllWellFormed(a, b, c)
    ensures LeftJoinable(a, b, c) <==> RightJoinable(a, b, c)
    ensures LeftJoinable(a, b, c) <==> exists u :: Bounds3(a, b, c, u)
    ensures LeftJoinable(a, b, c) ==>
              var l, r := CommonType(CommonType(a, b), c), CommonType(a, CommonType(b, c)); Leq(l, r) && Leq(r, l)
  {
    hide CommonType, LeftJoinable, RightJoinable, Bounds3, AllWellFormed;
    var l, r := CommonType(CommonType(a, b), c), CommonType(a, CommonType(b, c));
    if LeftJoinable(a, b, c) {
      LeftJoinAbove(a, b, c);
      RightJoinLeast(a, b, c, l);
    }
    if RightJoinable(a, b, c) {
      RightJoinAbove(a, b, c);
      LeftJoinLeast(a, b, c, r);
    }
    if u :| Bounds3(a, b, c, u) {
      LeftJoinLeast(a, b, c, u);
    }
  }

  /** Without sentinels, the two results are the same up to struct field order. */
  lemma {:induction false} CleanAssociates(a: DataType, b: DataType, c: DataType)
    requires Proper(a) && Proper(b) && Proper(c) && LeftJoinable(a, b, c)
    ensures SameUpToOrder(CommonType(CommonType(a, b), c), CommonType(a, CommonType(b, c)))
  {
    hide CommonType, Joinable, Leq, WellFormed, Clean, SameUpToOrder;
    CommonTypeAssociates(a, b, c);
    JoinIsProper(a, b);
    JoinIsProper(CommonType(a, b), c);
    JoinIsProper(b, c);
    JoinIsProper(a, CommonType(b, c));
    LeqAntisymmetric(CommonType(CommonType(a, b), c), CommonType(a, CommonType(b, c)));
  }

  /** With sentinels, which one survives depends on the grouping. */
  lemma {:induction false} SentinelsRegroup()
    ensures var a, b, c := List(Scalar(Null)), Array(EmptyType, None), List(Scalar(Unknown));
            && LeftJoinable(a, b, c) && RightJoinable(a, b, c)
            && CommonType(CommonType(a, b), c) == Array(Scalar(Unknown), None)
            && CommonType(a, CommonType(b, c)) == Array(Scalar(Null), None)
  {
    var a, b, c := List(Scalar(Null)), Array(EmptyType, None), List(Scalar(Unknown));
    assert CommonType(a, b) == Array(Scalar(Null), None) && CommonType(b, c) == Array(Scalar(Unknown), None);
  }

  /** Where both groupings clash, they can answer with different types. */
  lemma {:induction false} ClashesRegroup()
    ensures var a, b, c := Scalar(Int), Scalar(Bool), Scalar(BigInt);
            && !LeftJoinable(a, b, c) && !RightJoinable(a, b, c)
            && CommonType(CommonType(a, b), c) == Scalar(BigInt)
            && CommonType(a, CommonType(b, c)) == Scalar(Int)
  {
  }

  ghost predicate Bounds(ts: seq<DataType>, u: DataType) {
    forall i :: 0 <= i < |ts| ==> Leq(ts[i], u)
  }

  /** The fold of the common type over element types, stopping at EMPTY. */
  function FoldFrom(common: DataType, ts: seq<DataType>): DataType
    decreases |ts|
  {
    if ts == [] then common
    else
      var next := CommonType(common, ts[0]);
      if next == EmptyType then next else FoldFrom(next, ts[1..])
  }

  /** `container_element_type`, with its early exit. */
  method ContainerElementType(ts: seq<DataType>) returns (common: DataType)
    ensures common == FoldFrom(EmptyType, ts)
  {
    hide CommonType;
    common := EmptyType;
    assert ts[0..] == ts;
    for i := 0 to |ts|
      invariant FoldFrom(EmptyType, ts) == FoldFrom(common, ts[i..])
    {
      assert ts[i..][1..] == ts[i + 1..];
      common := CommonType(common, ts[i]);
      if common == EmptyType {
        break;
      }
    }
  }

  /** Two proper types that do not clash have a proper common type. */
  lemma {:induction false} JoinIsNoSentinel(a: DataType, b: DataType)
    requires Joinable(a, b) && !Sentinel(a)
    ensures !Sentinel(CommonType(a, b))
  {
  }

  /** One step of the fold from a proper type stays between the elements and any bound. */
  lemma {:induction false} FoldStep(ts: seq<DataType>, i: nat, before: DataType, u: DataType)
    requires i < |ts| && Bounds(ts, u) && Leq(before, u) && !Sentinel(before)
    requires WellFormed(before) && WellFormed(ts[i]) && Bounds(ts[..i], before)
    ensures Leq(CommonType(before, ts[i]), u) && !Sentinel(CommonType(before, ts[i]))
    ensures Bounds(ts[..i + 1], CommonType(before, ts[i]))
  {
    var common := CommonType(before, ts[i]);
    CommonIsLeast(before, ts[i], u);
    CommonIsUpperBound(before, ts[i]);
    JoinIsNoSentinel(before, ts[i]);
    hide Leq, CommonType, Joinable, WellFormed;
    forall j | 0 <= j < i + 1 ensures Leq(ts[j], common) {
      if j < i {
        assert ts[..i][j] == ts[j];
        LeqTransitive(ts[j], before, common);
      }
    }
  }

  /** Once the running type is proper, the fold takes in every remaining element. */
  lemma {:induction false} FoldProper(ts: seq<DataType>, i: nat, before: DataType, u: DataType)
    requires i <= |ts| && Bounds(ts, u) && Leq(before, u) && !Sentinel(before) && WellFormed(before)
    requires forall j :: 0 <= j < |ts| ==> WellFormed(ts[j])
    requires Bounds(ts[..i], before)
    ensures Bounds(ts, FoldFrom(before, ts[i..])) && Leq(FoldFrom(before, ts[i..]), u)
    decreases |ts| - i
  {
    hide Leq, CommonType, WellFormed;
    if i == |ts| {
      assert ts[..i] == ts;
    } else {
      FoldStep(ts, i, before, u);
      CommonWellFormed(before, ts[i]);
      FoldProper(ts, i + 1, CommonType(before, ts[i]), u);
      assert ts[i..][1..] == ts[i + 1..];
    }
  }

  /** The fold bails out: an EMPTY comes before every proper type, and some proper type
      comes after it. */
  ghost predicate Bails(ts: seq<DataType>) {
    exists i, j :: 0 <= i < j < |ts| && ts[i] == EmptyType && !Sentinel(ts[j]) && SentinelsUpTo(ts, i)
  }

  ghost predicate SentinelsUpTo(ts: seq<DataType>, n: nat)
    requires n <= |ts|
  {
    forall i :: 0 <= i < n ==> Sentinel(ts[i])
  }

  /** EMPTY bounds the sentinels and nothing else. */
  lemma {:induction false} EmptyBounds(ts: seq<DataType>)
    ensures Bounds(ts, EmptyType) <==> SentinelsUpTo(ts, |ts|)
  {
  }

  /** While the running type is a sentinel, the next element replaces it. */
  lemma {:induction false} SentinelStep(before: DataType, t: DataType)
    requires Sentinel(before)
    ensures CommonType(before, t) == t
  {
  }

  lemma {:induction false} EmptyStops(ts: seq<DataType>, i: nat)
    requires i < |ts| && ts[i] == EmptyType && SentinelsUpTo(ts, i)
    ensures Bails(ts) <==> !SentinelsUpTo(ts, |ts|)
  {
    if !SentinelsUpTo(ts, |ts|) {
      var j :| 0 <= j < |ts| && !Sentinel(ts[j]);
      assert i < j;
    }
  }

  lemma {:induction false} ProperStarts(ts: seq<DataType>, i: nat)
    requires i < |ts| && !Sentinel(ts[i]) && forall k :: 0 <= k < i ==> ts[k] != EmptyType
    ensures !Bails(ts)
  {
  }

  lemma {:induction false} SentinelsBelow(ts: seq<DataType>, i: nat)
    requires i < |ts| && SentinelsUpTo(ts, i)
    ensures Bounds(ts[..i + 1], ts[i])
  {
  }

  lemma {:induction false} FoldSentinels(ts: seq<DataType>, i: nat, before: DataType, u: DataType)
    requires i <= |ts| && Bounds(ts, u) && Sentinel(before) && (before == EmptyType ==> i == 0)
    requires forall j :: 0 <= j < |ts| ==> WellFormed(ts[j])
    requires forall k :: 0 <= k < i ==> Sentinel(ts[k]) && ts[k] != EmptyType
    ensures Leq(FoldFrom(before, ts[i..]), u)
    ensures Bounds(ts, FoldFrom(before, ts[i..])) <==> !Bails(ts)
    decreases |ts| - i
  {
    if i < |ts| {
      SentinelStep(before, ts[i]);
      assert ts[i..][1..] == ts[i + 1..];
      assert SentinelsUpTo(ts, i);
      hide CommonType, WellFormed;
      if ts[i] == EmptyType {
        EmptyStops(ts, i);
        EmptyBounds(ts);
      } else if Sentinel(ts[i]) {
        FoldSentinels(ts, i + 1, ts[i], u);
      } else {
        ProperStarts(ts, i);
        SentinelsBelow(ts, i);
        hide Leq, Bails;
        FoldProper(ts, i + 1, ts[i], u);
      }
    }
  }

  /** The element type of a container lies below every type that bounds the types of
      its elements. It bounds them itself, and so is their least upper bound, exactly
      when they have a bound at all and the fold does not bail out at an EMPTY. */
  lemma {:induction false} ElementTypeIsJoin(ts: seq<DataType>)
    requires forall i :: 0 <= i < |ts| ==> WellFormed(ts[i])
    ensures forall u :: Bounds(ts, u) ==> Leq(FoldFrom(EmptyType, ts), u)
    ensures Bounds(ts, FoldFrom(EmptyType, ts)) <==> (exists u :: Bounds(ts, u)) && !Bails(ts)
  {
    assert ts[0..] == ts;
    forall u | Bounds(ts, u)
      ensures Leq(FoldFrom(EmptyType, ts), u) && (Bounds(ts, FoldFrom(EmptyType, ts)) <==> !Bails(ts))
    {
      FoldSentinels(ts, 0, EmptyType, u);
    }
  }

  /** A leading EMPTY hides the type of the other elements. */
  lemma {:induction false} LeadingEmptyBails()
    ensures var ts := [EmptyType, Scalar(Int)];
            && FoldFrom(EmptyType, ts) == EmptyType
            && Bounds(ts, Scalar(Int)) && Bails(ts) && !Bounds(ts, FoldFrom(EmptyType, ts))
  {
    var ts := [EmptyType, Scalar(Int)];
    assert ts[0] == EmptyType && !Sentinel(ts[1]) && SentinelsUpTo(ts, 0);
    assert !Leq(ts[1], EmptyType);
  }

  /** And so does an EMPTY after a NULL. */
  lemma {:induction false} EmptyAfterNullBails()
    ensures var ts := [Scalar(Null), EmptyType, Scalar(Int)];
            && FoldFrom(EmptyType, ts) == EmptyType
            && Bounds(ts, Scalar(Int)) && Bails(ts) && !Bounds(ts, FoldFrom(EmptyType, ts))
  {
    var ts := [Scalar(Null), EmptyType, Scalar(Int)];
    assert ts[1..] == [EmptyType, Scalar(Int)];
    assert ts[1] == EmptyType && !Sentinel(ts[2]) && SentinelsUpTo(ts, 1);
    assert !Leq(ts[2], EmptyType);
  }

  /** An EMPTY after a proper type does no harm. */
  lemma {:induction false} LaterEmptyIsSkipped()
    ensures FoldFrom(EmptyType, [Scalar(Int), EmptyType, Scalar(BigInt)]) == Scalar(BigInt)
  {
    var ts := [Scalar(Int), EmptyType, Scalar(BigInt)];
    var us := [EmptyType, Scalar(BigInt)];
    var vs := [Scalar(BigInt)];
    assert ts[1..] == us && us[1..] == vs && vs[1..] == [];
    assert CommonType(EmptyType, Scalar(Int)) == Scalar(Int) == CommonType(Scalar(Int), EmptyType);
    assert CommonType(Scalar(Int), Scalar(BigInt)) == Scalar(BigInt);
    hide CommonType;
    assert FoldFrom(Scalar(Int), vs) == FoldFrom(Scalar(BigInt), []) == Scalar(BigInt);
    assert FoldFrom(Scalar(Int), us) == FoldFrom(Scalar(Int), vs);
    assert FoldFrom(EmptyType, ts) == FoldFrom(Scalar(Int), us);
  }
}
