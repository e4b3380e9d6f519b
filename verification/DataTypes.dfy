/**
 The value types of the engine (`DataType`) with the metadata carried by the
 parameterised ones, and the structural notions shared by the type algebra,
 the printer and the parser.
 */
module DataTypes {
  import opened Integers
  import opened Options

  datatype Field = Field(name: string, ty: DataType)

  /** The parameter-free types. */
  datatype Kind =
    | Empty
    | Unknown
    | Null
    | Bool
    | SmallInt
    | Int
    | BigInt
    | Float
    | Double
    | Decimal128
    | String
    | Date
    | Time
    | DateTime
    | Vertex
    | Edge
    | Path
    | Geography
    | DataSet
    | Blob
    | Vector
    | Json
    | JsonB
    | Uuid
    | Interval

  datatype DataType =
    | Scalar(kind: Kind)
    | List(element: DataType)
    | Map(element: DataType)
    | Set(element: DataType)
    | FixedString(size: Usize)
    | VectorDense(size: Usize)
    | VectorSparse(size: Usize)
    | Decimal(precision: Byte, scale: Byte)
    | Union(types: seq<DataType>)
    | Struct(fields: seq<Field>)
    | Array(element: DataType, len: Option<Usize>)

  /** The untyped-container marker, also the "no common type" answer. */
  const EmptyType := Scalar(Empty)

  /** First field with the given name, as `iter().find` returns it. */
  function Find(fields: seq<Field>, name: string): (r: Option<DataType>)
    ensures r.None? <==> forall i :: 0 <= i < |fields| ==> fields[i].name != name
    ensures r.Some? ==> exists i :: 0 <= i < |fields| && fields[i] == Field(name, r.value)
  {
    if fields == [] then None
    else if fields[0].name == name then
      assert fields[0] == Field(name, fields[0].ty);
      Some(fields[0].ty)
    else
      assert forall i :: 0 <= i < |fields[1..]| ==> fields[1..][i] == fields[i + 1];
      Find(fields[1..], name)
  }

  ghost predicate UniqueNames(fields: seq<Field>) {
    forall i, j :: 0 <= i < j < |fields| ==> fields[i].name != fields[j].name
  }

  /** Height of a type as a tree; every component is strictly lower. */
  ghost function Height(t: DataType): (h: nat)
    ensures t.Struct? ==> forall i :: 0 <= i < |t.fields| ==> Height(t.fields[i].ty) < h
    ensures t.Union? ==> forall i :: 0 <= i < |t.types| ==> Height(t.types[i]) < h
    decreases t, 0
  {
    if t.List? || t.Map? || t.Set? || t.Array? then 1 + Height(t.element)
    else if t.Struct? then 1 + FieldsHeight(t.fields)
    else if t.Union? then 1 + TypesHeight(t.types)
    else 0
  }

  ghost function FieldsHeight(fs: seq<Field>): (h: nat)
    ensures forall i :: 0 <= i < |fs| ==> Height(fs[i].ty) <= h
    decreases fs, 1
  {
    if fs == [] then 0
    else
      var rest := FieldsHeight(fs[1..]);
      assert forall i :: 1 <= i < |fs| ==> fs[i] == fs[1..][i - 1];
      if Height(fs[0].ty) > rest then Height(fs[0].ty) else rest
  }

  ghost function TypesHeight(ts: seq<DataType>): (h: nat)
    ensures forall i :: 0 <= i < |ts| ==> Height(ts[i]) <= h
    decreases ts, 1
  {
    if ts == [] then 0
    else
      var rest := TypesHeight(ts[1..]);
      assert forall i :: 1 <= i < |ts| ==> ts[i] == ts[1..][i - 1];
      if Height(ts[0]) > rest then Height(ts[0]) else rest
  }
}
