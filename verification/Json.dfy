/** JSON values and positions in them. */
module Json {
  import opened Wrappers

  /** Object fields keep their textual order; an array index or field index is a child number. */
  datatype Json =
    | Null
    | Bool(b: bool)
    | Number(raw: string)
    | String(text: string)
    | Array(items: seq<Json>)
    | Object(fields: seq<Field>)

  datatype Field = Field(name: string, value: Json)

  /** A position: the child number taken at each level. */
  type Loc = seq<nat>

  function Arity(j: Json): nat {
    match j
    case Array(items) => |items|
    case Object(fields) => |fields|
    case _ => 0
  }

  function Child(j: Json, i: nat): (c: Json)
    requires i < Arity(j)
    ensures c < j
  {
    match j
    case Array(items) => items[i]
    case Object(fields) => assert fields[i] < j; fields[i].value
  }

  function WithChild(j: Json, i: nat, c: Json): (r: Json)
    requires i < Arity(j)
    ensures Arity(r) == Arity(j)
    ensures forall k :: 0 <= k < Arity(j) ==> Child(r, k) == if k == i then c else Child(j, k)
  {
    match j
    case Array(items) => Array(items[i := c])
    case Object(fields) => Object(fields[i := Field(fields[i].name, c)])
  }

  function At(j: Json, loc: Loc): (r: Option<Json>)
    decreases |loc|
  {
    if loc == [] then Some(j)
    else if loc[0] >= Arity(j) then None
    else At(Child(j, loc[0]), loc[1..])
  }

  /** Number of the first field with this name. */
  function FieldIndex(fields: seq<Field>, name: string): (r: Option<nat>)
    ensures r.Some? ==> r.value < |fields| && fields[r.value].name == name
    ensures r.Some? ==> forall i :: 0 <= i < r.value ==> fields[i].name != name
    ensures r.None? ==> forall i :: 0 <= i < |fields| ==> fields[i].name != name
  {
    if fields == [] then None
    else if fields[0].name == name then Some(0)
    else match FieldIndex(fields[1..], name)
      case None => None
      case Some(i) => Some(i + 1)
  }
}
