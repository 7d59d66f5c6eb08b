/** The value tree a YAML or JSON configuration document decodes to. */
module JsonValues {
  import opened Decimals
  import opened OrderedMaps

  /** A decoded document value. A number of scale 0 is a Python `int`; one
      with fraction digits is a Python `float`. An object is a dict; lookups
      take the first binding of a key, so documents are meant to have
      distinct keys. */
  datatype Json =
    | Null
    | Bool(b: bool)
    | Num(n: Decimal)
    | Str(s: string)
    | Arr(items: seq<Json>)
    | Obj(fields: OrderedMap<Json>)

  /** Python truthiness: `None`, `False`, zero, and empty texts, lists and
      dicts are false. */
  predicate Truthy(j: Json) {
    match j
    case Null => false
    case Bool(b) => b
    case Num(n) => n.mantissa != 0
    case Str(s) => |s| > 0
    case Arr(items) => |items| > 0
    case Obj(fields) => |fields| > 0
  }

  /** Python's `a or b`. */
  function Or(a: Json, b: Json): (r: Json)
    ensures Truthy(a) ==> r == a
    ensures !Truthy(a) ==> r == b
  {
    if Truthy(a) then a else b
  }
}
