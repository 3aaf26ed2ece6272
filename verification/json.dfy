/** The JSON values a room document is made of. */
module Json {
  import opened Records

  /** A JSON value. Numbers are kept as integers: the bundler never does arithmetic
      on them, it only copies them. Objects are insertion-ordered records. */
  datatype Value =
    | Null
    | Bool(b: bool)
    | Num(n: int)
    | Str(s: string)
    | Arr(items: seq<Value>)
    | Obj(fields: Record<Value>)

  /** `typeof v === 'object' && v !== null`: arrays and plain objects. */
  predicate IsObject(v: Value) {
    v.Arr? || v.Obj?
  }

  /** Every object inside `v` has distinct property names, as every value
      `JSON.parse` produces does. */
  predicate WellFormed(v: Value)
    decreases v
  {
    match v
    case Arr(items) => forall i | 0 <= i < |items| :: WellFormed(items[i])
    case Obj(fields) => Distinct(fields) && forall i | 0 <= i < |fields| :: WellFormed(fields[i].1)
    case _ => true
  }
}
