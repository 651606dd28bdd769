// The inputs of the expander: example rows, the examples argument as a
// whole, and the two errors the expander throws.
module ExampleData {
  import opened Wrappers
  import opened JsValues

  /**
   * A value that can stand alone as a primitive row: `null` cannot, because
   * `typeof null` is "object" and the expander then takes the object path.
   */
  type PrimValue = v: Value | !v.Null? witness Num(0)

  /**
   * One example row: an object whose own fields are listed in key order, or
   * a bare primitive other than `null`.
   */
  datatype Row = Named(fields: seq<(string, Value)>) | Prim(value: PrimValue)

  /**
   * The `examples` argument: an array of rows, or any value that is not an
   * array (`examples instanceof Array` is false).
   */
  datatype Examples = ArrayOf(rows: seq<Row>) | NotAnArray

  const InvalidInputText := "Examples must be an array of objects or primitives"
  const InvalidArityText :=
    "Invalid number of parameters provided on the spec's function. Spec function must use either one or two parameters"

  /** The two errors the expander throws, each with its fixed message. */
  datatype Error = InvalidInputKind | InvalidSpecArity {
    function Message(): string {
      match this
      case InvalidInputKind => InvalidInputText
      case InvalidSpecArity => InvalidArityText
    }
  }

  /** `row[key]` for an object row: the value of the first field with that key. */
  function Lookup(fields: seq<(string, Value)>, key: string): (r: Option<Value>)
    ensures r.Some? <==> exists i :: 0 <= i < |fields| && fields[i].0 == key
    ensures r.Some? ==> exists i :: 0 <= i < |fields| && fields[i] == (key, r.value)
  {
    if fields == [] then None
    else if fields[0].0 == key then Some(fields[0].1)
    else
      var r := Lookup(fields[1..], key);
      assert forall i :: 1 <= i < |fields| ==> fields[i] == fields[1..][i - 1];
      r
  }
}
