// Body adaptation (`generateSpecFunction`): wraps the user's spec function
// in the calling convention the host's registration functions expect. The
// spec function is known here only by its declared parameter count.
module BodyAdaptation {
  import opened Wrappers
  import opened ExampleData

  /** How a spec function of a given declared parameter count is called. */
  datatype SpecMode = Sync | WithDone | Bad(arity: nat)

  function ModeOf(arity: nat): (m: SpecMode)
    ensures m == Sync <==> arity == 1
    ensures m == WithDone <==> arity == 2
    ensures m.Bad? ==> m.arity == arity
  {
    if arity == 1 then Sync else if arity == 2 then WithDone else Bad(arity)
  }

  /** An argument the wrapper passes on: the row's value, or the host's completion handle. */
  datatype Arg = RowValue(row: Row) | DoneHandle

  /**
   * The wrapper handed to the host: `SyncBody` is `function () { spec(value) }`,
   * `DoneBody` is `function (done) { spec(value, done) }`.
   */
  datatype Body = SyncBody(value: Row) | DoneBody(value: Row) {

    /** The wrapper's own declared parameter count (`callback.length` for the host). */
    function Parameters(): nat {
      match this
      case SyncBody(_) => 0
      case DoneBody(_) => 1
    }

    /** The arguments the wrapper passes to the spec function when the host runs it. */
    function Forwarded(): seq<Arg> {
      match this
      case SyncBody(v) => [RowValue(v)]
      case DoneBody(v) => [RowValue(v), DoneHandle]
    }
  }

  /**
   * The wrapper for one row. A spec function taking one or two parameters is
   * wrapped so that it receives exactly as many arguments as it declares: the
   * row's value first, then the wrapper's own parameters (the completion
   * handle). Any other parameter count throws the arity error.
   */
  function GenerateSpecFunction(arity: nat, value: Row): (r: Result<Body, Error>)
    ensures r.Ok? <==> arity == 1 || arity == 2
    ensures r.Err? ==> r.error == InvalidSpecArity
    ensures r.Ok? ==>
      var args := r.value.Forwarded();
      |args| == arity && args[0] == RowValue(value) &&
      r.value.Parameters() == arity - 1 &&
      (arity == 2 ==> args[1] == DoneHandle)
  {
    match ModeOf(arity)
    case Sync => Ok(SyncBody(value))
    case WithDone => Ok(DoneBody(value))
    case Bad(_) => Err(InvalidSpecArity)
  }

  /**
   * Whatever the row, the wrapper depends only on the arity for its shape:
   * two rows give wrappers of the same kind, or both fail.
   */
  lemma WrapperShapeIndependentOfRow(arity: nat, a: Row, b: Row)
    ensures GenerateSpecFunction(arity, a).Ok? == GenerateSpecFunction(arity, b).Ok?
    ensures GenerateSpecFunction(arity, a).Ok? ==>
      GenerateSpecFunction(arity, a).value.Parameters() == GenerateSpecFunction(arity, b).value.Parameters()
  {
  }
}
