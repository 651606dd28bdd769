// The expansion driver (`itWithExamples`) and the three entry points
// (`exampleIt`, `focusedExampleIt`, `excludedExampleIt`). The host test
// framework is a `Host` object: its registration functions append to a log,
// and it may carry a configured default timeout.
module Expansion {
  import opened Wrappers
  import opened JsValues
  import opened ExampleData
  import opened NameSubstitution
  import opened BodyAdaptation
  import opened VariantSelection
  import opened TimeoutResolution

  /** One call of `it`, `fit` or `xit`: which one, and its three arguments. */
  datatype Registration = Registration(variant: Variant, name: string, body: Body, timeout: int)

  /** What the callback of `examples.map` registers for one row, or the error it throws. */
  function RegistrationFor(specName: string, arity: nat, row: Row, timeout: Option<int>,
                           hostDefault: Option<int>, flagDefault: Option<Value>): Result<Registration, Error>
  {
    match GenerateSpecFunction(arity, row)
    case Err(e) => Err(e)
    case Ok(body) =>
      Ok(Registration(GetItFunction(row, flagDefault), SubstitutedName(specName, row), body,
                      EffectiveTimeout(timeout, hostDefault)))
  }

  /**
   * The registrations of all rows, in row order. The arity error can only be
   * raised by the first row (the spec function is shared), so an empty list
   * succeeds whatever the arity.
   */
  function ExpandRows(specName: string, arity: nat, rows: seq<Row>, timeout: Option<int>,
                      hostDefault: Option<int>, flagDefault: Option<Value>): (r: Result<seq<Registration>, Error>)
    ensures r.Ok? <==> rows == [] || arity == 1 || arity == 2
    ensures r.Err? ==> r.error == InvalidSpecArity
    ensures r.Ok? ==> (|r.value| == |rows| &&
      forall i :: 0 <= i < |rows| ==>
        RegistrationFor(specName, arity, rows[i], timeout, hostDefault, flagDefault) == Ok(r.value[i]))
    decreases |rows|
  {
    if rows == [] then Ok([])
    else
      match RegistrationFor(specName, arity, rows[0], timeout, hostDefault, flagDefault)
      case Err(e) => Err(e)
      case Ok(reg) =>
        match ExpandRows(specName, arity, rows[1..], timeout, hostDefault, flagDefault)
        case Err(e) => Err(e)
        case Ok(regs) =>
          ConsPointwise(specName, arity, rows, timeout, hostDefault, flagDefault, reg, regs);
          Ok([reg] + regs)
  }

  /** The first row's registration followed by the rest's agrees with the callback row by row. */
  lemma ConsPointwise(specName: string, arity: nat, rows: seq<Row>, timeout: Option<int>,
                      hostDefault: Option<int>, flagDefault: Option<Value>, reg: Registration, regs: seq<Registration>)
    requires rows != [] && |regs| == |rows| - 1
    requires RegistrationFor(specName, arity, rows[0], timeout, hostDefault, flagDefault) == Ok(reg)
    requires forall i :: 0 <= i < |regs| ==>
      RegistrationFor(specName, arity, rows[1..][i], timeout, hostDefault, flagDefault) == Ok(regs[i])
    ensures forall i :: 0 <= i < |rows| ==>
      RegistrationFor(specName, arity, rows[i], timeout, hostDefault, flagDefault) == Ok(([reg] + regs)[i])
  {
    forall i | 1 <= i < |rows|
      ensures RegistrationFor(specName, arity, rows[i], timeout, hostDefault, flagDefault) == Ok(([reg] + regs)[i])
    {
      assert rows[1..][i - 1] == rows[i];
    }
  }

  /**
   * The whole expansion: a non-array `examples` is rejected before any row is
   * looked at; otherwise every row gets one registration, in order.
   */
  function Expand(specName: string, arity: nat, examples: Examples, timeout: Option<int>,
                  hostDefault: Option<int>, flagDefault: Option<Value>): (r: Result<seq<Registration>, Error>)
    ensures examples.NotAnArray? ==> r == Err(InvalidInputKind)
    ensures examples.ArrayOf? ==>
      (r.Ok? <==> examples.rows == [] || arity == 1 || arity == 2) &&
      (r.Err? ==> r.error == InvalidSpecArity)
    ensures r.Ok? ==> (examples.ArrayOf? && |r.value| == |examples.rows| &&
      forall i :: 0 <= i < |r.value| ==>
        var row := examples.rows[i];
        var reg := r.value[i];
        reg.name == SubstitutedName(specName, row) &&
        reg.variant == GetItFunction(row, flagDefault) &&
        reg.timeout == EffectiveTimeout(timeout, hostDefault) &&
        reg.body.Forwarded()[0] == RowValue(row) &&
        |reg.body.Forwarded()| == arity)
  {
    match examples
    case NotAnArray => Err(InvalidInputKind)
    case ArrayOf(rows) => ExpandRows(specName, arity, rows, timeout, hostDefault, flagDefault)
  }

  /**
   * The three entry points produce the same registrations (same names, bodies
   * and timeouts, in the same order, or the same error) and differ only in the
   * variant: under "f" every row without a truthy flag of its own is focused,
   * under "x" skipped, without a default normal; a row's own flag is kept.
   */
  lemma {:induction false} EntryPointsDifferOnlyInVariant(specName: string, arity: nat, rows: seq<Row>,
                                                          timeout: Option<int>, hostDefault: Option<int>)
    ensures var plain := ExpandRows(specName, arity, rows, timeout, hostDefault, NoDefault);
      var focused := ExpandRows(specName, arity, rows, timeout, hostDefault, FocusDefault);
      var skipped := ExpandRows(specName, arity, rows, timeout, hostDefault, SkipDefault);
      plain.Ok? == focused.Ok? == skipped.Ok? &&
      (plain.Err? ==> plain == focused == skipped) &&
      (plain.Ok? ==> (|plain.value| == |focused.value| == |skipped.value| &&
        forall i :: 0 <= i < |rows| ==>
          var p, f, x := plain.value[i], focused.value[i], skipped.value[i];
          p.(variant := Normal) == f.(variant := Normal) == x.(variant := Normal) &&
          (TruthyFlag(RowFlag(rows[i])) ==> p.variant == f.variant == x.variant) &&
          (!TruthyFlag(RowFlag(rows[i])) ==> p.variant == Normal && f.variant == Focused && x.variant == Skipped)))
    decreases |rows|
  {
    var plain := ExpandRows(specName, arity, rows, timeout, hostDefault, NoDefault);
    var focused := ExpandRows(specName, arity, rows, timeout, hostDefault, FocusDefault);
    var skipped := ExpandRows(specName, arity, rows, timeout, hostDefault, SkipDefault);
    if plain.Ok? {
      forall i | 0 <= i < |rows|
        ensures var p, f, x := plain.value[i], focused.value[i], skipped.value[i];
          p.(variant := Normal) == f.(variant := Normal) == x.(variant := Normal) &&
          (TruthyFlag(RowFlag(rows[i])) ==> p.variant == f.variant == x.variant) &&
          (!TruthyFlag(RowFlag(rows[i])) ==> p.variant == Normal && f.variant == Focused && x.variant == Skipped)
      {
        EntryPointVariants(rows[i]);
      }
    }
  }

  /** Every registration of one call receives the same timeout, and 0 falls through to the default. */
  lemma TimeoutSharedByAllRows(specName: string, arity: nat, examples: Examples, timeout: Option<int>,
                               hostDefault: Option<int>, flagDefault: Option<Value>)
    ensures var r := Expand(specName, arity, examples, timeout, hostDefault, flagDefault);
      r.Ok? ==> forall i, j :: 0 <= i < |r.value| && 0 <= j < |r.value| ==> r.value[i].timeout == r.value[j].timeout
    ensures var r := Expand(specName, arity, examples, Some(0), hostDefault, flagDefault);
      r.Ok? ==> forall i :: 0 <= i < |r.value| ==> r.value[i].timeout == GetDefaultTimeout(hostDefault)
  {
  }

  /** Handles `start`, `start + 1`, ... for `n` consecutive registrations. */
  function Handles(start: nat, n: nat): (hs: seq<nat>)
    ensures |hs| == n && forall i :: 0 <= i < n ==> hs[i] == start + i
    decreases n
  {
    if n == 0 then [] else Handles(start, n - 1) + [start + n - 1]
  }

  /** A sequence holding `start + k` at every position `k` is `Handles(start, n)`. */
  lemma HandlesPointwise(hs: seq<nat>, start: nat, n: nat)
    requires |hs| == n && forall k :: 0 <= k < n ==> hs[k] == start + k
    ensures hs == Handles(start, n)
  {
  }

  /**
   * The host test framework. `it`, `fit` and `xit` append a registration to
   * the log and return its position; `defaultTimeout` is the framework's
   * configured default interval, absent when no such framework is loaded.
   */
  class Host {
    const defaultTimeout: Option<int>
    var log: seq<Registration>

    constructor (defaultTimeout: Option<int>)
      ensures this.defaultTimeout == defaultTimeout && log == []
    {
      this.defaultTimeout := defaultTimeout;
      log := [];
    }

    /** Calls `it`, `fit` or `xit` with the name, the body and the timeout. */
    method Register(reg: Registration) returns (handle: nat)
      modifies this
      ensures log == old(log) + [reg] && handle == |old(log)|
    {
      handle := |log|;
      log := log + [reg];
    }
  }

  /**
   * The registrations `ExpandRows` gives are the only ones that agree row by
   * row with the callback: a log that does is exactly its result.
   */
  lemma {:induction false} ExpandRowsPointwise(specName: string, arity: nat, rows: seq<Row>, timeout: Option<int>,
                                               hostDefault: Option<int>, flagDefault: Option<Value>, regs: seq<Registration>)
    requires |regs| == |rows|
    requires forall j :: 0 <= j < |rows| ==>
      RegistrationFor(specName, arity, rows[j], timeout, hostDefault, flagDefault) == Ok(regs[j])
    ensures ExpandRows(specName, arity, rows, timeout, hostDefault, flagDefault) == Ok(regs)
  {
    var e := ExpandRows(specName, arity, rows, timeout, hostDefault, flagDefault);
    if rows != [] {
      assert RegistrationFor(specName, arity, rows[0], timeout, hostDefault, flagDefault).Ok?;
    }
    assert e.Ok?;
    assert forall j :: 0 <= j < |rows| ==> e.value[j] == regs[j];
    assert e.value == regs;
  }

  /**
   * `itWithExamples`: checks that `examples` is an array, then for each row in
   * order computes its name, its wrapper and its variant and registers it
   * with the host. The log grows by exactly the registrations `Expand`
   * describes, and the handles returned are theirs; on an error nothing is
   * registered.
   */
  method ItWithExamples(host: Host, specName: string, arity: nat, examples: Examples,
                        timeout: Option<int>, flagDefault: Option<Value>) returns (r: Result<seq<nat>, Error>)
    modifies host
    ensures var e := Expand(specName, arity, examples, timeout, host.defaultTimeout, flagDefault);
      (e.Err? ==> r == Err(e.error) && host.log == old(host.log)) &&
      (e.Ok? ==> host.log == old(host.log) + e.value && r == Ok(Handles(|old(host.log)|, |e.value|)))
  {
    if !examples.ArrayOf? {
      return Err(InvalidInputKind);
    }
    r := RegisterRows(host, specName, arity, examples.rows, timeout, flagDefault);
  }

  /**
   * The callback of `examples.map`: the row's name, wrapper and variant, then
   * one call of the chosen host function; the arity error is thrown before
   * anything is registered.
   */
  method RegisterRow(host: Host, specName: string, arity: nat, row: Row,
                     timeout: Option<int>, flagDefault: Option<Value>) returns (r: Result<nat, Error>)
    modifies host
    ensures var e := RegistrationFor(specName, arity, row, timeout, host.defaultTimeout, flagDefault);
      (e.Err? ==> r == Err(e.error) && host.log == old(host.log)) &&
      (e.Ok? ==> host.log == old(host.log) + [e.value] && r == Ok(|old(host.log)|))
  {
    var scenarioName := SubstituteExampleValuesInSpecName(specName, row);
    var scenarioFunction := GenerateSpecFunction(arity, row);
    if scenarioFunction.Err? {
      return Err(scenarioFunction.error);
    }
    var itType := GetItFunction(row, flagDefault);
    var handle := host.Register(Registration(itType, scenarioName, scenarioFunction.value,
                                             EffectiveTimeout(timeout, host.defaultTimeout)));
    r := Ok(handle);
  }

  /** Appending the next element of `v` extends the prefix taken by one. */
  lemma AppendNext<T>(front: seq<T>, v: seq<T>, i: nat)
    requires i < |v|
    ensures front + v[..i] + [v[i]] == front + v[..i + 1]
  {
    assert v[..i + 1] == v[..i] + [v[i]];
  }

  /** Row `i` of a non-empty list fails exactly when the expansion does, and otherwise gives its `i`-th registration. */
  lemma ExpandRowsAt(specName: string, arity: nat, rows: seq<Row>, i: nat, timeout: Option<int>,
                     hostDefault: Option<int>, flagDefault: Option<Value>)
    requires i < |rows|
    ensures var e := ExpandRows(specName, arity, rows, timeout, hostDefault, flagDefault);
      var x := RegistrationFor(specName, arity, rows[i], timeout, hostDefault, flagDefault);
      (x.Err? <==> e.Err?) && (x.Err? ==> x.error == e.error) && (x.Ok? ==> x.value == e.value[i])
  {
  }

  /** The `examples.map` of `itWithExamples`: one registration per row, in row order. */
  method RegisterRows(host: Host, specName: string, arity: nat, rows: seq<Row>,
                      timeout: Option<int>, flagDefault: Option<Value>) returns (r: Result<seq<nat>, Error>)
    modifies host
    ensures var e := ExpandRows(specName, arity, rows, timeout, host.defaultTimeout, flagDefault);
      (e.Err? ==> r == Err(e.error) && host.log == old(host.log)) &&
      (e.Ok? ==> host.log == old(host.log) + e.value && r == Ok(Handles(|old(host.log)|, |e.value|)))
  {
    var log0 := host.log;
    var handles: seq<nat> := [];
    ghost var e := ExpandRows(specName, arity, rows, timeout, host.defaultTimeout, flagDefault);
    for i := 0 to |rows|
      invariant e.Ok? ==> host.log == log0 + e.value[..i]
      invariant e.Err? ==> i == 0 && host.log == log0
      invariant |handles| == i && forall k :: 0 <= k < i ==> handles[k] == |log0| + k
    {
      ExpandRowsAt(specName, arity, rows, i, timeout, host.defaultTimeout, flagDefault);
      var handle := RegisterRow(host, specName, arity, rows[i], timeout, flagDefault);
      if handle.Err? {
        return Err(handle.error);
      }
      AppendNext(log0, e.value, i);
      handles := handles + [handle.value];
    }
    assert e.value[..|rows|] == e.value;
    HandlesPointwise(handles, |log0|, |rows|);
    r := Ok(handles);
  }

  /** One more row extends the expansion by that row's registration. */
  lemma ExpandRowsSnoc(specName: string, arity: nat, rows: seq<Row>, row: Row, timeout: Option<int>,
                       hostDefault: Option<int>, flagDefault: Option<Value>, regs: seq<Registration>, reg: Registration)
    requires ExpandRows(specName, arity, rows, timeout, hostDefault, flagDefault) == Ok(regs)
    requires RegistrationFor(specName, arity, row, timeout, hostDefault, flagDefault) == Ok(reg)
    ensures ExpandRows(specName, arity, rows + [row], timeout, hostDefault, flagDefault) == Ok(regs + [reg])
  {
    var all := rows + [row];
    assert forall j :: 0 <= j < |rows| ==> all[j] == rows[j];
    ExpandRowsPointwise(specName, arity, all, timeout, hostDefault, flagDefault, regs + [reg]);
  }

  /** `eit`: each row's own flag decides, unflagged rows are normal tests. */
  method ExampleIt(host: Host, specName: string, arity: nat, examples: Examples, timeout: Option<int>)
    returns (r: Result<seq<nat>, Error>)
    modifies host
    ensures var e := Expand(specName, arity, examples, timeout, host.defaultTimeout, NoDefault);
      (e.Err? ==> r == Err(e.error) && host.log == old(host.log)) &&
      (e.Ok? ==> host.log == old(host.log) + e.value && r == Ok(Handles(|old(host.log)|, |e.value|)))
  {
    r := ItWithExamples(host, specName, arity, examples, timeout, NoDefault);
  }

  /** `feit`: unflagged rows become focused tests. */
  method FocusedExampleIt(host: Host, specName: string, arity: nat, examples: Examples, timeout: Option<int>)
    returns (r: Result<seq<nat>, Error>)
    modifies host
    ensures var e := Expand(specName, arity, examples, timeout, host.defaultTimeout, FocusDefault);
      (e.Err? ==> r == Err(e.error) && host.log == old(host.log)) &&
      (e.Ok? ==> host.log == old(host.log) + e.value && r == Ok(Handles(|old(host.log)|, |e.value|)))
  {
    r := ItWithExamples(host, specName, arity, examples, timeout, FocusDefault);
  }

  /** `xeit`: unflagged rows become skipped tests. */
  method ExcludedExampleIt(host: Host, specName: string, arity: nat, examples: Examples, timeout: Option<int>)
    returns (r: Result<seq<nat>, Error>)
    modifies host
    ensures var e := Expand(specName, arity, examples, timeout, host.defaultTimeout, SkipDefault);
      (e.Err? ==> r == Err(e.error) && host.log == old(host.log)) &&
      (e.Ok? ==> host.log == old(host.log) + e.value && r == Ok(Handles(|old(host.log)|, |e.value|)))
  {
    r := ItWithExamples(host, specName, arity, examples, timeout, SkipDefault);
  }

  /**
   * The parameter and input examples: a spec function without parameters
   * fails on the first of the rows 1, 2, 3 with the arity message; an object
   * instead of an array is rejected with the input message; a two-parameter
   * spec function gets wrappers that each take the completion handle.
   */
  lemma DriverExamples(hostDefault: Option<int>, flagDefault: Option<Value>)
    ensures var r := Expand("example eit", 0, ArrayOf([Prim(Num(1)), Prim(Num(2)), Prim(Num(3))]), None, hostDefault, flagDefault);
      r.Err? && r.error.Message() ==
        "Invalid number of parameters provided on the spec's function. Spec function must use either one or two parameters"
    ensures var r := Expand("spec name", 1, NotAnArray, None, hostDefault, flagDefault);
      r.Err? && r.error.Message() == "Examples must be an array of objects or primitives"
    ensures var r := Expand("n {}", 2, ArrayOf([Prim(Num(1)), Prim(Num(2)), Prim(Num(3))]), None, hostDefault, flagDefault);
      r.Ok? && |r.value| == 3 && forall i :: 0 <= i < 3 ==> r.value[i].body.Parameters() == 1
  {
    var r := Expand("n {}", 2, ArrayOf([Prim(Num(1)), Prim(Num(2)), Prim(Num(3))]), None, hostDefault, flagDefault);
    forall i | 0 <= i < 3 ensures r.value[i].body.Parameters() == 1 {
      assert |r.value[i].body.Forwarded()| == 2;
    }
  }

  /** The timeout example: an explicit 10000 reaches every registration. */
  lemma TimeoutExample(hostDefault: Option<int>, flagDefault: Option<Value>)
    ensures var r := Expand("timeout", 1, ArrayOf([Prim(Num(1)), Prim(Num(2))]), Some(10000), hostDefault, flagDefault);
      r.Ok? && |r.value| == 2 && forall i :: 0 <= i < |r.value| ==> r.value[i].timeout == 10000
  {
  }

  /** An empty row list registers nothing, whatever the spec function's arity. */
  lemma NoRowsNoRegistrations(specName: string, arity: nat, timeout: Option<int>,
                              hostDefault: Option<int>, flagDefault: Option<Value>)
    ensures Expand(specName, arity, ArrayOf([]), timeout, hostDefault, flagDefault) == Ok([])
  {
  }

  /**
   * Under `xeit`, the rows `{a: 5}` and `{flag: "f"}` give one skipped and
   * one focused registration, in that order.
   */
  lemma SkippedEntryPointExample(hostDefault: Option<int>)
    ensures var r := Expand("should use xit", 1, ArrayOf([Named([("a", Num(5))]), Named([("flag", Str("f"))])]),
                            None, hostDefault, SkipDefault);
      r.Ok? && |r.value| == 2 && r.value[0].variant == Skipped && r.value[1].variant == Focused
  {
    EntryPointVariants(Named([("a", Num(5))]));
    EntryPointVariants(Named([("flag", Str("f"))]));
  }
}
