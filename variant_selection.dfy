// Variant selection (`getItFunction`): picks the host registration function
// (normal `it`, focused `fit`, skipped `xit`) for one row.
module VariantSelection {
  import opened Wrappers
  import opened JsValues
  import opened ExampleData

  /** The three host registration functions. */
  datatype Variant = Normal | Focused | Skipped

  /** An optional JavaScript value is truthy when present and truthy. */
  predicate TruthyFlag(flag: Option<Value>) {
    flag.Some? && Truthy(flag.value)
  }

  /** The row's own flag: `row.flag` for an object row, "" for a primitive row. */
  function RowFlag(row: Row): (flag: Option<Value>)
    ensures row.Prim? ==> !TruthyFlag(flag)
    ensures row.Named? ==> flag == Lookup(row.fields, "flag")
  {
    match row
    case Named(fields) => Lookup(fields, "flag")
    case Prim(_) => Some(Str(""))
  }

  /** The `switch` on the flag: strictly "f" is focused, strictly "x" is skipped. */
  function FlagVariant(flag: Option<Value>): (v: Variant)
    ensures v == Focused <==> flag == Some(Str("f"))
    ensures v == Skipped <==> flag == Some(Str("x"))
    ensures !TruthyFlag(flag) ==> v == Normal
  {
    if flag == Some(Str("f")) then Focused
    else if flag == Some(Str("x")) then Skipped
    else Normal
  }

  /**
   * The variant of one row. A truthy flag of the row's own always decides;
   * otherwise the default flag decides (and no default means a normal test).
   */
  function GetItFunction(row: Row, defaultFlag: Option<Value>): (v: Variant)
    ensures TruthyFlag(RowFlag(row)) ==> v == FlagVariant(RowFlag(row))
    ensures !TruthyFlag(RowFlag(row)) ==> v == FlagVariant(defaultFlag)
  {
    var own := RowFlag(row);
    var flag := if TruthyFlag(defaultFlag) then (if TruthyFlag(own) then own else defaultFlag) else own;
    FlagVariant(flag)
  }

  /** The default flags of the three entry points. */
  const NoDefault: Option<Value> := None
  const FocusDefault: Option<Value> := Some(Str("f"))
  const SkipDefault: Option<Value> := Some(Str("x"))

  /**
   * A row's own "f" or "x" wins under every default flag; a row without a
   * truthy flag of its own takes the default, so "f" makes it focused and
   * "x" skipped, and without a default it is a normal test.
   */
  lemma EntryPointVariants(row: Row)
    ensures RowFlag(row) == Some(Str("f")) ==>
      GetItFunction(row, NoDefault) == GetItFunction(row, FocusDefault) == GetItFunction(row, SkipDefault) == Focused
    ensures RowFlag(row) == Some(Str("x")) ==>
      GetItFunction(row, NoDefault) == GetItFunction(row, FocusDefault) == GetItFunction(row, SkipDefault) == Skipped
    ensures !TruthyFlag(RowFlag(row)) ==>
      GetItFunction(row, NoDefault) == Normal &&
      GetItFunction(row, FocusDefault) == Focused &&
      GetItFunction(row, SkipDefault) == Skipped
  {
  }

  /**
   * The flag examples: a row's own "f" or "x" under the plain entry point,
   * and rows without a truthy flag of their own under "f" and "x".
   */
  lemma FlagExamples()
    ensures GetItFunction(Named([("a", Num(1)), ("flag", Str("f"))]), NoDefault) == Focused
    ensures GetItFunction(Named([("a", Num(1)), ("flag", Str("x"))]), NoDefault) == Skipped
    ensures GetItFunction(Named([("a", Num(1))]), NoDefault) == Normal
    ensures forall row <- [Prim(Num(1)), Named([("a", Num(5))]), Named([("flag", Null)])] ::
      GetItFunction(row, FocusDefault) == Focused && GetItFunction(row, SkipDefault) == Skipped
    ensures GetItFunction(Named([("flag", Str("x"))]), FocusDefault) == Skipped
    ensures GetItFunction(Named([("flag", Str("f"))]), SkipDefault) == Focused
  {
  }
}
