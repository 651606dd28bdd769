# it-with-examples, modelled in Dafny

`it-with-examples` expands one test template into one registered test per
example row (the "it with examples" helper behind `eit`, `feit` and `xeit`).
For every row it renders the row's values into the test name, wraps the
user's spec function so that it receives the row, picks the host
registration function (`it`, `fit` or `xit`) from the row's flag and the
entry point's default flag, resolves the timeout, and registers the test.

The model follows `index.js` part by part:

- `js_values.dfy` (`JsValues`): the row values (string, integral number,
  boolean, null), their JavaScript truthiness (`Truthy`, the one definition
  the flag and timeout tests reuse) and the text `String(v)` gives them
  (`Render`, characterised by `RenderNumIsDecimal`).
- `js_strings.dfy` (`JsStrings`): `String.prototype.replace` with a global
  pattern matching a fixed text (`ReplaceAll`, used at index.js:68 and 72),
  characterised by cutting the text at the
  occurrences (`Split`) and gluing the pieces back (`Join`).
- `example_data.dfy` (`ExampleData`): rows (`Named` object rows with their
  fields in key order, `Prim` primitive rows), the `examples` argument, and
  the two thrown errors with their fixed messages.
- `name_substitution.dfy` (`NameSubstitution`): the `forEach` loop of
  `substituteExampleValuesInSpecName` as a method, specified by the left fold
  `SubstituteFields`, with `SubstitutedName` choosing the fold for an object
  row and the `{}` replace for a primitive row; templates seen as text pieces and `{key}` slots, and the
  theorem that the fold fills them like a simultaneous substitution.
- `body_adaptation.dfy` (`BodyAdaptation`): `generateSpecFunction` with the
  spec function known by its declared parameter count; the wrapper is a
  tagged record that says how many parameters it declares and what it
  forwards.
- `variant_selection.dfy` (`VariantSelection`): `getItFunction`.
- `timeout_resolution.dfy` (`TimeoutResolution`): `getDefaultTimeout` and
  `timeout || getDefaultTimeout()`.
- `expansion.dfy` (`Expansion`): the host framework as a `Host` object whose
  registration functions append to a log, the driver `itWithExamples` as a
  method over that log, its specification `Expand` built from the per-row
  callback `RegistrationFor` (index.js:37-40), and the three entry points.

Key order matters: the code is a left fold of global replaces in key order,
so a value whose text is a later key's placeholder is itself substituted
(`KeyOrderMatters` shows both orders). Order-free, simultaneous behaviour is
proved only for values whose text holds no `{` (`ObjectRowFillsSlots`). The comment above `getItFunction`
names flags such as "focused" and "disabled"; the code matches only "f" and
"x", and the model follows the code.

## Model

| member | source | states |
|---|---|---|
| JsValues.NatToDecimalDenotes | index.js:68-72 | the decimal text of a natural number is digits only, without a leading zero, and denotes that number |
| JsValues.RenderNumIsDecimal | index.js:72 | a number used as a replacement shows as an optional minus sign and the canonical decimal digits of its magnitude |
| JsStrings.Split | index.js:68 | the pieces between occurrences: at least one, the first one a prefix of the text |
| JsStrings.ReplaceAllIsJoin | index.js:68 | a global replace is cutting the text at every occurrence and putting the replacement in each cut |
| JsStrings.ReplaceAllSelf | index.js:68 | replacing the pattern by itself changes nothing |
| JsStrings.SplitJoin | index.js:68 | the pieces glued back with the pattern give the original text |
| JsStrings.SplitPiecesFree | index.js:68 | no piece contains the pattern, so every occurrence is replaced |
| JsStrings.ContainsIffCut | index.js:68 | the text contains the pattern exactly when there is more than one piece |
| JsStrings.ReplaceAllAbsent | index.js:68 | a text without the pattern comes back unchanged |
| JsStrings.ReplaceAllSkip | index.js:68 | text that cannot start the pattern is copied through and the scan continues after it |
| JsStrings.ReplaceAllHit | index.js:68 | an occurrence at the front is replaced and the scan resumes right after it |
| JsStrings.ReplaceAllStep | index.js:68 | a character that cannot start the pattern is copied through and the scan moves one position on |
| ExampleData.Lookup | index.js:133 | reading a key of an object row finds a value exactly when the row has a field with that key, and the value is that field's |
| NameSubstitution.Placeholder | index.js:68 | the named placeholder is exactly the key between `{` and `}` |
| NameSubstitution.NoPlaceholdersUnchanged | index.js:64-70 | the fold over an object row's fields leaves a template holding none of the row's placeholders unchanged |
| NameSubstitution.PrimitiveRowIsJoin | index.js:71-73 | for a primitive row every `{}` is cut out and the value's text put in each cut, the rest verbatim |
| NameSubstitution.SubstituteFieldsSnoc | index.js:66-70 | one more field in key order applies one more global replace to the name built so far |
| NameSubstitution.SubstituteExampleValuesInSpecName | index.js:63-75 | the loop over the row's keys returns the left-fold name of the row, and the primitive branch the `{}` replacement |
| NameSubstitution.SingleFieldRow | index.js:65-70 | a one-field row replaces every `{key}`, repeats included, and keeps the text between verbatim |
| NameSubstitution.PrimitiveWithoutPlaceholder | index.js:71-73 | a template without `{}` comes back unchanged for a primitive row |
| NameSubstitution.KeyOrderMatters | index.js:66-70 | with a value whose text is a later key's placeholder, the result depends on key order |
| NameSubstitution.PlaceholderMismatch | index.js:68 | a placeholder of another plain key is never matched and is kept verbatim |
| NameSubstitution.ReplaceAllFillsSlot | index.js:68 | one global replace of `{key}` fills exactly the slots of that key and keeps every other slot and all text |
| NameSubstitution.ObjectRowFillsSlots | index.js:64-70 | for distinct plain keys and values without `{`, every `{key}` of a row key (repeats included) shows its value, every other placeholder stays verbatim; `{}` is filled only by a key "" |
| NameSubstitution.PrimitiveRowFillsSlots | index.js:71-73 | for a primitive row every `{}` shows the value's text and every named placeholder stays verbatim |
| BodyAdaptation.ModeOf | index.js:89-98 | one parameter is the synchronous mode, two the completion-handle mode, any other count is invalid |
| BodyAdaptation.GenerateSpecFunction | index.js:87-101 | the wrapper exists exactly for one or two parameters, forwards exactly as many arguments as the spec function declares (the row's value, then its own completion handle), and otherwise the arity error is thrown |
| BodyAdaptation.WrapperShapeIndependentOfRow | index.js:87-101 | the wrapper's kind depends on the arity only, never on the row |
| VariantSelection.RowFlag | index.js:133 | a primitive row has no truthy flag; an object row's flag is its `flag` field |
| VariantSelection.FlagVariant | index.js:137-146 | exactly "f" selects the focused function, exactly "x" the skipped one, anything falsy the normal one |
| VariantSelection.GetItFunction | index.js:131-148 | a truthy flag of the row's own decides; otherwise the default flag decides |
| VariantSelection.EntryPointVariants | index.js:151-159 | an own "f" or "x" wins under every entry point; an unflagged row is normal, focused or skipped under the plain, focused and skipped entry point |
| VariantSelection.FlagExamples | spec/eit.spec.js:76-170 | the flag examples of the test suite select the variants they expect |
| TimeoutResolution.GetDefaultTimeout | index.js:107-113 | the host's configured default when the framework is present, else 5000 |
| TimeoutResolution.EffectiveTimeout | index.js:40 | a truthy explicit timeout wins, otherwise the host default; 0 can only result when the host default is 0 |
| Expansion.ExpandRows | index.js:36-41 | the rows give one registration each, in order, each the one the per-row callback computes, and fail with the arity error exactly when there is a row and the arity is not 1 or 2 |
| Expansion.Expand | index.js:31-42 | a non-array is rejected with the input error; otherwise each registration carries its row's name, variant, wrapper of that row and the shared timeout |
| Expansion.EntryPointsDifferOnlyInVariant | index.js:151-159 | the three entry points give the same names, bodies, timeouts and errors and differ only in the variant of rows without a truthy flag |
| Expansion.TimeoutSharedByAllRows | index.js:40 | all registrations of one call share one timeout; an explicit 0 falls through to the default |
| Expansion.ExpandRowsPointwise | index.js:36-41 | a log that agrees row by row with the callback is exactly the expansion |
| Expansion.ExpandRowsAt | index.js:36-41 | the callback fails on a row exactly when the whole expansion fails, with the same error, and otherwise gives that row's registration |
| Expansion.ExpandRowsSnoc | index.js:36-41 | one more row at the end extends the expansion by that row's registration |
| Expansion.Handles | index.js:36-41 | the values the host hands back for consecutive registrations are their consecutive log positions |
| Expansion.Host.Register | index.js:40 | a registration is appended to the host's log and its position returned |
| Expansion.ItWithExamples | index.js:31-42 | the log grows by exactly the expansion's registrations and their positions are returned; on an error nothing is registered |
| Expansion.RegisterRow | index.js:36-40 | the callback registers exactly the registration its row gives and returns its position, or throws the arity error before registering anything |
| Expansion.RegisterRows | index.js:36-41 | the loop over the rows registers each row in order; the arity error leaves the log as it was |
| Expansion.ExampleIt | index.js:151-153 | the driver without a default flag |
| Expansion.FocusedExampleIt | index.js:154-156 | the driver with the default flag "f" |
| Expansion.ExcludedExampleIt | index.js:157-159 | the driver with the default flag "x" |
| Expansion.DriverExamples | spec/eit.spec.js:48-70 | a spec function without parameters throws the arity message, a non-array the input message, and a two-parameter spec function gets wrappers taking the completion handle |
| Expansion.TimeoutExample | spec/eit.spec.js:175-184 | an explicit timeout of 10000 reaches every registration |
| Expansion.NoRowsNoRegistrations | index.js:36-41 | an empty row list registers nothing and throws nothing, whatever the arity |
| Expansion.SkippedEntryPointExample | spec/eit.spec.js:155-170 | under the skipped entry point the rows `{a: 5}` and `{flag: "f"}` are registered skipped and focused, in that order |

## Left out

- Installing `eit`, `feit` and `xeit` on `global` and `window` (index.js:162-171) is module-load plumbing and is not modelled.
- The host's `it`, `fit` and `xit` are foreign calls: they are modelled only as appending a registration to the host's log, and their return value as the log position. Running a spec body and the `done` callback are not modelled; a wrapper records what it would forward.
- The lookup of the ambient `jasmine` object is replaced by the host's optional `defaultTimeout` (a parameter of the specification functions).
- `new RegExp("{" + key + "}")` interprets regular-expression syntax in the key; the model treats every key as literal text, so keys with metacharacters and numeric keys (for which the source throws a syntax error) are not modelled.
- `$` patterns in a replacement value are special to `replace`; the model inserts values literally.
- Numbers are integers: non-integral numbers, `NaN`, `-0` and exponent notation in `String(number)` are not modelled, nor a non-number timeout.
- Rows are tagged (`Named` or `Prim`). A `null` row takes the object path (`typeof null` is "object") and `Object.keys(null)` at index.js:66 throws a TypeError; the model has no such row, since a primitive row excludes `null` by its type (`PrimValue`). Arrays used as rows, nested objects and `undefined` as field values are not modelled either.
- The `hasOwnProperty` test (index.js:67) holds for every key `Object.keys` gives on an ordinary object, and the model leaves it out. For a row with an own field named `hasOwnProperty` (such as `{hasOwnProperty: "x"}`) or an object without a prototype, the call at index.js:67 throws a TypeError; such rows are not modelled, and the model registers a test for them instead. Object keys are distinct in the source, and `Lookup` takes the first field with a key.
- The arity error is the only row error modelled, and since the spec function is shared it can only come from the first row, so the model's log is unchanged on every error. The source's other throws (a `null` row, a key that is not a valid pattern, an own `hasOwnProperty` field) can come from a later row and leave the earlier registrations in place; that partial registration is not modelled, because those rows are not.
- NameSubstitution.ObjectRowFillsSlots: states simultaneous substitution only for templates made of `{`-free text and brace-free keys, rows with distinct brace-free keys and values whose text holds no `{`, because outside those the left fold is order sensitive (see `KeyOrderMatters`).
- Other row shapes the source accepts are not modelled: `undefined` as a whole row (index.js:72 renders it as "undefined" and the row is registered as a normal test), a function as a row or field value (`replace` then calls it instead of inserting text), and holes in a sparse `examples` array (`map` at index.js:36 skips them, giving fewer registrations than slots).
- The concrete names of the test suite's substitution examples (spec/eit.spec.js:15-41) are covered by the general theorems rather than stated on the literal strings.
