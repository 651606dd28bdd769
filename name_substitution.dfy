// Name substitution (`substituteExampleValuesInSpecName`): renders one row's
// values into the test-name template.
module NameSubstitution {
  import opened JsValues
  import opened JsStrings
  import opened ExampleData

  /** The named placeholder `{key}`; it is never empty. */
  function Placeholder(key: string): (p: string)
    ensures |p| == |key| + 2 && p[0] == '{' && p[|p| - 1] == '}' && p[1..|p| - 1] == key
  {
    "{" + key + "}"
  }

  /** The unnamed placeholder that a primitive row fills. */
  const EmptyPlaceholder: string := "{}"

  /**
   * The object-row substitution: a left fold over the fields in key order, each
   * replacing every occurrence of its placeholder in the text built so far.
   */
  function SubstituteFields(name: string, fields: seq<(string, Value)>): string
    decreases |fields|
  {
    if fields == [] then name
    else SubstituteFields(ReplaceAll(name, Placeholder(fields[0].0), Render(fields[0].1)), fields[1..])
  }

  /** The name a row gives the template. */
  function SubstitutedName(specName: string, row: Row): string {
    match row
    case Named(fields) => SubstituteFields(specName, fields)
    case Prim(v) => ReplaceAll(specName, EmptyPlaceholder, Render(v))
  }

  /** A template holding none of an object row's placeholders comes back unchanged. */
  lemma {:induction false} NoPlaceholdersUnchanged(name: string, fields: seq<(string, Value)>)
    requires forall i :: 0 <= i < |fields| ==> !Contains(name, Placeholder(fields[i].0))
    ensures SubstitutedName(name, Named(fields)) == name
    decreases |fields|
  {
    if fields != [] {
      ReplaceAllAbsent(name, Placeholder(fields[0].0), Render(fields[0].1));
      assert forall i :: 1 <= i < |fields| ==> fields[1..][i - 1] == fields[i];
      NoPlaceholdersUnchanged(name, fields[1..]);
      assert SubstitutedName(name, Named(fields)) == SubstituteFields(name, fields[1..]);
    }
  }

  /**
   * For a primitive row every `{}` is cut out and the value's text is put in
   * each cut, the rest kept verbatim.
   */
  lemma PrimitiveRowIsJoin(specName: string, v: PrimValue)
    ensures SubstitutedName(specName, Prim(v)) == Join(Split(specName, EmptyPlaceholder), Render(v))
  {
    ReplaceAllIsJoin(specName, EmptyPlaceholder, Render(v));
  }

  /** Adding a field at the end of the row applies one more global replace to the result. */
  lemma {:induction false} SubstituteFieldsSnoc(name: string, fields: seq<(string, Value)>, field: (string, Value))
    ensures SubstituteFields(name, fields + [field]) ==
            ReplaceAll(SubstituteFields(name, fields), Placeholder(field.0), Render(field.1))
    decreases |fields|
  {
    if fields == [] {
      assert [] + [field] == [field];
    } else {
      var next := ReplaceAll(name, Placeholder(fields[0].0), Render(fields[0].1));
      assert (fields + [field])[1..] == fields[1..] + [field];
      SubstituteFieldsSnoc(next, fields[1..], field);
    }
  }

  /**
   * The loop of the source: start from the template and, for each own key of
   * an object row in key order, replace every `{key}` by the key's value text;
   * for a primitive row replace every `{}` by the value's text.
   */
  method SubstituteExampleValuesInSpecName(specName: string, exampleValues: Row) returns (substituted: string)
    ensures substituted == SubstitutedName(specName, exampleValues)
  {
    substituted := specName;
    if exampleValues.Named? {
      var fields := exampleValues.fields;
      for i := 0 to |fields|
        invariant substituted == SubstituteFields(specName, fields[..i])
      {
        var key := fields[i].0;
        SubstituteFieldsSnoc(specName, fields[..i], fields[i]);
        assert fields[..i + 1] == fields[..i] + [fields[i]];
        substituted := ReplaceAll(substituted, Placeholder(key), Render(fields[i].1));
      }
      assert fields[..|fields|] == fields;
    } else {
      substituted := ReplaceAll(substituted, EmptyPlaceholder, Render(exampleValues.value));
    }
  }

  /** A one-field row replaces every `{key}` by its value and keeps the text between verbatim. */
  lemma SingleFieldRow(specName: string, key: string, v: Value)
    ensures SubstitutedName(specName, Named([(key, v)])) == Join(Split(specName, Placeholder(key)), Render(v))
  {
    var fields := [(key, v)];
    var once := ReplaceAll(specName, Placeholder(key), Render(v));
    assert fields[1..] == [];
    assert SubstituteFields(specName, fields) == SubstituteFields(once, []) == once;
    ReplaceAllIsJoin(specName, Placeholder(key), Render(v));
  }

  /** A template without `{}` is returned unchanged for a primitive row. */
  lemma PrimitiveWithoutPlaceholder(specName: string, v: PrimValue)
    requires !Contains(specName, EmptyPlaceholder)
    ensures SubstitutedName(specName, Prim(v)) == specName
  {
    ReplaceAllAbsent(specName, EmptyPlaceholder, Render(v));
  }

  /**
   * The fold is sensitive to key order: a value whose text is another key's
   * placeholder is itself substituted when that key comes later.
   */
  lemma KeyOrderMatters()
    ensures SubstitutedName("{a}", Named([("a", Str("{b}")), ("b", Str("x"))])) == "x"
    ensures SubstitutedName("{a}", Named([("b", Str("x")), ("a", Str("{b}"))])) == "{b}"
  {
    var ab := [("a", Str("{b}")), ("b", Str("x"))];
    ReplaceAllHit("", "{a}", "{b}");
    ReplaceAllHit("", "{b}", "x");
    assert ab[1..][1..] == [];
    var ba := [("b", Str("x")), ("a", Str("{b}"))];
    assert "{a}"[1] != "{b}"[1];
    assert forall j :: 0 <= j <= 3 && OccursAt("{a}", "{b}", j) ==> j == 0;
    ReplaceAllAbsent("{a}", "{b}", "x");
    assert ba[1..][1..] == [];
  }

  // ---------------------------------------------------------------------------
  // Templates seen as text pieces and placeholders. `Slot("")` is the unnamed
  // placeholder `{}`; an object key "" would match it too, as in the source.

  /** Text that cannot start a placeholder. */
  predicate NoOpenBrace(s: string) {
    forall i :: 0 <= i < |s| ==> s[i] != '{'
  }

  /** A key that holds no brace, so that `{key}` only matches itself. */
  predicate PlainKey(key: string) {
    forall i :: 0 <= i < |key| ==> key[i] != '{' && key[i] != '}'
  }

  datatype Segment = Text(text: string) | Slot(key: string)

  predicate WellFormed(segs: seq<Segment>) {
    forall i :: 0 <= i < |segs| ==>
      match segs[i]
      case Text(t) => NoOpenBrace(t)
      case Slot(k) => PlainKey(k)
  }

  function Show(seg: Segment): string {
    match seg
    case Text(t) => t
    case Slot(k) => Placeholder(k)
  }

  /** The template text the segments spell. */
  function Concat(segs: seq<Segment>): string {
    if segs == [] then "" else Show(segs[0]) + Concat(segs[1..])
  }

  /** Every `Slot(key)` turned into the text `text`. */
  function FillSlot(segs: seq<Segment>, key: string, text: string): seq<Segment> {
    if segs == [] then []
    else (if segs[0] == Slot(key) then [Text(text)] else [segs[0]]) + FillSlot(segs[1..], key, text)
  }

  /**
   * Reference definition of object-row substitution: every slot whose key the
   * row has shows that field's value, every other slot stays as written.
   */
  function Fill(segs: seq<Segment>, fields: seq<(string, Value)>): string {
    if segs == [] then ""
    else
      var shown := match segs[0]
        case Text(t) => t
        case Slot(k) => (match Lookup(fields, k) case Some(v) => Render(v) case None => Placeholder(k));
      shown + Fill(segs[1..], fields)
  }

  /** A placeholder of another plain key does not start with `{key}`. */
  lemma PlaceholderNotPrefix(key: string, other: string, rest: string)
    requires PlainKey(key) && PlainKey(other) && key != other
    ensures var s, pat := Placeholder(other) + rest, Placeholder(key);
      |s| >= |pat| ==> s[..|pat|] != pat
  {
    var s, pat := Placeholder(other) + rest, Placeholder(key);
    if |s| >= |pat| {
      if |key| < |other| {
        assert s[|key| + 1] == other[|key|] != '}' == pat[|key| + 1];
        assert s[..|pat|][|key| + 1] != pat[|key| + 1];
      } else if |key| > |other| {
        assert s[|other| + 1] == '}' != key[|other|] == pat[|other| + 1];
        assert s[..|pat|][|other| + 1] != pat[|other| + 1];
      } else {
        assert s[..|pat|] == Placeholder(other);
        assert Placeholder(other)[1..|pat| - 1] == other;
        assert pat[1..|pat| - 1] == key;
      }
    }
  }

  /** A placeholder of another plain key is never matched: it is copied verbatim. */
  lemma PlaceholderMismatch(key: string, other: string, rest: string, text: string)
    requires PlainKey(key) && PlainKey(other) && key != other
    ensures ReplaceAll(Placeholder(other) + rest, Placeholder(key), text) == Placeholder(other) + ReplaceAll(rest, Placeholder(key), text)
  {
    var s := Placeholder(other) + rest;
    var pat := Placeholder(key);
    PlaceholderNotPrefix(key, other, rest);
    ReplaceAllMiss(s, pat, text);
    assert s[1..] == (other + "}") + rest;
    ReplaceAllSkip(other + "}", rest, pat, text);
    assert Placeholder(other) == [s[0]] + (other + "}");
  }

  /** One global replace of `{key}` over a template fills exactly the slots of that key. */
  lemma {:induction false} ReplaceAllFillsSlot(segs: seq<Segment>, key: string, text: string)
    requires WellFormed(segs) && PlainKey(key)
    ensures ReplaceAll(Concat(segs), Placeholder(key), text) == Concat(FillSlot(segs, key, text))
    decreases |segs|
  {
    if segs != [] {
      var pat := Placeholder(key);
      var rest := Concat(segs[1..]);
      assert WellFormed(segs[1..]) by {
        assert forall i :: 1 <= i < |segs| ==> segs[1..][i - 1] == segs[i];
      }
      ReplaceAllFillsSlot(segs[1..], key, text);
      match segs[0]
      case Text(t) =>
        assert NoOpenBrace(t) by { assert segs[0] == Text(t); }
        ReplaceAllSkip(t, rest, pat, text);
      case Slot(k) =>
        assert PlainKey(k) by { assert segs[0] == Slot(k); }
        if k == key {
          ReplaceAllHit(rest, pat, text);
        } else {
          PlaceholderMismatch(key, k, rest, text);
        }
    }
  }

  /** Filling a slot with brace-free text keeps the template well formed. */
  lemma {:induction false} FillSlotWellFormed(segs: seq<Segment>, key: string, text: string)
    requires WellFormed(segs) && NoOpenBrace(text)
    ensures WellFormed(FillSlot(segs, key, text))
    decreases |segs|
  {
    if segs != [] {
      assert forall i :: 1 <= i < |segs| ==> segs[1..][i - 1] == segs[i];
      FillSlotWellFormed(segs[1..], key, text);
      var head := if segs[0] == Slot(key) then [Text(text)] else [segs[0]];
      var tail := FillSlot(segs[1..], key, text);
      assert FillSlot(segs, key, text) == head + tail;
      assert forall i :: 1 <= i < |head + tail| ==> (head + tail)[i] == tail[i - 1];
    }
  }

  /** Filling the first field's slots, then the rest, is filling with the whole row. */
  lemma {:induction false} FillSlotThenFill(segs: seq<Segment>, key: string, v: Value, fields: seq<(string, Value)>)
    requires forall i :: 0 <= i < |fields| ==> fields[i].0 != key
    ensures Fill(FillSlot(segs, key, Render(v)), fields) == Fill(segs, [(key, v)] + fields)
    decreases |segs|
  {
    if segs != [] {
      FillSlotThenFill(segs[1..], key, v, fields);
      var all := [(key, v)] + fields;
      assert all[1..] == fields;
      var filled := FillSlot(segs, key, Render(v));
      assert filled[1..] == FillSlot(segs[1..], key, Render(v));
      match segs[0]
      case Text(t) =>
      case Slot(k) =>
        if k != key {
          assert Lookup(all, k) == Lookup(fields, k);
        }
    }
  }

  /** Keys of an object are distinct. */
  predicate DistinctKeys(fields: seq<(string, Value)>) {
    forall i, j :: 0 <= i < j < |fields| ==> fields[i].0 != fields[j].0
  }

  /**
   * For a row whose keys are distinct and plain and whose values' texts hold
   * no `{`, the source's left fold is simultaneous substitution: every
   * `{key}` of a row key, repeats included, shows its value (a key "" fills
   * `{}`); a placeholder of any other key is left verbatim; the text between
   * is kept.
   */
  lemma {:induction false} ObjectRowFillsSlots(segs: seq<Segment>, fields: seq<(string, Value)>)
    requires WellFormed(segs) && DistinctKeys(fields)
    requires forall i :: 0 <= i < |fields| ==> PlainKey(fields[i].0) && NoOpenBrace(Render(fields[i].1))
    ensures SubstitutedName(Concat(segs), Named(fields)) == Fill(segs, fields)
    decreases |fields|
  {
    if fields == [] {
      FillNoFields(segs);
    } else {
      var (key, v) := fields[0];
      var rest := fields[1..];
      ReplaceAllFillsSlot(segs, key, Render(v));
      FillSlotWellFormed(segs, key, Render(v));
      var filled := FillSlot(segs, key, Render(v));
      assert forall i :: 1 <= i < |fields| ==> rest[i - 1] == fields[i];
      ObjectRowFillsSlots(filled, rest);
      FillSlotThenFill(segs, key, v, rest);
      assert [(key, v)] + rest == fields;
    }
  }

  /** With no fields nothing is filled. */
  lemma {:induction false} FillNoFields(segs: seq<Segment>)
    ensures Fill(segs, []) == Concat(segs)
    decreases |segs|
  {
    if segs != [] {
      FillNoFields(segs[1..]);
    }
  }

  /**
   * For a primitive row every `{}` shows the value's text, while every named
   * placeholder and the text between are kept verbatim.
   */
  lemma PrimitiveRowFillsSlots(segs: seq<Segment>, v: PrimValue)
    requires WellFormed(segs)
    ensures SubstitutedName(Concat(segs), Prim(v)) == Concat(FillSlot(segs, "", Render(v)))
  {
    assert Placeholder("") == EmptyPlaceholder;
    ReplaceAllFillsSlot(segs, "", Render(v));
  }
}
