/** Schema strengthening in `api-schemas.ts`: hints rewrite the generated components before the
    table is published. */
module Strictness {
  import opened Options
  import opened Integers
  import opened Values
  import opened Schemas

  // ---------------------------------------------------------------- the rewriting

  function Override<T>(hint: Option<T>, base: Option<T>): Option<T> {
    if hint.Some? then hint else base
  }

  predicate SameLeafType(base: Schema, hint: Schema) {
    || (base.StringSchema? && hint.StringSchema?)
    || (base.IntegerSchema? && hint.IntegerSchema?)
    || (base.NumberSchema? && hint.NumberSchema?)
  }

  function ApplyLeafStrictness(base: Schema, hint: Schema): Schema {
    if !SameLeafType(base, hint) then
      base
    else if base.StringSchema? then
      StringSchema(Override(hint.minLength, base.minLength), Override(hint.enumeration, base.enumeration),
                   base.dateTime || hint.dateTime)
    else
      base.(minimum := Override(hint.minimum, base.minimum))
  }

  function ApplyAdditionalStrictness(base: Additional, hint: Additional): Additional {
    if base.Shaped? && hint.Shaped? then Shaped(ApplySchemaStrictness(base.schema, Some(hint.schema))) else base
  }

  function ApplySchemaStrictness(base: Schema, hint: Option<Schema>): Schema
    decreases base
  {
    if hint.None? || base.Ref? || hint.value.Ref? then
      base
    else if base.AnyOf? then
      if hint.value.AnyOf? && |hint.value.options| == |base.options| then
        AnyOf(seq(|base.options|, i requires 0 <= i < |base.options| =>
          ApplySchemaStrictness(base.options[i], Some(hint.value.options[i]))))
      else
        base
    else if hint.value.AnyOf? then
      base
    else if base.ArraySchema? then
      if hint.value.ArraySchema? then
        ArraySchema(ApplySchemaStrictness(base.element, Some(hint.value.element)))
      else
        base
    else if base.ObjectSchema? then
      if hint.value.ObjectSchema? then
        ObjectSchema(map name | name in base.properties ::
                       ApplySchemaStrictness(base.properties[name], Get(hint.value.properties, name)),
                     base.required,
                     ApplyAdditionalStrictness(base.additional, hint.value.additional))
      else
        base
    else
      ApplyLeafStrictness(base, hint.value)
  }

  /** The property loop of the source: `merged` grows by one rewritten property at a time. */
  method ApplyObjectPropertyStrictness(base: map<string, Schema>, hint: Option<map<string, Schema>>)
      returns (merged: map<string, Schema>)
    ensures hint.None? ==> merged == base
    ensures hint.Some? ==>
              merged == map name | name in base :: ApplySchemaStrictness(base[name], Get(hint.value, name))
  {
    if hint.None? {
      return base;
    }
    merged := map[];
    var pending := base.Keys;
    while pending != {}
      invariant pending <= base.Keys
      invariant merged == map name | name in base.Keys - pending :: ApplySchemaStrictness(base[name], Get(hint.value, name))
    {
      var name :| name in pending;
      merged := merged[name := ApplySchemaStrictness(base[name], Get(hint.value, name))];
      pending := pending - {name};
    }
  }

  /** The table that is published: every generated component rewritten by the hint of its name, and
      laid over the components that are written by hand. */
  function Publish(handWritten: Table, generated: Table, hints: Table): Table {
    handWritten + map name | name in generated :: ApplySchemaStrictness(generated[name], Get(hints, name))
  }

  // ---------------------------------------------------------------- when a hint tightens a leaf

  function Ceiling(r: real): int {
    -((-r).Floor)
  }

  predicate LongEnough(text: string, minLength: Option<int>) {
    minLength.Some? ==> minLength.value <= |text|
  }

  /** With an enumeration: each listed text that the new bound and format leave is one that the base's bound and
      enumeration allow. Without: the new least length is no smaller than the base asks, or no date has a
      length between them. */
  ghost predicate TightensString(parsesAsDate: string -> bool, base: Schema, hint: Schema)
    requires base.StringSchema? && hint.StringSchema?
  {
    var dates, listed := base.dateTime || hint.dateTime, Override(hint.enumeration, base.enumeration);
    if listed.Some? then
      forall text | text in listed.value && LongEnough(text, Override(hint.minLength, base.minLength)) && (dates ==> parsesAsDate(text)) ::
        LongEnough(text, base.minLength) && (base.enumeration.Some? ==> text in base.enumeration.value)
    else
      base.minLength.Some? && hint.minLength.Some? ==>
        || base.minLength.value <= Max(0, hint.minLength.value)
        || (dates && forall text | parsesAsDate(text) && hint.minLength.value <= |text| :: base.minLength.value <= |text|)
  }

  predicate TightensMinimum(base: Schema, hint: Schema)
    requires SameLeafType(base, hint) && !base.StringSchema?
  {
    base.minimum.Some? && hint.minimum.Some? ==>
      if base.IntegerSchema? then base.minimum.value <= Ceiling(hint.minimum.value) as real
      else base.minimum.value <= hint.minimum.value
  }

  /** The hint loosens no leaf that it reaches. */
  ghost predicate Tightens(parsesAsDate: string -> bool, base: Schema, hint: Option<Schema>)
    decreases base
  {
    hint.Some? ==>
      match base
      case Ref(_) => true
      case AnyOf(options) =>
        hint.value.AnyOf? && |hint.value.options| == |options| ==>
          forall i | 0 <= i < |options| :: Tightens(parsesAsDate, options[i], Some(hint.value.options[i]))
      case ArraySchema(element) =>
        hint.value.ArraySchema? ==> Tightens(parsesAsDate, element, Some(hint.value.element))
      case ObjectSchema(properties, _, additional) =>
        hint.value.ObjectSchema? ==>
          && (forall name | name in properties :: Tightens(parsesAsDate, properties[name], Get(hint.value.properties, name)))
          && (additional.Shaped? && hint.value.additional.Shaped? ==>
                Tightens(parsesAsDate, additional.schema, Some(hint.value.additional.schema)))
      case StringSchema(_, _, _) => hint.value.StringSchema? ==> TightensString(parsesAsDate, base, hint.value)
      case _ => SameLeafType(base, hint.value) ==> TightensMinimum(base, hint.value)
  }

  ghost predicate NarrowsText(parsesAsDate: string -> bool, base: Schema, hint: Schema)
    requires base.StringSchema? && hint.StringSchema?
  {
    forall text :: AcceptsText(parsesAsDate, ApplyLeafStrictness(base, hint), text) ==> AcceptsText(parsesAsDate, base, text)
  }

  function Repeat(c: char, n: nat): (text: string)
    ensures |text| == n
  {
    seq(n, _ => c)
  }

  lemma TextNarrows(parsesAsDate: string -> bool, base: Schema, hint: Schema, text: string)
    requires base.StringSchema? && hint.StringSchema? && TightensString(parsesAsDate, base, hint)
    requires AcceptsText(parsesAsDate, ApplyLeafStrictness(base, hint), text)
    ensures AcceptsText(parsesAsDate, base, text)
  {
  }

  lemma ListedTextIsLost(parsesAsDate: string -> bool, base: Schema, text: string)
    requires base.StringSchema?
    requires !(LongEnough(text, base.minLength) && (base.enumeration.Some? ==> text in base.enumeration.value))
    ensures !AcceptsText(parsesAsDate, base, text)
  {
  }

  /** The condition on a string leaf is exact, for every date parser. */
  lemma StringNarrowsIff(parsesAsDate: string -> bool, base: Schema, hint: Schema)
    requires base.StringSchema? && hint.StringSchema?
    ensures NarrowsText(parsesAsDate, base, hint) <==> TightensString(parsesAsDate, base, hint)
  {
    var strict := ApplyLeafStrictness(base, hint);
    if TightensString(parsesAsDate, base, hint) {
      forall text | AcceptsText(parsesAsDate, strict, text) ensures AcceptsText(parsesAsDate, base, text) {
        TextNarrows(parsesAsDate, base, hint, text);
      }
    } else if strict.enumeration.Some? {
      var text :| text in strict.enumeration.value && AcceptsText(parsesAsDate, strict, text)
                  && !(LongEnough(text, base.minLength) && (base.enumeration.Some? ==> text in base.enumeration.value));
      ListedTextIsLost(parsesAsDate, base, text);
    } else if strict.dateTime {
      var text :| parsesAsDate(text) && hint.minLength.value <= |text| && !(base.minLength.value <= |text|);
      assert AcceptsText(parsesAsDate, strict, text) && !AcceptsText(parsesAsDate, base, text);
    } else {
      var text := Repeat('a', Max(0, hint.minLength.value));
      assert AcceptsText(parsesAsDate, strict, text) && !AcceptsText(parsesAsDate, base, text);
    }
  }

  ghost predicate NarrowsNumbers(base: Schema, hint: Schema)
    requires SameLeafType(base, hint) && !base.StringSchema?
  {
    forall n: Number | n.Finite? && (base.IntegerSchema? ==> n.IsInteger()) ::
      AtLeast(n.r, ApplyLeafStrictness(base, hint).minimum) ==> AtLeast(n.r, base.minimum)
  }

  /** The condition on a numeric leaf is exact; between integers only the rounded-up bound counts. */
  lemma NumberNarrowsIff(base: Schema, hint: Schema)
    requires SameLeafType(base, hint) && !base.StringSchema?
    ensures NarrowsNumbers(base, hint) <==> TightensMinimum(base, hint)
  {
    if base.minimum.Some? && hint.minimum.Some? {
      var r := if base.IntegerSchema? then Ceiling(hint.minimum.value) as real else hint.minimum.value;
      assert Finite(r).Finite? && Finite(r).r == r;
      if NarrowsNumbers(base, hint) {
        assert AtLeast(Finite(r).r, ApplyLeafStrictness(base, hint).minimum);
      }
      if TightensMinimum(base, hint) {
        forall n: Number | n.Finite? && (base.IntegerSchema? ==> n.IsInteger()) && hint.minimum.value <= n.r
          ensures base.minimum.value <= n.r
        {
          if base.IntegerSchema? {
            assert Ceiling(hint.minimum.value) <= n.r.Floor;
          }
        }
      }
    }
  }

  // ---------------------------------------------------------------- the whole table narrows

  /** `strict` is `loose` with every component rewritten by a hint that tightens it. */
  ghost predicate Strengthened(loose: Registry, strict: Registry, hints: Table) {
    && loose.parsesAsDate == strict.parsesAsDate
    && loose.table.Keys == strict.table.Keys
    && forall name | name in loose.table ::
         || strict.table[name] == loose.table[name]
         || (&& Tightens(loose.parsesAsDate, loose.table[name], Get(hints, name))
             && strict.table[name] == ApplySchemaStrictness(loose.table[name], Get(hints, name)))
  }

  lemma LeafNarrows(loose: Registry, strict: Registry, value: Value, base: Schema, hint: Option<Schema>, seen: set<string>)
    requires loose.parsesAsDate == strict.parsesAsDate
    requires IsLeaf(base)
    requires Tightens(loose.parsesAsDate, base, hint)
    requires Accepts(strict, value, ApplySchemaStrictness(base, hint), seen)
    ensures Accepts(loose, value, base, seen)
  {
    if hint.Some? && SameLeafType(base, hint.value) {
      if base.StringSchema? {
        TextNarrows(loose.parsesAsDate, base, hint.value, value.s);
      } else {
        NumberNarrowsIff(base, hint.value);
      }
    }
  }

  /** Whatever the rewritten table accepts for a rewritten schema, the original table accepts for the
      original one: for every schema, hint, value and set of seen references. */
  lemma {:induction false} StrictnessNarrows(
      loose: Registry, strict: Registry, hints: Table, value: Value, base: Schema, hint: Option<Schema>, seen: set<string>)
    requires Strengthened(loose, strict, hints)
    requires Tightens(loose.parsesAsDate, base, hint)
    requires Accepts(strict, value, ApplySchemaStrictness(base, hint), seen)
    ensures Accepts(loose, value, base, seen)
    decreases loose.table.Keys - seen, base, 1
  {
    match base
    case Ref(name) =>
      if name !in seen {
        var next := if strict.table[name] == loose.table[name] then None else Get(hints, name);
        StrictnessNarrows(loose, strict, hints, value, loose.table[name], next, seen + {name});
      }
    case AnyOf(options) =>
      var strictOptions := ApplySchemaStrictness(base, hint).options;
      var i :| 0 <= i < |strictOptions| && Accepts(strict, value, strictOptions[i], seen);
      var next := if hint.Some? && hint.value.AnyOf? && |hint.value.options| == |options| then Some(hint.value.options[i]) else None;
      StrictnessNarrows(loose, strict, hints, value, options[i], next, seen);
    case ArraySchema(element) =>
      var next := if hint.Some? && hint.value.ArraySchema? then Some(hint.value.element) else None;
      forall i | 0 <= i < |value.items| ensures Accepts(loose, value.items[i], element, seen) {
        StrictnessNarrows(loose, strict, hints, value.items[i], element, next, seen);
      }
    case ObjectSchema(_, _, _) =>
      StrictnessNarrowsObject(loose, strict, hints, value, base, hint, seen);
    case _ =>
      LeafNarrows(loose, strict, value, base, hint, seen);
  }

  lemma {:induction false} StrictnessNarrowsObject(
      loose: Registry, strict: Registry, hints: Table, value: Value, base: Schema, hint: Option<Schema>, seen: set<string>)
    requires base.ObjectSchema?
    requires Strengthened(loose, strict, hints)
    requires Tightens(loose.parsesAsDate, base, hint)
    requires Accepts(strict, value, ApplySchemaStrictness(base, hint), seen)
    ensures Accepts(loose, value, base, seen)
    decreases loose.table.Keys - seen, base, 0
  {
    var ObjectSchema(properties, _, additional) := base;
    var rewritten := ApplySchemaStrictness(base, hint);
    var used := hint.Some? && hint.value.ObjectSchema?;
    assert rewritten.additional == if used then ApplyAdditionalStrictness(additional, hint.value.additional) else additional;
    assert rewritten.properties.Keys == properties.Keys;
    forall k | k in properties && k in value.fields
      ensures Accepts(loose, value.fields[k], properties[k], seen)
    {
      assert Accepts(strict, value.fields[k], rewritten.properties[k], seen);
      var next := if used then Get(hint.value.properties, k) else None;
      StrictnessNarrows(loose, strict, hints, value.fields[k], properties[k], next, seen);
    }
    if additional.Shaped? {
      var next := if used && hint.value.additional.Shaped? then Some(hint.value.additional.schema) else None;
      forall k | k in value.fields && k !in properties
        ensures Accepts(loose, value.fields[k], additional.schema, seen)
      {
        assert Accepts(strict, value.fields[k], rewritten.additional.schema, seen);
        StrictnessNarrows(loose, strict, hints, value.fields[k], additional.schema, next, seen);
      }
    }
  }

  /** Publishing only narrows: with hints that tighten, every value, schema and set of seen
      references accepted against the published table was accepted against the unhinted one. */
  lemma PublishNarrows(
      handWritten: Table, generated: Table, hints: Table, parsesAsDate: string -> bool,
      value: Value, schema: Schema, seen: set<string>)
    requires forall name | name in generated :: Tightens(parsesAsDate, generated[name], Get(hints, name))
    requires Accepts(Registry(Publish(handWritten, generated, hints), parsesAsDate), value, schema, seen)
    ensures Accepts(Registry(handWritten + generated, parsesAsDate), value, schema, seen)
  {
    var loose := Registry(handWritten + generated, parsesAsDate);
    var strict := Registry(Publish(handWritten, generated, hints), parsesAsDate);
    StrictnessNarrows(loose, strict, hints, value, schema, None, seen);
  }

  /** A hint with a smaller bound replaces the base's bound, so the published table is looser. */
  lemma LooseHintWidens(parsesAsDate: string -> bool)
    ensures var generated := map["Port" := IntegerSchema(Some(1.0))];
            var hints := map["Port" := IntegerSchema(Some(0.0))];
            var value := Num(Finite(0.0));
            && !Tightens(parsesAsDate, generated["Port"], Get(hints, "Port"))
            && Accepts(Registry(Publish(map[], generated, hints), parsesAsDate), value, Ref("Port"), {})
            && !Accepts(Registry(map[] + generated, parsesAsDate), value, Ref("Port"), {})
  {
    assert Ceiling(0.0) == 0;
  }

  // ---------------------------------------------------------------- what rewriting leaves alone

  /** Rewriting keeps every reference where it was, so the reference graph does not change. */
  lemma {:induction false} StrictnessKeepsMentions(base: Schema, hint: Option<Schema>)
    ensures Mentioned(ApplySchemaStrictness(base, hint)) == Mentioned(base)
    decreases base
  {
    var strict := ApplySchemaStrictness(base, hint);
    if hint.Some? {
      match base
      case AnyOf(options) =>
        if hint.value.AnyOf? && |hint.value.options| == |options| {
          forall i | 0 <= i < |options| ensures Mentioned(strict.options[i]) == Mentioned(options[i]) {
            StrictnessKeepsMentions(options[i], Some(hint.value.options[i]));
          }
        }
      case ArraySchema(element) =>
        if hint.value.ArraySchema? {
          StrictnessKeepsMentions(element, Some(hint.value.element));
        }
      case ObjectSchema(properties, _, additional) =>
        if hint.value.ObjectSchema? {
          forall name | name in properties ensures Mentioned(strict.properties[name]) == Mentioned(properties[name]) {
            StrictnessKeepsMentions(properties[name], Get(hint.value.properties, name));
          }
          if additional.Shaped? && hint.value.additional.Shaped? {
            StrictnessKeepsMentions(additional.schema, Some(hint.value.additional.schema));
          }
        }
      case _ =>
    }
  }

  lemma PublishKeepsGraph(handWritten: Table, generated: Table, hints: Table)
    ensures SameGraph(handWritten + generated, Publish(handWritten, generated, hints))
  {
    forall name | name in generated
      ensures Mentioned(ApplySchemaStrictness(generated[name], Get(hints, name))) == Mentioned(generated[name])
    {
      StrictnessKeepsMentions(generated[name], Get(hints, name));
    }
  }

  /** Applying the same hint a second time changes nothing. */
  lemma {:induction false} StrictnessIdempotent(base: Schema, hint: Option<Schema>)
    ensures ApplySchemaStrictness(ApplySchemaStrictness(base, hint), hint) == ApplySchemaStrictness(base, hint)
    decreases base
  {
    var strict := ApplySchemaStrictness(base, hint);
    if hint.Some? {
      match base
      case AnyOf(options) =>
        if hint.value.AnyOf? && |hint.value.options| == |options| {
          forall i | 0 <= i < |options|
            ensures ApplySchemaStrictness(strict.options[i], Some(hint.value.options[i])) == strict.options[i]
          {
            StrictnessIdempotent(options[i], Some(hint.value.options[i]));
          }
        }
      case ArraySchema(element) =>
        if hint.value.ArraySchema? {
          StrictnessIdempotent(element, Some(hint.value.element));
        }
      case ObjectSchema(properties, _, additional) =>
        if hint.value.ObjectSchema? {
          forall name | name in properties
            ensures ApplySchemaStrictness(strict.properties[name], Get(hint.value.properties, name)) == strict.properties[name]
          {
            StrictnessIdempotent(properties[name], Get(hint.value.properties, name));
          }
          if additional.Shaped? && hint.value.additional.Shaped? {
            StrictnessIdempotent(additional.schema, Some(hint.value.additional.schema));
          }
        }
      case _ =>
    }
  }

  /** The two halves together: when the unhinted components are acyclic and the hints tighten, a value
      the published table accepts satisfies the unhinted schema with every reference unfolded. */
  lemma PublishedImpliesUnfolded(
      handWritten: Table, generated: Table, hints: Table, parsesAsDate: string -> bool,
      value: Value, schema: Schema, fuel: nat, cut: bool)
    requires Acyclic(handWritten + generated)
    requires forall name | name in generated :: Tightens(parsesAsDate, generated[name], Get(hints, name))
    requires |handWritten + generated| <= fuel
    requires Accepts(Registry(Publish(handWritten, generated, hints), parsesAsDate), value, schema, {})
    ensures Unfolds(Registry(handWritten + generated, parsesAsDate), value, schema, fuel, cut)
    ensures Unfolds(Registry(Publish(handWritten, generated, hints), parsesAsDate), value, schema, fuel, cut)
  {
    var original := handWritten + generated;
    var published := Publish(handWritten, generated, hints);
    PublishNarrows(handWritten, generated, hints, parsesAsDate, value, schema, {});
    UnfoldingAgrees(Registry(original, parsesAsDate), value, schema, fuel, cut);
    PublishKeepsGraph(handWritten, generated, hints);
    AcyclicAgreesEverywhere(original, published, parsesAsDate);
    assert published.Keys == original.Keys;
    assert |published| == |published.Keys| == |original.Keys| == |original|;
    assert AgreesEverywhere(Registry(published, parsesAsDate));
  }
}
