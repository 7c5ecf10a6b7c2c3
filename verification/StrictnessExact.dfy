/** When exactly a hint only narrows a schema: leaves, arrays and objects, for values of every kind. */
module StrictnessExact {
  import opened Options
  import opened Values
  import opened Integers
  import opened Schemas
  import opened Strictness

  ghost predicate Narrows(loose: Registry, strict: Registry, base: Schema, hint: Option<Schema>, seen: set<string>) {
    forall value :: Accepts(strict, value, ApplySchemaStrictness(base, hint), seen) ==> Accepts(loose, value, base, seen)
  }

  // ---------------------------------------------------------------- leaves

  lemma LeafNarrowsIff(loose: Registry, strict: Registry, base: Schema, hint: Option<Schema>, seen: set<string>)
    requires loose.parsesAsDate == strict.parsesAsDate && IsLeaf(base)
    ensures Narrows(loose, strict, base, hint, seen) <==> Tightens(loose.parsesAsDate, base, hint)
  {
    if Tightens(loose.parsesAsDate, base, hint) {
      forall value | Accepts(strict, value, ApplySchemaStrictness(base, hint), seen) ensures Accepts(loose, value, base, seen) {
        LeafNarrows(loose, strict, value, base, hint, seen);
      }
    } else if base.StringSchema? {
      StringNarrowsIff(loose.parsesAsDate, base, hint.value);
      var text :| AcceptsText(loose.parsesAsDate, ApplyLeafStrictness(base, hint.value), text) && !AcceptsText(loose.parsesAsDate, base, text);
      assert Accepts(strict, Text(text), ApplySchemaStrictness(base, hint), seen) && !Accepts(loose, Text(text), base, seen);
    } else {
      NumberNarrowsIff(base, hint.value);
      var n: Number :| n.Finite? && (base.IntegerSchema? ==> n.IsInteger())
                       && AtLeast(n.r, ApplyLeafStrictness(base, hint.value).minimum) && !AtLeast(n.r, base.minimum);
      assert Accepts(strict, Num(n), ApplySchemaStrictness(base, hint), seen) && !Accepts(loose, Num(n), base, seen);
    }
  }

  // ---------------------------------------------------------------- arrays

  lemma ArrayNarrowsIff(loose: Registry, strict: Registry, base: Schema, hint: Schema, seen: set<string>)
    requires base.ArraySchema? && hint.ArraySchema?
    ensures Narrows(loose, strict, base, Some(hint), seen) <==> Narrows(loose, strict, base.element, Some(hint.element), seen)
  {
    var strictElement := ApplySchemaStrictness(base.element, Some(hint.element));
    if Narrows(loose, strict, base, Some(hint), seen) {
      forall value | Accepts(strict, value, strictElement, seen) ensures Accepts(loose, value, base.element, seen) {
        var list := Array([value]);
        assert Accepts(strict, list, ApplySchemaStrictness(base, Some(hint)), seen);
        assert Accepts(loose, list, base, seen);
        assert list.items[0] == value;
      }
    }
    if Narrows(loose, strict, base.element, Some(hint.element), seen) {
      forall value | Accepts(strict, value, ApplySchemaStrictness(base, Some(hint)), seen) ensures Accepts(loose, value, base, seen) {
        assert forall i | 0 <= i < |value.items| :: Accepts(strict, value.items[i], strictElement, seen);
      }
    }
  }

  // ---------------------------------------------------------------- objects

  /** Some value is accepted. */
  ghost predicate Satisfiable(reg: Registry, schema: Schema, seen: set<string>) {
    exists value :: Accepts(reg, value, schema, seen)
  }

  function AdditionalHint(hint: Schema): Option<Schema>
    requires hint.ObjectSchema?
  {
    if hint.additional.Shaped? then Some(hint.additional.schema) else None
  }

  ghost predicate PartsNarrow(loose: Registry, strict: Registry, base: Schema, hint: Schema, seen: set<string>)
    requires base.ObjectSchema? && hint.ObjectSchema?
  {
    && (forall name | name in base.properties ::
          Narrows(loose, strict, base.properties[name], Get(hint.properties, name), seen))
    && (base.additional.Shaped? ==> Narrows(loose, strict, base.additional.schema, AdditionalHint(hint), seen))
  }

  lemma {:induction false} LongerThanAll(keys: set<string>) returns (n: nat)
    ensures forall key | key in keys :: |key| < n
  {
    if keys == {} {
      return 0;
    }
    var key :| key in keys;
    var m := LongerThanAll(keys - {key});
    n := Max(m, |key| + 1);
  }

  lemma FreshKey(keys: set<string>) returns (key: string)
    ensures key !in keys
  {
    var n := LongerThanAll(keys);
    key := Repeat('a', n);
  }

  /** The rewritten object, spelled out. */
  lemma RewrittenObject(base: Schema, hint: Schema)
    requires base.ObjectSchema? && hint.ObjectSchema?
    ensures var strict := ApplySchemaStrictness(base, Some(hint));
            && strict.ObjectSchema? && strict.required == base.required && strict.properties.Keys == base.properties.Keys
            && (forall name | name in base.properties ::
                  strict.properties[name] == ApplySchemaStrictness(base.properties[name], Get(hint.properties, name)))
            && (strict.additional.Shaped? <==> base.additional.Shaped?)
            && (base.additional.Shaped? ==>
                  strict.additional.schema == ApplySchemaStrictness(base.additional.schema, AdditionalHint(hint)))
            && (!base.additional.Shaped? ==> strict.additional == base.additional)
  {
  }

  lemma PartsAreEnough(loose: Registry, strict: Registry, base: Schema, hint: Schema, seen: set<string>)
    requires base.ObjectSchema? && hint.ObjectSchema? && PartsNarrow(loose, strict, base, hint, seen)
    ensures Narrows(loose, strict, base, Some(hint), seen)
  {
    var rewritten := ApplySchemaStrictness(base, Some(hint));
    RewrittenObject(base, hint);
    forall value | Accepts(strict, value, rewritten, seen) ensures Accepts(loose, value, base, seen) {
      forall k | k in base.properties && k in value.fields ensures Accepts(loose, value.fields[k], base.properties[k], seen) {
        assert Accepts(strict, value.fields[k], rewritten.properties[k], seen);
      }
      if base.additional.Shaped? {
        forall k | k in value.fields && k !in base.properties
          ensures Accepts(loose, value.fields[k], base.additional.schema, seen) {
          assert Accepts(strict, value.fields[k], rewritten.additional.schema, seen);
        }
      }
    }
  }

  /** An accepted object with one more value in it, or another one. */
  lemma WithField(reg: Registry, schema: Schema, value: Value, key: string, part: Value, seen: set<string>)
    requires schema.ObjectSchema? && Accepts(reg, value, schema, seen)
    requires if key in schema.properties then Accepts(reg, part, schema.properties[key], seen)
             else schema.additional.Shaped? && Accepts(reg, part, schema.additional.schema, seen)
    ensures Accepts(reg, Object(value.fields[key := part]), schema, seen)
  {
  }

  lemma PropertyMustNarrow(loose: Registry, strict: Registry, base: Schema, hint: Schema, seen: set<string>, name: string)
    requires base.ObjectSchema? && hint.ObjectSchema? && name in base.properties
    requires Narrows(loose, strict, base, Some(hint), seen)
    requires Satisfiable(strict, ApplySchemaStrictness(base, Some(hint)), seen)
    ensures Narrows(loose, strict, base.properties[name], Get(hint.properties, name), seen)
  {
    var rewritten := ApplySchemaStrictness(base, Some(hint));
    RewrittenObject(base, hint);
    var whole :| Accepts(strict, whole, rewritten, seen);
    forall part | Accepts(strict, part, rewritten.properties[name], seen) ensures Accepts(loose, part, base.properties[name], seen) {
      WithField(strict, rewritten, whole, name, part, seen);
      var next := Object(whole.fields[name := part]);
      assert Accepts(loose, next, base, seen);
      assert next.fields[name] == part;
    }
  }

  lemma AdditionalMustNarrow(loose: Registry, strict: Registry, base: Schema, hint: Schema, seen: set<string>)
    requires base.ObjectSchema? && hint.ObjectSchema? && base.additional.Shaped?
    requires Narrows(loose, strict, base, Some(hint), seen)
    requires Satisfiable(strict, ApplySchemaStrictness(base, Some(hint)), seen)
    ensures Narrows(loose, strict, base.additional.schema, AdditionalHint(hint), seen)
  {
    var rewritten := ApplySchemaStrictness(base, Some(hint));
    RewrittenObject(base, hint);
    var whole :| Accepts(strict, whole, rewritten, seen);
    var key := FreshKey(base.properties.Keys);
    forall part | Accepts(strict, part, rewritten.additional.schema, seen)
      ensures Accepts(loose, part, base.additional.schema, seen) {
      WithField(strict, rewritten, whole, key, part, seen);
      var next := Object(whole.fields[key := part]);
      assert Accepts(loose, next, base, seen);
      assert next.fields[key] == part;
    }
  }

  /** An object schema narrows if and only if all its parts do, or no object at all satisfies it. */
  lemma ObjectNarrowsIff(loose: Registry, strict: Registry, base: Schema, hint: Schema, seen: set<string>)
    requires base.ObjectSchema? && hint.ObjectSchema?
    ensures Narrows(loose, strict, base, Some(hint), seen) <==>
            (Satisfiable(strict, ApplySchemaStrictness(base, Some(hint)), seen) ==> PartsNarrow(loose, strict, base, hint, seen))
  {
    if PartsNarrow(loose, strict, base, hint, seen) {
      PartsAreEnough(loose, strict, base, hint, seen);
    } else if Narrows(loose, strict, base, Some(hint), seen) && Satisfiable(strict, ApplySchemaStrictness(base, Some(hint)), seen) {
      forall name | name in base.properties
        ensures Narrows(loose, strict, base.properties[name], Get(hint.properties, name), seen) {
        PropertyMustNarrow(loose, strict, base, hint, seen, name);
      }
      if base.additional.Shaped? {
        AdditionalMustNarrow(loose, strict, base, hint, seen);
      }
    }
  }

  // ---------------------------------------------------------------- whole schemas

  /** The hint rewrites no option of an `anyOf`. */
  predicate NoChoice(base: Schema, hint: Option<Schema>)
    decreases base
  {
    hint.Some? ==>
      match base
      case AnyOf(options) => !(hint.value.AnyOf? && |hint.value.options| == |options|)
      case ArraySchema(element) => hint.value.ArraySchema? ==> NoChoice(element, Some(hint.value.element))
      case ObjectSchema(properties, _, additional) =>
        hint.value.ObjectSchema? ==>
          && (forall name | name in properties :: NoChoice(properties[name], Get(hint.value.properties, name)))
          && (additional.Shaped? ==> NoChoice(additional.schema, AdditionalHint(hint.value)))
      case _ => true
  }

  /** The hint loosens no leaf that it reaches, but for those in objects that nothing satisfies. */
  ghost predicate TightensWhatCounts(strict: Registry, base: Schema, hint: Option<Schema>, seen: set<string>)
    decreases base
  {
    hint.Some? ==>
      match base
      case Ref(_) => true
      case AnyOf(_) => true
      case ArraySchema(element) =>
        hint.value.ArraySchema? ==> TightensWhatCounts(strict, element, Some(hint.value.element), seen)
      case ObjectSchema(properties, _, additional) =>
        hint.value.ObjectSchema? && Satisfiable(strict, ApplySchemaStrictness(base, hint), seen) ==>
          && (forall name | name in properties :: TightensWhatCounts(strict, properties[name], Get(hint.value.properties, name), seen))
          && (additional.Shaped? ==> TightensWhatCounts(strict, additional.schema, AdditionalHint(hint.value), seen))
      case _ => Tightens(strict.parsesAsDate, base, hint)
  }

  /** With these components seen, the strict table accepts no more than the loose one. */
  ghost predicate TableNarrows(loose: Registry, strict: Registry, seen: set<string>) {
    forall value, schema :: Accepts(strict, value, schema, seen) ==> Accepts(loose, value, schema, seen)
  }

  /** Where the table narrows, a hint without choices narrows a schema if and only if it loosens no leaf that
      counts. */
  lemma {:induction false} NarrowsIff(loose: Registry, strict: Registry, base: Schema, hint: Option<Schema>, seen: set<string>)
    requires loose.parsesAsDate == strict.parsesAsDate && TableNarrows(loose, strict, seen) && NoChoice(base, hint)
    ensures Narrows(loose, strict, base, hint, seen) <==> TightensWhatCounts(strict, base, hint, seen)
    decreases base
  {
    if IsLeaf(base) {
      LeafNarrowsIff(loose, strict, base, hint, seen);
    } else if hint.Some? && base.ArraySchema? && hint.value.ArraySchema? {
      ArrayNarrowsIff(loose, strict, base, hint.value, seen);
      NarrowsIff(loose, strict, base.element, Some(hint.value.element), seen);
    } else if hint.Some? && base.ObjectSchema? && hint.value.ObjectSchema? {
      ObjectNarrowsIff(loose, strict, base, hint.value, seen);
      forall name | name in base.properties
        ensures Narrows(loose, strict, base.properties[name], Get(hint.value.properties, name), seen)
                <==> TightensWhatCounts(strict, base.properties[name], Get(hint.value.properties, name), seen) {
        NarrowsIff(loose, strict, base.properties[name], Get(hint.value.properties, name), seen);
      }
      if base.additional.Shaped? {
        NarrowsIff(loose, strict, base.additional.schema, AdditionalHint(hint.value), seen);
      }
    } else {
      assert ApplySchemaStrictness(base, hint) == base;
    }
  }

  // ---------------------------------------------------------------- whole tables

  /** Every component is rewritten by the hint of its name, whatever that hint does. */
  ghost predicate IsRewritten(loose: Registry, strict: Registry, hints: Table) {
    && loose.parsesAsDate == strict.parsesAsDate
    && loose.table.Keys == strict.table.Keys
    && forall name | name in loose.table ::
         && strict.table[name] == ApplySchemaStrictness(loose.table[name], Get(hints, name))
         && NoChoice(loose.table[name], Get(hints, name))
  }

  /** No hint loosens a leaf that counts, with every component seen. */
  ghost predicate TableTightens(loose: Registry, strict: Registry, hints: Table) {
    forall name | name in loose.table ::
      TightensWhatCounts(strict, loose.table[name], Get(hints, name), loose.table.Keys)
  }

  /** With fewer components seen, fewer objects can be satisfied and fewer leaves count. */
  lemma {:induction false} FewerLeavesCount(
      strict: Registry, base: Schema, hint: Option<Schema>, seen: set<string>, more: set<string>)
    requires seen <= more && TightensWhatCounts(strict, base, hint, more)
    ensures TightensWhatCounts(strict, base, hint, seen)
    decreases base
  {
    if hint.Some? && base.ArraySchema? && hint.value.ArraySchema? {
      FewerLeavesCount(strict, base.element, Some(hint.value.element), seen, more);
    } else if hint.Some? && base.ObjectSchema? && hint.value.ObjectSchema?
              && Satisfiable(strict, ApplySchemaStrictness(base, hint), seen) {
      var value :| Accepts(strict, value, ApplySchemaStrictness(base, hint), seen);
      SeenMonotone(strict, value, ApplySchemaStrictness(base, hint), seen, more);
      forall name | name in base.properties
        ensures TightensWhatCounts(strict, base.properties[name], Get(hint.value.properties, name), seen) {
        FewerLeavesCount(strict, base.properties[name], Get(hint.value.properties, name), seen, more);
      }
      if base.additional.Shaped? {
        FewerLeavesCount(strict, base.additional.schema, AdditionalHint(hint.value), seen, more);
      }
    }
  }

  lemma {:induction false} CountingNarrows(
      loose: Registry, strict: Registry, hints: Table, value: Value, base: Schema, hint: Option<Schema>, seen: set<string>)
    requires IsRewritten(loose, strict, hints) && TableTightens(loose, strict, hints) && seen <= loose.table.Keys
    requires NoChoice(base, hint) && TightensWhatCounts(strict, base, hint, seen)
    requires Accepts(strict, value, ApplySchemaStrictness(base, hint), seen)
    ensures Accepts(loose, value, base, seen)
    decreases loose.table.Keys - seen, base, 1
  {
    match base
    case Ref(name) =>
      if name !in seen {
        FewerLeavesCount(strict, loose.table[name], Get(hints, name), seen + {name}, loose.table.Keys);
        CountingNarrows(loose, strict, hints, value, loose.table[name], Get(hints, name), seen + {name});
      }
    case AnyOf(options) =>
      var i :| 0 <= i < |options| && Accepts(strict, value, options[i], seen);
      CountingNarrows(loose, strict, hints, value, options[i], None, seen);
    case ArraySchema(element) =>
      var next := if hint.Some? && hint.value.ArraySchema? then Some(hint.value.element) else None;
      forall i | 0 <= i < |value.items| ensures Accepts(loose, value.items[i], element, seen) {
        CountingNarrows(loose, strict, hints, value.items[i], element, next, seen);
      }
    case ObjectSchema(_, _, _) =>
      CountingNarrowsObject(loose, strict, hints, value, base, hint, seen);
    case _ =>
      LeafNarrows(loose, strict, value, base, hint, seen);
  }

  lemma {:induction false} CountingNarrowsObject(
      loose: Registry, strict: Registry, hints: Table, value: Value, base: Schema, hint: Option<Schema>, seen: set<string>)
    requires base.ObjectSchema?
    requires IsRewritten(loose, strict, hints) && TableTightens(loose, strict, hints) && seen <= loose.table.Keys
    requires NoChoice(base, hint) && TightensWhatCounts(strict, base, hint, seen)
    requires Accepts(strict, value, ApplySchemaStrictness(base, hint), seen)
    ensures Accepts(loose, value, base, seen)
    decreases loose.table.Keys - seen, base, 0
  {
    var rewritten := ApplySchemaStrictness(base, hint);
    var used := hint.Some? && hint.value.ObjectSchema?;
    if used {
      RewrittenObject(base, hint.value);
      assert Satisfiable(strict, rewritten, seen);
    }
    forall k | k in base.properties && k in value.fields
      ensures Accepts(loose, value.fields[k], base.properties[k], seen) {
      assert Accepts(strict, value.fields[k], rewritten.properties[k], seen);
      var next := if used then Get(hint.value.properties, k) else None;
      CountingNarrows(loose, strict, hints, value.fields[k], base.properties[k], next, seen);
    }
    if base.additional.Shaped? {
      var next := if used then AdditionalHint(hint.value) else None;
      forall k | k in value.fields && k !in base.properties
        ensures Accepts(loose, value.fields[k], base.additional.schema, seen) {
        assert Accepts(strict, value.fields[k], rewritten.additional.schema, seen);
        CountingNarrows(loose, strict, hints, value.fields[k], base.additional.schema, next, seen);
      }
    }
  }

  /** With every component seen the tables are not consulted any more. */
  lemma {:induction false} AllSeenSame(loose: Registry, strict: Registry, value: Value, schema: Schema)
    requires loose.parsesAsDate == strict.parsesAsDate && loose.table.Keys == strict.table.Keys
    requires Accepts(strict, value, schema, loose.table.Keys)
    ensures Accepts(loose, value, schema, loose.table.Keys)
    decreases schema
  {
    var seen := loose.table.Keys;
    match schema
    case AnyOf(options) =>
      var i :| 0 <= i < |options| && Accepts(strict, value, options[i], seen);
      AllSeenSame(loose, strict, value, options[i]);
    case ArraySchema(element) =>
      forall i | 0 <= i < |value.items| ensures Accepts(loose, value.items[i], element, seen) {
        AllSeenSame(loose, strict, value.items[i], element);
      }
    case ObjectSchema(properties, _, additional) =>
      forall k | k in properties && k in value.fields ensures Accepts(loose, value.fields[k], properties[k], seen) {
        AllSeenSame(loose, strict, value.fields[k], properties[k]);
      }
      if additional.Shaped? {
        forall k | k in value.fields && k !in properties ensures Accepts(loose, value.fields[k], additional.schema, seen) {
          AllSeenSame(loose, strict, value.fields[k], additional.schema);
        }
      }
    case _ =>
  }

  /** A reference to the only component that is not seen yet shows what its hint does. */
  lemma ComponentMustTighten(loose: Registry, strict: Registry, hints: Table, name: string)
    requires IsRewritten(loose, strict, hints) && name in loose.table
    requires TableNarrows(loose, strict, loose.table.Keys - {name})
    ensures TightensWhatCounts(strict, loose.table[name], Get(hints, name), loose.table.Keys)
  {
    var keys := loose.table.Keys;
    assert keys - {name} + {name} == keys;
    forall value | Accepts(strict, value, strict.table[name], keys) ensures Accepts(loose, value, loose.table[name], keys) {
      assert Accepts(strict, value, Ref(name), keys - {name});
      assert Accepts(loose, value, Ref(name), keys - {name});
    }
    forall value, schema | Accepts(strict, value, schema, keys) ensures Accepts(loose, value, schema, keys) {
      AllSeenSame(loose, strict, value, schema);
    }
    NarrowsIff(loose, strict, loose.table[name], Get(hints, name), keys);
  }

  /** A table that is rewritten without touching choices accepts no more than before, for every value, every schema
      and all components that can be seen, if and only if no hint loosens a leaf that counts. */
  lemma TableNarrowsIff(loose: Registry, strict: Registry, hints: Table)
    requires IsRewritten(loose, strict, hints)
    ensures (forall seen | seen <= loose.table.Keys :: TableNarrows(loose, strict, seen)) <==> TableTightens(loose, strict, hints)
  {
    if TableTightens(loose, strict, hints) {
      forall seen, value, schema | seen <= loose.table.Keys && Accepts(strict, value, schema, seen)
        ensures Accepts(loose, value, schema, seen) {
        CountingNarrows(loose, strict, hints, value, schema, None, seen);
      }
    }
    if forall seen | seen <= loose.table.Keys :: TableNarrows(loose, strict, seen) {
      forall name | name in loose.table
        ensures TightensWhatCounts(strict, loose.table[name], Get(hints, name), loose.table.Keys) {
        ComponentMustTighten(loose, strict, hints, name);
      }
    }
  }

  /** The hints of the components that are generated; the others have none that counts. */
  function UsedHints(generated: Table, hints: Table): Table {
    map name | name in hints && name in generated :: hints[name]
  }

  /** The published table accepts no more than the unhinted one if and only if no hint loosens a leaf that counts. */
  lemma PublishNarrowsIff(handWritten: Table, generated: Table, hints: Table, parsesAsDate: string -> bool)
    requires forall name | name in generated :: NoChoice(generated[name], Get(hints, name))
    ensures var loose := Registry(handWritten + generated, parsesAsDate);
            var strict := Registry(Publish(handWritten, generated, hints), parsesAsDate);
            (forall seen | seen <= loose.table.Keys :: TableNarrows(loose, strict, seen)) <==>
            TableTightens(loose, strict, UsedHints(generated, hints))
  {
    var loose := Registry(handWritten + generated, parsesAsDate);
    var strict := Registry(Publish(handWritten, generated, hints), parsesAsDate);
    TableNarrowsIff(loose, strict, UsedHints(generated, hints));
  }

  /** With choices the leaves do not decide: another option can accept what a loosened one lets in. */
  lemma OptionHidesLoosening(reg: Registry, base: Schema, hint: Schema, seen: set<string>)
    requires base == AnyOf([StringSchema(Some(2), None, false), StringSchema(None, None, false)])
    requires hint == AnyOf([StringSchema(Some(1), None, false), StringSchema(None, None, false)])
    ensures Narrows(reg, reg, base, Some(hint), seen) && !Tightens(reg.parsesAsDate, base, Some(hint))
  {
    var strict := ApplySchemaStrictness(base, Some(hint));
    forall value | Accepts(reg, value, strict, seen) ensures Accepts(reg, value, base, seen) {
      var i :| 0 <= i < |strict.options| && Accepts(reg, value, strict.options[i], seen);
      assert Accepts(reg, value, base.options[1], seen);
    }
    assert !Tightens(reg.parsesAsDate, base.options[0], Some(hint.options[0]));
  }
}
