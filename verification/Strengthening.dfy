/** What a hint adds: the rewritten schema asks for everything that the hint asks for, and otherwise for what
    the generated schema asks for. */
module Strengthening {
  import opened Options
  import opened Values
  import opened Schemas
  import opened Strictness
  import opened StrictnessExact

  // ---------------------------------------------------------------- leaves, exactly

  /** Each keyword of a text is the hint's where the hint states it, and the base's where it does not. */
  lemma StrengthenedText(reg: Registry, value: Value, base: Schema, hint: Schema, seen: set<string>)
    requires base.StringSchema? && hint.StringSchema?
    ensures Accepts(reg, value, ApplySchemaStrictness(base, Some(hint)), seen) <==>
            && value.Text?
            && (hint.minLength.Some? ==> |value.s| >= hint.minLength.value)
            && (hint.minLength.None? && base.minLength.Some? ==> |value.s| >= base.minLength.value)
            && (hint.enumeration.Some? ==> value.s in hint.enumeration.value)
            && (hint.enumeration.None? && base.enumeration.Some? ==> value.s in base.enumeration.value)
            && (hint.dateTime || base.dateTime ==> reg.parsesAsDate(value.s))
  {
    AcceptsMeans(reg, value, ApplySchemaStrictness(base, Some(hint)), seen);
  }

  /** So it is with the bound of a number. */
  lemma StrengthenedNumber(reg: Registry, value: Value, base: Schema, hint: Schema, seen: set<string>)
    requires (base.IntegerSchema? && hint.IntegerSchema?) || (base.NumberSchema? && hint.NumberSchema?)
    ensures Accepts(reg, value, ApplySchemaStrictness(base, Some(hint)), seen) <==>
            && value.Num? && value.n.Finite?
            && (base.IntegerSchema? ==> value.n.r == value.n.r.Floor as real)
            && (hint.minimum.Some? ==> value.n.r >= hint.minimum.value)
            && (hint.minimum.None? && base.minimum.Some? ==> value.n.r >= base.minimum.value)
  {
    AcceptsMeans(reg, value, ApplySchemaStrictness(base, Some(hint)), seen);
  }

  /** Without a hint, with a reference on either side, or with a hint of another kind, nothing changes. */
  lemma UnhintedStays(base: Schema, hint: Option<Schema>)
    requires hint.Some? && !base.Ref? && !hint.value.Ref? ==>
               !(base.StringSchema? && hint.value.StringSchema?) && !(base.IntegerSchema? && hint.value.IntegerSchema?)
               && !(base.NumberSchema? && hint.value.NumberSchema?) && !(base.ArraySchema? && hint.value.ArraySchema?)
               && !(base.ObjectSchema? && hint.value.ObjectSchema?)
               && !(base.AnyOf? && hint.value.AnyOf? && |hint.value.options| == |base.options|)
    ensures ApplySchemaStrictness(base, hint) == base
  {
  }

  // ---------------------------------------------------------------- composite schemas, part by part

  lemma StrengthenedItems(reg: Registry, value: Value, base: Schema, hint: Schema, seen: set<string>)
    requires base.ArraySchema? && hint.ArraySchema?
    ensures Accepts(reg, value, ApplySchemaStrictness(base, Some(hint)), seen) <==>
            && value.Array?
            && forall i | 0 <= i < |value.items| ::
                 Accepts(reg, value.items[i], ApplySchemaStrictness(base.element, Some(hint.element)), seen)
  {
    var strict := ApplySchemaStrictness(base, Some(hint));
    assert strict == ArraySchema(ApplySchemaStrictness(base.element, Some(hint.element)));
    AcceptsMeans(reg, value, strict, seen);
  }

  lemma StrengthenedChoice(reg: Registry, value: Value, base: Schema, hint: Schema, seen: set<string>)
    requires base.AnyOf? && hint.AnyOf? && |base.options| == |hint.options|
    ensures Accepts(reg, value, ApplySchemaStrictness(base, Some(hint)), seen) <==>
            exists i | 0 <= i < |base.options| ::
              Accepts(reg, value, ApplySchemaStrictness(base.options[i], Some(hint.options[i])), seen)
  {
    var strict := ApplySchemaStrictness(base, Some(hint));
    assert strict.AnyOf? && |strict.options| == |base.options|;
    assert forall i | 0 <= i < |base.options| :: strict.options[i] == ApplySchemaStrictness(base.options[i], Some(hint.options[i]));
    AcceptsMeans(reg, value, strict, seen);
  }

  /** An object keeps its required keys and its closure; the value of a stated key meets the rewritten property,
      and any other one the rewritten schema for additional values. */
  lemma StrengthenedObject(reg: Registry, value: Value, base: Schema, hint: Schema, seen: set<string>)
    requires base.ObjectSchema? && hint.ObjectSchema?
    ensures Accepts(reg, value, ApplySchemaStrictness(base, Some(hint)), seen) <==>
            && value.Object?
            && (forall k | k in base.required :: k in value.fields)
            && (base.additional == Stated(false) ==> forall k | k in value.fields :: k in base.properties)
            && (forall k | k in base.properties && k in value.fields ::
                  Accepts(reg, value.fields[k], ApplySchemaStrictness(base.properties[k], Get(hint.properties, k)), seen))
            && (base.additional.Shaped? && hint.additional.Shaped? ==>
                  forall k | k in value.fields && k !in base.properties ::
                    Accepts(reg, value.fields[k], ApplySchemaStrictness(base.additional.schema, Some(hint.additional.schema)), seen))
            && (base.additional.Shaped? && !hint.additional.Shaped? ==>
                  forall k | k in value.fields && k !in base.properties ::
                    Accepts(reg, value.fields[k], base.additional.schema, seen))
  {
    var strict := ApplySchemaStrictness(base, Some(hint));
    RewrittenObject(base, hint);
    AcceptsMeans(reg, value, strict, seen);
    assert value.Object? ==> forall k | k in base.properties && k in value.fields ::
        Accepts(reg, value.fields[k], strict.properties[k], seen) <==>
        Accepts(reg, value.fields[k], ApplySchemaStrictness(base.properties[k], Get(hint.properties, k)), seen);
  }

  // ---------------------------------------------------------------- the whole hint is met

  /** The hint speaks of the places that the base describes: it names no key the base does not know and no shape the
      base does not have. Whatever it leaves out, it leaves open. */
  predicate Fits(base: Schema, hint: Schema)
    decreases base
  {
    match base
    case AnyOf(options) =>
      hint.AnyOf? && |hint.options| == |options| && forall i | 0 <= i < |options| :: Fits(options[i], hint.options[i])
    case ArraySchema(element) => hint.ArraySchema? && Fits(element, hint.element)
    case ObjectSchema(properties, required, additional) =>
      && hint.ObjectSchema? && hint.required <= required
      && hint.properties.Keys <= properties.Keys
      && (forall k | k in properties && k in hint.properties :: Fits(properties[k], hint.properties[k]))
      && (hint.additional == Stated(false) ==> additional == Stated(false) && hint.properties.Keys == properties.Keys)
      && (hint.additional.Shaped? ==>
            additional.Shaped? && hint.properties.Keys == properties.Keys && Fits(additional.schema, hint.additional.schema))
    case StringSchema(_, _, _) => hint.StringSchema?
    case IntegerSchema(_) => hint.IntegerSchema?
    case NumberSchema(_) => hint.NumberSchema?
    case _ => hint == base
  }

  /** Whatever the rewritten schema accepts, the hint on its own accepts as well: at every depth. */
  lemma {:induction false} HintIsMet(reg: Registry, value: Value, base: Schema, hint: Schema, seen: set<string>)
    requires Fits(base, hint)
    requires Accepts(reg, value, ApplySchemaStrictness(base, Some(hint)), seen)
    ensures Accepts(reg, value, hint, seen)
    decreases base
  {
    match base
    case AnyOf(options) =>
      StrengthenedChoice(reg, value, base, hint, seen);
      var i :| 0 <= i < |options| && Accepts(reg, value, ApplySchemaStrictness(options[i], Some(hint.options[i])), seen);
      HintIsMet(reg, value, options[i], hint.options[i], seen);
    case ArraySchema(element) =>
      StrengthenedItems(reg, value, base, hint, seen);
      forall i | 0 <= i < |value.items| ensures Accepts(reg, value.items[i], hint.element, seen) {
        HintIsMet(reg, value.items[i], element, hint.element, seen);
      }
    case ObjectSchema(properties, _, additional) =>
      StrengthenedObject(reg, value, base, hint, seen);
      forall k | k in hint.properties && k in value.fields ensures Accepts(reg, value.fields[k], hint.properties[k], seen) {
        HintIsMet(reg, value.fields[k], properties[k], hint.properties[k], seen);
      }
      if hint.additional.Shaped? {
        forall k | k in value.fields && k !in hint.properties ensures Accepts(reg, value.fields[k], hint.additional.schema, seen) {
          HintIsMet(reg, value.fields[k], additional.schema, hint.additional.schema, seen);
        }
      }
    case _ =>
  }

  /** And the rewritten schema asks for no more than the two of them ask for. */
  lemma {:induction false} BothAreEnough(reg: Registry, value: Value, base: Schema, hint: Schema, seen: set<string>)
    requires Fits(base, hint) && NoChoice(base, Some(hint))
    requires Accepts(reg, value, base, seen) && Accepts(reg, value, hint, seen)
    ensures Accepts(reg, value, ApplySchemaStrictness(base, Some(hint)), seen)
    decreases base
  {
    match base
    case AnyOf(options) =>
    case ArraySchema(element) =>
      forall i | 0 <= i < |value.items|
        ensures Accepts(reg, value.items[i], ApplySchemaStrictness(element, Some(hint.element)), seen) {
        BothAreEnough(reg, value.items[i], element, hint.element, seen);
      }
      StrengthenedItems(reg, value, base, hint, seen);
    case ObjectSchema(properties, _, additional) =>
      forall k | k in properties && k in value.fields
        ensures Accepts(reg, value.fields[k], ApplySchemaStrictness(properties[k], Get(hint.properties, k)), seen) {
        if k in hint.properties {
          BothAreEnough(reg, value.fields[k], properties[k], hint.properties[k], seen);
        }
      }
      if additional.Shaped? && hint.additional.Shaped? {
        forall k | k in value.fields && k !in properties
          ensures Accepts(reg, value.fields[k], ApplySchemaStrictness(additional.schema, Some(hint.additional.schema)), seen) {
          BothAreEnough(reg, value.fields[k], additional.schema, hint.additional.schema, seen);
        }
      }
      StrengthenedObject(reg, value, base, hint, seen);
    case _ =>
  }

  /** A hint that fits and loosens no leaf turns a schema into the conjunction of the two: a value is accepted if and
      only if the base accepts it and the hint accepts it. */
  lemma StrengthenedIsBoth(reg: Registry, value: Value, base: Schema, hint: Schema, seen: set<string>)
    requires Fits(base, hint) && NoChoice(base, Some(hint)) && Tightens(reg.parsesAsDate, base, Some(hint))
    ensures Accepts(reg, value, ApplySchemaStrictness(base, Some(hint)), seen) <==>
            Accepts(reg, value, base, seen) && Accepts(reg, value, hint, seen)
  {
    if Accepts(reg, value, ApplySchemaStrictness(base, Some(hint)), seen) {
      HintIsMet(reg, value, base, hint, seen);
      StrictnessNarrows(reg, reg, map[], value, base, Some(hint), seen);
    }
    if Accepts(reg, value, base, seen) && Accepts(reg, value, hint, seen) {
      BothAreEnough(reg, value, base, hint, seen);
    }
  }

  // ---------------------------------------------------------------- the published table

  /** A published name stands for the generated component with its hint, or for the one written by hand. */
  lemma PublishedMeans(
      handWritten: Table, generated: Table, hints: Table, parsesAsDate: string -> bool,
      value: Value, name: string, seen: set<string>)
    requires name !in seen
    ensures var reg := Registry(Publish(handWritten, generated, hints), parsesAsDate);
            Accepts(reg, value, Ref(name), seen) <==>
            if name in generated && name in hints then
              Accepts(reg, value, ApplySchemaStrictness(generated[name], Some(hints[name])), seen + {name})
            else if name in generated then Accepts(reg, value, generated[name], seen + {name})
            else name in handWritten && Accepts(reg, value, handWritten[name], seen + {name})
  {
    AcceptsMeans(Registry(Publish(handWritten, generated, hints), parsesAsDate), value, Ref(name), seen);
  }

  /** What the published table accepts under the name of a generated component meets the hint of that name. */
  lemma PublishedMeetsHint(
      handWritten: Table, generated: Table, hints: Table, parsesAsDate: string -> bool,
      value: Value, name: string, seen: set<string>)
    requires name in generated && name in hints && Fits(generated[name], hints[name]) && name !in seen
    requires Accepts(Registry(Publish(handWritten, generated, hints), parsesAsDate), value, Ref(name), seen)
    ensures Accepts(Registry(Publish(handWritten, generated, hints), parsesAsDate), value, hints[name], seen + {name})
  {
    var reg := Registry(Publish(handWritten, generated, hints), parsesAsDate);
    PublishedMeans(handWritten, generated, hints, parsesAsDate, value, name, seen);
    HintIsMet(reg, value, generated[name], hints[name], seen + {name});
  }
}
