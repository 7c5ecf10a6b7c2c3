/** The schema language of `api-schemas.ts` and its validator: a table of components that may
    refer to each other, and a check that follows each reference at most once on a path. */
module Schemas {
  import opened Options
  import opened Values

  /** An absent `properties` is the empty map and an absent `required` the empty set: the source
      reads both through `??` with exactly these defaults. `format` has one possible value. */
  datatype Schema =
    | StringSchema(minLength: Option<int>, enumeration: Option<seq<string>>, dateTime: bool)
    | IntegerSchema(minimum: Option<real>)
    | NumberSchema(minimum: Option<real>)
    | BooleanSchema
    | NullSchema
    | ArraySchema(element: Schema)
    | ObjectSchema(properties: map<string, Schema>, required: set<string>, additional: Additional)
    | AnyOf(options: seq<Schema>)
    | Ref(name: string)

  datatype Additional = Unstated | Stated(allowed: bool) | Shaped(schema: Schema)

  type Table = map<string, Schema>

  /** The published component table, and the date parser of the host. */
  datatype Registry = Registry(table: Table, parsesAsDate: string -> bool)

  // ---------------------------------------------------------------- acceptance

  predicate AcceptsText(parsesAsDate: string -> bool, schema: Schema, text: string)
    requires schema.StringSchema?
  {
    && (schema.minLength.Some? ==> schema.minLength.value <= |text|)
    && (schema.enumeration.Some? ==> text in schema.enumeration.value)
    && (schema.dateTime ==> parsesAsDate(text))
  }

  predicate AtLeast(n: real, minimum: Option<real>) {
    minimum.Some? ==> minimum.value <= n
  }

  predicate IsLeaf(schema: Schema) {
    schema.StringSchema? || schema.IntegerSchema? || schema.NumberSchema? || schema.BooleanSchema? || schema.NullSchema?
  }

  predicate AcceptsLeaf(parsesAsDate: string -> bool, value: Value, schema: Schema)
    requires IsLeaf(schema)
  {
    match schema
    case NullSchema => value.Null?
    case BooleanSchema => value.Bool?
    case StringSchema(_, _, _) => value.Text? && AcceptsText(parsesAsDate, schema, value.s)
    case IntegerSchema(minimum) => value.IsIntegerNumber() && AtLeast(value.n.r, minimum)
    case NumberSchema(minimum) => value.IsFiniteNumber() && AtLeast(value.n.r, minimum)
  }

  /** The keys an object must have and may have, before any of their values is looked at. */
  predicate HasShape(value: Value, required: set<string>, properties: map<string, Schema>, additional: Additional) {
    && value.Object?
    && required <= value.fields.Keys
    && (additional == Stated(false) ==> value.fields.Keys <= properties.Keys)
  }

  /** `seen` holds the components already entered on the way here; a reference to one of them is
      accepted without looking again. The recursion ends because every other reference enters a
      component of the table that was not seen, and everything else moves to a smaller schema. */
  predicate Accepts(reg: Registry, value: Value, schema: Schema, seen: set<string>)
    decreases reg.table.Keys - seen, schema
  {
    match schema
    case Ref(name) =>
      || name in seen
      || (name in reg.table && Accepts(reg, value, reg.table[name], seen + {name}))
    case AnyOf(options) => exists i | 0 <= i < |options| :: Accepts(reg, value, options[i], seen)
    case ArraySchema(element) =>
      value.Array? && forall i | 0 <= i < |value.items| :: Accepts(reg, value.items[i], element, seen)
    case ObjectSchema(properties, required, additional) =>
      && HasShape(value, required, properties, additional)
      && (forall k | k in properties && k in value.fields :: Accepts(reg, value.fields[k], properties[k], seen))
      && (additional.Shaped? ==>
            forall k | k in value.fields && k !in properties :: Accepts(reg, value.fields[k], additional.schema, seen))
    case _ => AcceptsLeaf(reg.parsesAsDate, value, schema)
  }

  // ---------------------------------------------------------------- the validator

  datatype Step = Key(key: string) | Index(index: nat)

  datatype Fault =
    | UnresolvedRef(name: string)
    | NoOptionMatches
    | ExpectedNull
    | ExpectedString
    | TooShort(minLength: int)
    | NotListed(enumeration: seq<string>)
    | NotADate
    | ExpectedInteger
    | ExpectedNumber
    | BelowMinimum(minimum: real)
    | ExpectedBoolean
    | ExpectedArray
    | ExpectedObject
    | Required
    | NotAllowed

  datatype Issue = Issue(path: seq<Step>, fault: Fault)

  /** What each message claims: `steps` leads from the value, and from the schema that is checked against it, to a
      place that has the fault. Two faults are about their last step: a key that is missing, and one that is
      not allowed. */
  ghost predicate Blames(reg: Registry, value: Value, schema: Schema, seen: set<string>, steps: seq<Step>, fault: Fault)
    decreases reg.table.Keys - seen, schema
  {
    match schema
    case Ref(name) =>
      && name !in seen
      && if name in reg.table then Blames(reg, value, reg.table[name], seen + {name}, steps, fault)
         else steps == [] && fault == UnresolvedRef(name)
    case AnyOf(options) =>
      steps == [] && fault == NoOptionMatches && forall i | 0 <= i < |options| :: !Accepts(reg, value, options[i], seen)
    case ArraySchema(element) =>
      if steps == [] then fault == ExpectedArray && !value.Array?
      else
        && steps[0].Index? && value.Array? && steps[0].index < |value.items|
        && Blames(reg, value.items[steps[0].index], element, seen, steps[1..], fault)
    case ObjectSchema(properties, required, additional) =>
      if steps == [] then fault == ExpectedObject && !value.Object?
      else if !steps[0].Key? || !value.Object? then false
      else
        var k := steps[0].key;
        if k !in value.fields then |steps| == 1 && fault == Required && k in required
        else if k in properties then Blames(reg, value.fields[k], properties[k], seen, steps[1..], fault)
        else
          || (additional == Stated(false) && |steps| == 1 && fault == NotAllowed)
          || (additional.Shaped? && Blames(reg, value.fields[k], additional.schema, seen, steps[1..], fault))
    case _ => steps == [] && BlamesLeaf(reg.parsesAsDate, value, schema, fault)
  }

  predicate BlamesLeaf(parsesAsDate: string -> bool, value: Value, schema: Schema, fault: Fault)
    requires IsLeaf(schema)
  {
    match fault
    case ExpectedNull => schema.NullSchema? && !value.Null?
    case ExpectedBoolean => schema.BooleanSchema? && !value.Bool?
    case ExpectedString => schema.StringSchema? && !value.Text?
    case TooShort(n) => schema.StringSchema? && value.Text? && schema.minLength == Some(n) && |value.s| < n
    case NotListed(e) => schema.StringSchema? && value.Text? && schema.enumeration == Some(e) && value.s !in e
    case NotADate => schema.StringSchema? && value.Text? && schema.dateTime && !parsesAsDate(value.s)
    case ExpectedInteger =>
      schema.IntegerSchema? && !(value.Num? && value.n.Finite? && value.n.r == value.n.r.Floor as real)
    case ExpectedNumber => schema.NumberSchema? && !(value.Num? && value.n.Finite?)
    case BelowMinimum(m) =>
      && ((schema.IntegerSchema? && value.IsIntegerNumber()) || (schema.NumberSchema? && value.IsFiniteNumber()))
      && schema.minimum == Some(m) && value.n.r < m
    case _ => false
  }

  /** What every check returns: nothing, or one issue at or below `path` whose fault the value has. */
  ghost predicate Reports(
      reg: Registry, value: Value, schema: Schema, seen: set<string>, path: seq<Step>, errors: seq<Issue>) {
    |errors| <= 1 &&
    (errors != [] ==>
       path <= errors[0].path && Blames(reg, value, schema, seen, errors[0].path[|path|..], errors[0].fault))
  }

  /** `step` leads to a part of the value that `sub` is checked against. */
  ghost predicate IsPartAt(value: Value, schema: Schema, step: Step, part: Value, sub: Schema) {
    match step
    case Index(i) =>
      && schema.ArraySchema? && sub == schema.element
      && value.Array? && i < |value.items| && part == value.items[i]
    case Key(k) =>
      && schema.ObjectSchema? && value.Object? && k in value.fields && part == value.fields[k]
      && if k in schema.properties then sub == schema.properties[k]
         else schema.additional.Shaped? && sub == schema.additional.schema
  }

  /** An issue found below one step is an issue of the whole value. */
  lemma ReportsBelow(
      reg: Registry, value: Value, schema: Schema, seen: set<string>, path: seq<Step>, step: Step,
      part: Value, sub: Schema, errors: seq<Issue>)
    requires IsPartAt(value, schema, step, part, sub)
    requires Reports(reg, part, sub, seen, path + [step], errors)
    ensures Reports(reg, value, schema, seen, path, errors)
  {
    if errors != [] {
      var steps := errors[0].path[|path|..];
      assert steps[0] == (path + [step])[|path|];
      assert steps[1..] == errors[0].path[|path| + 1..];
    }
  }

  /** An issue about the value itself. */
  lemma ReportsHere(reg: Registry, value: Value, schema: Schema, seen: set<string>, path: seq<Step>, fault: Fault)
    requires Blames(reg, value, schema, seen, [], fault)
    ensures Reports(reg, value, schema, seen, path, [Issue(path, fault)])
  {
  }

  /** A key that is missing, or one that is not allowed. */
  lemma ReportsKey(reg: Registry, value: Value, schema: Schema, seen: set<string>, path: seq<Step>, key: string, fault: Fault)
    requires Blames(reg, value, schema, seen, [Key(key)], fault)
    ensures Reports(reg, value, schema, seen, path, [Issue(path + [Key(key)], fault)])
  {
    assert (path + [Key(key)])[|path|..] == [Key(key)];
  }

  /** The checks of the scalar types. */
  function LeafFault(reg: Registry, value: Value, schema: Schema): (fault: Option<Fault>)
    requires IsLeaf(schema)
    ensures fault.None? <==> AcceptsLeaf(reg.parsesAsDate, value, schema)
    ensures fault.Some? ==> BlamesLeaf(reg.parsesAsDate, value, schema, fault.value)
  {
    match schema
    case NullSchema => if value.Null? then None else Some(ExpectedNull)
    case StringSchema(minLength, enumeration, dateTime) =>
      if !value.Text? then Some(ExpectedString)
      else if minLength.Some? && |value.s| < minLength.value then Some(TooShort(minLength.value))
      else if enumeration.Some? && value.s !in enumeration.value then Some(NotListed(enumeration.value))
      else if dateTime && !reg.parsesAsDate(value.s) then Some(NotADate)
      else None
    case IntegerSchema(minimum) =>
      if !value.IsIntegerNumber() then Some(ExpectedInteger)
      else if minimum.Some? && value.n.r < minimum.value then Some(BelowMinimum(minimum.value))
      else None
    case NumberSchema(minimum) =>
      if !value.IsFiniteNumber() then Some(ExpectedNumber)
      else if minimum.Some? && value.n.r < minimum.value then Some(BelowMinimum(minimum.value))
      else None
    case BooleanSchema => if value.Bool? then None else Some(ExpectedBoolean)
  }

  /** The validator. Keys of objects are visited in an arbitrary order, so the contract holds for
      every order. */
  method ValidateSchema(reg: Registry, value: Value, schema: Schema, path: seq<Step>, seen: set<string>)
      returns (errors: seq<Issue>)
    ensures errors == [] <==> Accepts(reg, value, schema, seen)
    ensures Reports(reg, value, schema, seen, path, errors)
    decreases reg.table.Keys - seen, schema, 2
  {
    match schema
    case Ref(name) =>
      if name in seen {
        return [];
      }
      if name !in reg.table {
        return [Issue(path, UnresolvedRef(name))];
      }
      var nextSeen := seen + {name};
      errors := ValidateSchema(reg, value, reg.table[name], path, nextSeen);
    case AnyOf(options) =>
      errors := ValidateOptions(reg, value, schema, path, seen);
    case ArraySchema(element) =>
      errors := ValidateItems(reg, value, schema, path, seen);
    case ObjectSchema(properties, required, additional) =>
      errors := ValidateKeys(reg, value, schema, path, seen);
      if |errors| > 0 {
        return;
      }
      errors := ValidateProperties(reg, value, schema, path, seen);
      if |errors| > 0 {
        return;
      }
      if additional == Stated(false) {
        errors := ValidateClosed(reg, value, schema, path, seen);
      } else if additional.Shaped? {
        errors := ValidateAdditional(reg, value, schema, path, seen);
      }
    case _ =>
      var fault := LeafFault(reg, value, schema);
      errors := [];
      if fault.Some? {
        ReportsHere(reg, value, schema, seen, path, fault.value);
        errors := [Issue(path, fault.value)];
      }
  }

  method ValidateOptions(reg: Registry, value: Value, schema: Schema, path: seq<Step>, seen: set<string>)
      returns (errors: seq<Issue>)
    requires schema.AnyOf?
    ensures errors == [] <==> exists i | 0 <= i < |schema.options| :: Accepts(reg, value, schema.options[i], seen)
    ensures Reports(reg, value, schema, seen, path, errors)
    decreases reg.table.Keys - seen, schema, 1
  {
    var options := schema.options;
    for i := 0 to |options|
      invariant forall j | 0 <= j < i :: !Accepts(reg, value, options[j], seen)
    {
      var optionErrors := ValidateSchema(reg, value, options[i], path, seen);
      if |optionErrors| == 0 {
        return [];
      }
    }
    ReportsHere(reg, value, schema, seen, path, NoOptionMatches);
    errors := [Issue(path, NoOptionMatches)];
  }

  method ValidateItems(reg: Registry, value: Value, schema: Schema, path: seq<Step>, seen: set<string>)
      returns (errors: seq<Issue>)
    requires schema.ArraySchema?
    ensures errors == [] <==>
            value.Array? && forall i | 0 <= i < |value.items| :: Accepts(reg, value.items[i], schema.element, seen)
    ensures Reports(reg, value, schema, seen, path, errors)
    decreases reg.table.Keys - seen, schema, 1
  {
    if !value.Array? {
      ReportsHere(reg, value, schema, seen, path, ExpectedArray);
      return [Issue(path, ExpectedArray)];
    }
    for i := 0 to |value.items|
      invariant forall j | 0 <= j < i :: Accepts(reg, value.items[j], schema.element, seen)
    {
      errors := ValidateSchema(reg, value.items[i], schema.element, path + [Index(i)], seen);
      if |errors| > 0 {
        ReportsBelow(reg, value, schema, seen, path, Index(i), value.items[i], schema.element, errors);
        return;
      }
    }
    errors := [];
  }

  method ValidateKeys(reg: Registry, value: Value, schema: Schema, path: seq<Step>, ghost seen: set<string>)
      returns (errors: seq<Issue>)
    requires schema.ObjectSchema?
    ensures errors == [] <==> value.Object? && schema.required <= value.fields.Keys
    ensures Reports(reg, value, schema, seen, path, errors)
  {
    if !value.Object? {
      ReportsHere(reg, value, schema, seen, path, ExpectedObject);
      return [Issue(path, ExpectedObject)];
    }
    var pending := schema.required;
    while pending != {}
      invariant pending <= schema.required
      invariant schema.required - pending <= value.fields.Keys
    {
      var key :| key in pending;
      if key !in value.fields {
        ReportsKey(reg, value, schema, seen, path, key, Required);
        return [Issue(path + [Key(key)], Required)];
      }
      pending := pending - {key};
    }
    errors := [];
  }

  method ValidateProperties(reg: Registry, value: Value, schema: Schema, path: seq<Step>, seen: set<string>)
      returns (errors: seq<Issue>)
    requires schema.ObjectSchema? && value.Object?
    ensures errors == [] <==>
            forall k | k in schema.properties && k in value.fields :: Accepts(reg, value.fields[k], schema.properties[k], seen)
    ensures Reports(reg, value, schema, seen, path, errors)
    decreases reg.table.Keys - seen, schema, 1
  {
    var fields, properties := value.fields, schema.properties;
    var pending := properties.Keys;
    while pending != {}
      invariant pending <= properties.Keys
      invariant forall k | k in properties && k !in pending && k in fields :: Accepts(reg, fields[k], properties[k], seen)
    {
      var key :| key in pending;
      pending := pending - {key};
      if key in fields {
        errors := ValidateSchema(reg, fields[key], properties[key], path + [Key(key)], seen);
        if |errors| > 0 {
          ReportsBelow(reg, value, schema, seen, path, Key(key), fields[key], properties[key], errors);
          return;
        }
      }
    }
    errors := [];
  }

  method ValidateClosed(reg: Registry, value: Value, schema: Schema, path: seq<Step>, ghost seen: set<string>)
      returns (errors: seq<Issue>)
    requires schema.ObjectSchema? && value.Object? && schema.additional == Stated(false)
    ensures errors == [] <==> value.fields.Keys <= schema.properties.Keys
    ensures Reports(reg, value, schema, seen, path, errors)
  {
    var pending := value.fields.Keys;
    while pending != {}
      invariant pending <= value.fields.Keys
      invariant value.fields.Keys - pending <= schema.properties.Keys
    {
      var key :| key in pending;
      if key !in schema.properties {
        ReportsKey(reg, value, schema, seen, path, key, NotAllowed);
        return [Issue(path + [Key(key)], NotAllowed)];
      }
      pending := pending - {key};
    }
    errors := [];
  }

  method ValidateAdditional(reg: Registry, value: Value, schema: Schema, path: seq<Step>, seen: set<string>)
      returns (errors: seq<Issue>)
    requires schema.ObjectSchema? && schema.additional.Shaped? && value.Object?
    ensures errors == [] <==>
            forall k | k in value.fields && k !in schema.properties :: Accepts(reg, value.fields[k], schema.additional.schema, seen)
    ensures Reports(reg, value, schema, seen, path, errors)
    decreases reg.table.Keys - seen, schema, 1
  {
    var fields := value.fields;
    var pending := fields.Keys;
    while pending != {}
      invariant pending <= fields.Keys
      invariant forall k | k in fields && k !in schema.properties && k !in pending ::
          Accepts(reg, fields[k], schema.additional.schema, seen)
    {
      var key :| key in pending;
      pending := pending - {key};
      if key !in schema.properties {
        errors := ValidateSchema(reg, fields[key], schema.additional.schema, path + [Key(key)], seen);
        if |errors| > 0 {
          ReportsBelow(reg, value, schema, seen, path, Key(key), fields[key], schema.additional.schema, errors);
          return;
        }
      }
    }
    errors := [];
  }

  // ---------------------------------------------------------------- what acceptance means

  /** Acceptance keyword by keyword. */
  lemma AcceptsMeans(reg: Registry, value: Value, schema: Schema, seen: set<string>)
    ensures Accepts(reg, value, schema, seen) <==>
            match schema
            case NullSchema => value == Null
            case BooleanSchema => value.Bool?
            case StringSchema(minLength, enumeration, dateTime) =>
              && value.Text?
              && (minLength.Some? ==> |value.s| >= minLength.value)
              && (enumeration.Some? ==> value.s in enumeration.value)
              && (dateTime ==> reg.parsesAsDate(value.s))
            case IntegerSchema(minimum) =>
              && value.Num? && value.n.Finite? && value.n.r == value.n.r.Floor as real
              && (minimum.Some? ==> value.n.r >= minimum.value)
            case NumberSchema(minimum) =>
              && value.Num? && value.n.Finite?
              && (minimum.Some? ==> value.n.r >= minimum.value)
            case ArraySchema(element) =>
              value.Array? && forall i | 0 <= i < |value.items| :: Accepts(reg, value.items[i], element, seen)
            case ObjectSchema(properties, required, additional) =>
              && value.Object?
              && (forall k | k in required :: k in value.fields)
              && (additional == Stated(false) ==> forall k | k in value.fields :: k in properties)
              && (forall k | k in properties && k in value.fields :: Accepts(reg, value.fields[k], properties[k], seen))
              && (additional.Shaped? ==>
                    forall k | k in value.fields && k !in properties :: Accepts(reg, value.fields[k], additional.schema, seen))
            case AnyOf(options) => exists i | 0 <= i < |options| :: Accepts(reg, value, options[i], seen)
            case Ref(name) => name in seen || (name in reg.table && Accepts(reg, value, reg.table[name], seen + {name}))
  {
  }

  /** A value that has a fault anywhere is rejected. */
  lemma {:induction false} BlamedIsRejected(
      reg: Registry, value: Value, schema: Schema, seen: set<string>, steps: seq<Step>, fault: Fault)
    requires Blames(reg, value, schema, seen, steps, fault)
    ensures !Accepts(reg, value, schema, seen)
    decreases reg.table.Keys - seen, schema
  {
    match schema
    case Ref(name) =>
      if name in reg.table {
        BlamedIsRejected(reg, value, reg.table[name], seen + {name}, steps, fault);
      }
    case ArraySchema(element) =>
      if steps != [] {
        BlamedIsRejected(reg, value.items[steps[0].index], element, seen, steps[1..], fault);
      }
    case ObjectSchema(properties, required, additional) =>
      if steps != [] && steps[0].key in value.fields {
        var k := steps[0].key;
        if k in properties {
          BlamedIsRejected(reg, value.fields[k], properties[k], seen, steps[1..], fault);
        } else if additional.Shaped? {
          BlamedIsRejected(reg, value.fields[k], additional.schema, seen, steps[1..], fault);
        }
      }
    case _ =>
  }

  lemma {:induction false} RejectedIsBlamed(reg: Registry, value: Value, schema: Schema, seen: set<string>)
      returns (steps: seq<Step>, fault: Fault)
    requires !Accepts(reg, value, schema, seen)
    ensures Blames(reg, value, schema, seen, steps, fault)
    decreases reg.table.Keys - seen, schema, 1
  {
    steps := [];
    match schema
    case Ref(name) =>
      if name in reg.table {
        steps, fault := RejectedIsBlamed(reg, value, reg.table[name], seen + {name});
      } else {
        fault := UnresolvedRef(name);
      }
    case AnyOf(_) =>
      fault := NoOptionMatches;
    case ArraySchema(element) =>
      if value.Array? {
        var i :| 0 <= i < |value.items| && !Accepts(reg, value.items[i], element, seen);
        var below;
        below, fault := RejectedIsBlamed(reg, value.items[i], element, seen);
        steps := [Index(i)] + below;
        assert steps[1..] == below;
      } else {
        fault := ExpectedArray;
      }
    case ObjectSchema(_, _, _) =>
      steps, fault := RejectedObjectIsBlamed(reg, value, schema, seen);
    case _ =>
      fault := LeafFault(reg, value, schema).value;
  }

  lemma {:induction false} RejectedObjectIsBlamed(reg: Registry, value: Value, schema: Schema, seen: set<string>)
      returns (steps: seq<Step>, fault: Fault)
    requires schema.ObjectSchema? && !Accepts(reg, value, schema, seen)
    ensures Blames(reg, value, schema, seen, steps, fault)
    decreases reg.table.Keys - seen, schema, 0
  {
    var ObjectSchema(properties, required, additional) := schema;
    if !value.Object? {
      return [], ExpectedObject;
    }
    if k :| k in required && k !in value.fields {
      return [Key(k)], Required;
    }
    if k :| k in properties && k in value.fields && !Accepts(reg, value.fields[k], properties[k], seen) {
      var below;
      below, fault := RejectedIsBlamed(reg, value.fields[k], properties[k], seen);
      steps := [Key(k)] + below;
      assert steps[1..] == below;
      return;
    }
    if k :| additional == Stated(false) && k in value.fields && k !in properties {
      return [Key(k)], NotAllowed;
    }
    var k :| additional.Shaped? && k in value.fields && k !in properties
             && !Accepts(reg, value.fields[k], additional.schema, seen);
    var below;
    below, fault := RejectedIsBlamed(reg, value.fields[k], additional.schema, seen);
    steps := [Key(k)] + below;
    assert steps[1..] == below;
  }

  /** A value is accepted if and only if it has no fault at any place. */
  lemma AcceptsIffBlameless(reg: Registry, value: Value, schema: Schema, seen: set<string>)
    ensures Accepts(reg, value, schema, seen) <==> forall steps, fault :: !Blames(reg, value, schema, seen, steps, fault)
  {
    if Accepts(reg, value, schema, seen) {
      forall steps, fault ensures !Blames(reg, value, schema, seen, steps, fault) {
        if Blames(reg, value, schema, seen, steps, fault) {
          BlamedIsRejected(reg, value, schema, seen, steps, fault);
        }
      }
    } else {
      var steps, fault := RejectedIsBlamed(reg, value, schema, seen);
      assert Blames(reg, value, schema, seen, steps, fault);
    }
  }

  /** What a fault of the value itself says about the value, and that the bound in it is the one of the schema. */
  lemma BlamesMeans(reg: Registry, value: Value, schema: Schema, seen: set<string>, fault: Fault)
    requires Blames(reg, value, schema, seen, [], fault) && !schema.Ref?
    ensures match fault
            case ExpectedNull => schema == NullSchema && value != Null
            case ExpectedBoolean => schema == BooleanSchema && !value.Bool?
            case ExpectedString => schema.StringSchema? && !value.Text?
            case TooShort(n) => schema.StringSchema? && value.Text? && schema.minLength == Some(n) && |value.s| < n
            case NotListed(e) => schema.StringSchema? && value.Text? && schema.enumeration == Some(e) && value.s !in e
            case NotADate => schema.StringSchema? && value.Text? && schema.dateTime && !reg.parsesAsDate(value.s)
            case ExpectedInteger =>
              schema.IntegerSchema? && !(value.Num? && value.n.Finite? && value.n.r == value.n.r.Floor as real)
            case ExpectedNumber => schema.NumberSchema? && !(value.Num? && value.n.Finite?)
            case BelowMinimum(m) =>
              && (schema.IntegerSchema? || schema.NumberSchema?) && value.Num? && value.n.Finite?
              && schema.minimum == Some(m) && value.n.r < m
            case ExpectedArray => schema.ArraySchema? && !value.Array?
            case ExpectedObject => schema.ObjectSchema? && !value.Object?
            case NoOptionMatches =>
              schema.AnyOf? && forall i | 0 <= i < |schema.options| :: !Accepts(reg, value, schema.options[i], seen)
            case _ => false
  {
  }

  /** What a fault of a key says. */
  lemma BlamesKeyMeans(reg: Registry, value: Value, schema: Schema, seen: set<string>, key: string, fault: Fault)
    requires Blames(reg, value, schema, seen, [Key(key)], fault) && schema.ObjectSchema?
    ensures value.Object?
    ensures key !in value.fields ==> fault == Required && key in schema.required
    ensures key in value.fields && key !in schema.properties && !schema.additional.Shaped? ==>
              fault == NotAllowed && schema.additional == Stated(false)
  {
  }

  // ---------------------------------------------------------------- seen references

  /** Having seen more components can only make the check more lenient. */
  lemma {:induction false} SeenMonotone(reg: Registry, value: Value, schema: Schema, seen: set<string>, more: set<string>)
    requires seen <= more
    requires Accepts(reg, value, schema, seen)
    ensures Accepts(reg, value, schema, more)
    decreases reg.table.Keys - seen, schema
  {
    match schema
    case Ref(name) =>
      if name !in more {
        SeenMonotone(reg, value, reg.table[name], seen + {name}, more + {name});
      }
    case AnyOf(options) =>
      var i :| 0 <= i < |options| && Accepts(reg, value, options[i], seen);
      SeenMonotone(reg, value, options[i], seen, more);
    case ArraySchema(element) =>
      forall i | 0 <= i < |value.items| ensures Accepts(reg, value.items[i], element, more) {
        SeenMonotone(reg, value.items[i], element, seen, more);
      }
    case ObjectSchema(properties, _, additional) =>
      forall k | k in properties && k in value.fields
        ensures Accepts(reg, value.fields[k], properties[k], more)
      {
        SeenMonotone(reg, value.fields[k], properties[k], seen, more);
      }
      if additional.Shaped? {
        forall k | k in value.fields && k !in properties
          ensures Accepts(reg, value.fields[k], additional.schema, more)
        {
          SeenMonotone(reg, value.fields[k], additional.schema, seen, more);
        }
      }
    case _ =>
  }

  // ---------------------------------------------------------------- full unfolding

  /** The reference semantics: every reference is followed, up to `fuel` of them on one path, and
      `cut` is the verdict once the fuel is spent. Fuel may never run out on a value, which makes
      the verdict independent of `cut`. */
  predicate Unfolds(reg: Registry, value: Value, schema: Schema, fuel: nat, cut: bool)
    decreases fuel, schema
  {
    match schema
    case Ref(name) =>
      name in reg.table && if fuel == 0 then cut else Unfolds(reg, value, reg.table[name], fuel - 1, cut)
    case AnyOf(options) => exists i | 0 <= i < |options| :: Unfolds(reg, value, options[i], fuel, cut)
    case ArraySchema(element) =>
      value.Array? && forall i | 0 <= i < |value.items| :: Unfolds(reg, value.items[i], element, fuel, cut)
    case ObjectSchema(properties, required, additional) =>
      && HasShape(value, required, properties, additional)
      && (forall k | k in properties && k in value.fields :: Unfolds(reg, value.fields[k], properties[k], fuel, cut))
      && (additional.Shaped? ==>
            forall k | k in value.fields && k !in properties :: Unfolds(reg, value.fields[k], additional.schema, fuel, cut))
    case _ => AcceptsLeaf(reg.parsesAsDate, value, schema)
  }

  lemma FewerUnseen(table: Table, seen: set<string>, name: string)
    requires name in table && name !in seen
    ensures |table.Keys - (seen + {name})| == |table.Keys - seen| - 1
  {
    assert name in table.Keys - seen;
    assert table.Keys - (seen + {name}) == table.Keys - seen - {name};
  }

  /** On any table, cyclic ones included, the validator never rejects what full unfolding accepts,
      even under the reading that accepts whatever is still open when the fuel is spent. */
  lemma {:induction false} NeverRejectsUnfolded(
      reg: Registry, value: Value, schema: Schema, seen: set<string>, fuel: nat, cut: bool)
    requires |reg.table.Keys - seen| <= fuel
    requires Unfolds(reg, value, schema, fuel, cut)
    ensures Accepts(reg, value, schema, seen)
    decreases fuel, schema, 1
  {
    match schema
    case Ref(name) =>
      if name !in seen {
        FewerUnseen(reg.table, seen, name);
        NeverRejectsUnfolded(reg, value, reg.table[name], seen + {name}, fuel - 1, cut);
      }
    case AnyOf(_) =>
      NeverRejectsUnfoldedOption(reg, value, schema, seen, fuel, cut);
    case ArraySchema(_) =>
      NeverRejectsUnfoldedItems(reg, value, schema, seen, fuel, cut);
    case ObjectSchema(_, _, _) =>
      NeverRejectsUnfoldedObject(reg, value, schema, seen, fuel, cut);
    case _ =>
  }

  lemma {:induction false} NeverRejectsUnfoldedOption(
      reg: Registry, value: Value, schema: Schema, seen: set<string>, fuel: nat, cut: bool)
    requires schema.AnyOf?
    requires |reg.table.Keys - seen| <= fuel
    requires Unfolds(reg, value, schema, fuel, cut)
    ensures Accepts(reg, value, schema, seen)
    decreases fuel, schema, 0
  {
    var i :| 0 <= i < |schema.options| && Unfolds(reg, value, schema.options[i], fuel, cut);
    NeverRejectsUnfolded(reg, value, schema.options[i], seen, fuel, cut);
  }

  lemma {:induction false} NeverRejectsUnfoldedItems(
      reg: Registry, value: Value, schema: Schema, seen: set<string>, fuel: nat, cut: bool)
    requires schema.ArraySchema?
    requires |reg.table.Keys - seen| <= fuel
    requires Unfolds(reg, value, schema, fuel, cut)
    ensures Accepts(reg, value, schema, seen)
    decreases fuel, schema, 0
  {
    forall i | 0 <= i < |value.items| ensures Accepts(reg, value.items[i], schema.element, seen) {
      NeverRejectsUnfolded(reg, value.items[i], schema.element, seen, fuel, cut);
    }
  }

  lemma {:induction false} NeverRejectsUnfoldedObject(
      reg: Registry, value: Value, schema: Schema, seen: set<string>, fuel: nat, cut: bool)
    requires schema.ObjectSchema?
    requires |reg.table.Keys - seen| <= fuel
    requires Unfolds(reg, value, schema, fuel, cut)
    ensures Accepts(reg, value, schema, seen)
    decreases fuel, schema, 0
  {
    var ObjectSchema(properties, _, additional) := schema;
    forall k | k in properties && k in value.fields
      ensures Accepts(reg, value.fields[k], properties[k], seen)
    {
      NeverRejectsUnfolded(reg, value.fields[k], properties[k], seen, fuel, cut);
    }
    if additional.Shaped? {
      forall k | k in value.fields && k !in properties
        ensures Accepts(reg, value.fields[k], additional.schema, seen)
      {
        NeverRejectsUnfolded(reg, value.fields[k], additional.schema, seen, fuel, cut);
      }
    }
  }

  /** What unfolds with some fuel left unfolds with more. */
  lemma {:induction false} MoreFuel(reg: Registry, value: Value, schema: Schema, fuel: nat, more: nat)
    requires fuel <= more && Unfolds(reg, value, schema, fuel, false)
    ensures Unfolds(reg, value, schema, more, false)
    decreases fuel, schema, 1
  {
    match schema
    case Ref(name) =>
      MoreFuel(reg, value, reg.table[name], fuel - 1, more - 1);
    case AnyOf(options) =>
      var i :| 0 <= i < |options| && Unfolds(reg, value, options[i], fuel, false);
      MoreFuel(reg, value, options[i], fuel, more);
    case ArraySchema(element) =>
      forall i | 0 <= i < |value.items| ensures Unfolds(reg, value.items[i], element, more, false) {
        MoreFuel(reg, value.items[i], element, fuel, more);
      }
    case ObjectSchema(_, _, _) =>
      MoreFuelObject(reg, value, schema, fuel, more);
    case _ =>
  }

  lemma {:induction false} MoreFuelObject(reg: Registry, value: Value, schema: Schema, fuel: nat, more: nat)
    requires schema.ObjectSchema?
    requires fuel <= more && Unfolds(reg, value, schema, fuel, false)
    ensures Unfolds(reg, value, schema, more, false)
    decreases fuel, schema, 0
  {
    var ObjectSchema(properties, _, additional) := schema;
    forall k | k in properties && k in value.fields ensures Unfolds(reg, value.fields[k], properties[k], more, false) {
      MoreFuel(reg, value.fields[k], properties[k], fuel, more);
    }
    if additional.Shaped? {
      forall k | k in value.fields && k !in properties
        ensures Unfolds(reg, value.fields[k], additional.schema, more, false) {
        MoreFuel(reg, value.fields[k], additional.schema, fuel, more);
      }
    }
  }

  /** A value that unfolding accepts for good, without running out of fuel, is accepted: for every fuel, table
      and set of seen references. */
  lemma NeverRejectsAccepted(reg: Registry, value: Value, schema: Schema, seen: set<string>, fuel: nat)
    requires Unfolds(reg, value, schema, fuel, false)
    ensures Accepts(reg, value, schema, seen)
  {
    var more := fuel + |reg.table.Keys - seen|;
    MoreFuel(reg, value, schema, fuel, more);
    NeverRejectsUnfolded(reg, value, schema, seen, more, false);
  }

  // ---------------------------------------------------------------- the reference graph

  /** The components that `schema` refers to, at any depth. */
  ghost function Mentioned(schema: Schema): set<string> {
    match schema
    case Ref(n) => {n}
    case AnyOf(options) => set i, m | 0 <= i < |options| && m in Mentioned(options[i]) :: m
    case ArraySchema(element) => Mentioned(element)
    case ObjectSchema(properties, _, additional) =>
      (set k, m | k in properties && m in Mentioned(properties[k]) :: m)
      + (if additional.Shaped? then Mentioned(additional.schema) else {})
    case _ => {}
  }

  ghost predicate Edge(table: Table, a: string, b: string) {
    a in table && b in Mentioned(table[a])
  }

  ghost predicate IsWalk(table: Table, walk: seq<string>) {
    |walk| >= 2 && forall i | 0 <= i < |walk| - 1 :: Edge(table, walk[i], walk[i + 1])
  }

  ghost predicate Reaches(table: Table, a: string, b: string) {
    exists walk :: IsWalk(table, walk) && walk[0] == a && walk[|walk| - 1] == b
  }

  ghost predicate Acyclic(table: Table) {
    forall a :: !Reaches(table, a, a)
  }

  lemma EdgeReaches(table: Table, a: string, b: string)
    requires Edge(table, a, b)
    ensures Reaches(table, a, b)
  {
    assert IsWalk(table, [a, b]);
  }

  lemma ReachesFurther(table: Table, a: string, b: string, c: string)
    requires Reaches(table, a, b) && Edge(table, b, c)
    ensures Reaches(table, a, c)
  {
    var walk :| IsWalk(table, walk) && walk[0] == a && walk[|walk| - 1] == b;
    assert IsWalk(table, walk + [c]);
  }

  /** Every seen component leads to everything the current schema mentions. */
  ghost predicate LedBy(table: Table, seen: set<string>, schema: Schema) {
    forall a, m | a in seen && m in Mentioned(schema) :: Reaches(table, a, m)
  }

  lemma LedByTarget(table: Table, seen: set<string>, name: string)
    requires name in table
    requires LedBy(table, seen, Ref(name))
    ensures LedBy(table, seen + {name}, table[name])
  {
    forall a, m | a in seen + {name} && m in Mentioned(table[name]) ensures Reaches(table, a, m) {
      if a in seen {
        assert name in Mentioned(Ref(name));
        ReachesFurther(table, a, name, m);
      } else {
        EdgeReaches(table, name, m);
      }
    }
  }

  ghost predicate IsPart(part: Schema, schema: Schema) {
    match schema
    case AnyOf(options) => part in options
    case ArraySchema(element) => part == element
    case ObjectSchema(properties, _, additional) =>
      part in properties.Values || additional == Shaped(part)
    case _ => false
  }

  lemma LedByPart(table: Table, seen: set<string>, schema: Schema, part: Schema)
    requires IsPart(part, schema)
    requires LedBy(table, seen, schema)
    ensures LedBy(table, seen, part)
  {
    assert Mentioned(part) <= Mentioned(schema) by {
      match schema
      case AnyOf(options) =>
        var i :| 0 <= i < |options| && options[i] == part;
      case ObjectSchema(properties, _, additional) =>
        if part in properties.Values {
          var k :| k in properties && properties[k] == part;
        }
      case _ =>
    }
  }

  lemma UnseenTarget(table: Table, seen: set<string>, name: string)
    requires Acyclic(table)
    requires LedBy(table, seen, Ref(name))
    ensures name !in seen
  {
    assert name in Mentioned(Ref(name));
  }

  lemma {:induction false} UnfoldingAgreesFrom(
      reg: Registry, value: Value, schema: Schema, seen: set<string>, fuel: nat, cut: bool)
    requires Acyclic(reg.table)
    requires LedBy(reg.table, seen, schema)
    requires |reg.table.Keys - seen| <= fuel
    requires Accepts(reg, value, schema, seen)
    ensures Unfolds(reg, value, schema, fuel, cut)
    decreases fuel, schema, 1
  {
    match schema
    case Ref(name) =>
      UnseenTarget(reg.table, seen, name);
      LedByTarget(reg.table, seen, name);
      FewerUnseen(reg.table, seen, name);
      UnfoldingAgreesFrom(reg, value, reg.table[name], seen + {name}, fuel - 1, cut);
    case AnyOf(options) =>
      var i :| 0 <= i < |options| && Accepts(reg, value, options[i], seen);
      LedByPart(reg.table, seen, schema, options[i]);
      UnfoldingAgreesFrom(reg, value, options[i], seen, fuel, cut);
    case ArraySchema(element) =>
      LedByPart(reg.table, seen, schema, element);
      forall i | 0 <= i < |value.items| ensures Unfolds(reg, value.items[i], element, fuel, cut) {
        UnfoldingAgreesFrom(reg, value.items[i], element, seen, fuel, cut);
      }
    case ObjectSchema(_, _, _) =>
      UnfoldingAgreesOnObject(reg, value, schema, seen, fuel, cut);
    case _ =>
  }

  lemma {:induction false} UnfoldingAgreesOnObject(
      reg: Registry, value: Value, schema: Schema, seen: set<string>, fuel: nat, cut: bool)
    requires schema.ObjectSchema?
    requires Acyclic(reg.table)
    requires LedBy(reg.table, seen, schema)
    requires |reg.table.Keys - seen| <= fuel
    requires Accepts(reg, value, schema, seen)
    ensures Unfolds(reg, value, schema, fuel, cut)
    decreases fuel, schema, 0
  {
    var ObjectSchema(properties, _, additional) := schema;
    forall k | k in properties && k in value.fields
      ensures Unfolds(reg, value.fields[k], properties[k], fuel, cut)
    {
      LedByPart(reg.table, seen, schema, properties[k]);
      UnfoldingAgreesFrom(reg, value.fields[k], properties[k], seen, fuel, cut);
    }
    if additional.Shaped? {
      LedByPart(reg.table, seen, schema, additional.schema);
      forall k | k in value.fields && k !in properties
        ensures Unfolds(reg, value.fields[k], additional.schema, fuel, cut)
      {
        UnfoldingAgreesFrom(reg, value.fields[k], additional.schema, seen, fuel, cut);
      }
    }
  }

  /** On an acyclic reference graph the validator decides exactly what full unfolding decides. */
  lemma UnfoldingAgrees(reg: Registry, value: Value, schema: Schema, fuel: nat, cut: bool)
    requires Acyclic(reg.table)
    requires |reg.table| <= fuel
    ensures Accepts(reg, value, schema, {}) <==> Unfolds(reg, value, schema, fuel, cut)
  {
    assert reg.table.Keys - {} == reg.table.Keys;
    assert |reg.table.Keys| == |reg.table|;
    if Accepts(reg, value, schema, {}) {
      UnfoldingAgreesFrom(reg, value, schema, {}, fuel, cut);
    }
    if Unfolds(reg, value, schema, fuel, cut) {
      NeverRejectsUnfolded(reg, value, schema, {}, fuel, cut);
    }
  }

  /** A list node whose second link holds a boolean: the cyclic reference is not followed twice,
      so the validator accepts what full unfolding rejects at every depth from three on. */
  lemma CyclicTableAcceptsMore(parsesAsDate: string -> bool, fuel: nat, cut: bool)
    requires fuel >= 3
    ensures var node := ObjectSchema(map["next" := Ref("Node")], {}, Unstated);
            var reg := Registry(map["Node" := node], parsesAsDate);
            var value := Object(map["next" := Object(map["next" := Bool(true)])]);
            && !Acyclic(reg.table)
            && Accepts(reg, value, Ref("Node"), {})
            && !Unfolds(reg, value, Ref("Node"), fuel, cut)
  {
    var node := ObjectSchema(map["next" := Ref("Node")], {}, Unstated);
    var reg := Registry(map["Node" := node], parsesAsDate);
    var inner := Object(map["next" := Bool(true)]);
    var value := Object(map["next" := inner]);
    assert "Node" in Mentioned(node.properties["next"]);
    EdgeReaches(reg.table, "Node", "Node");

    assert Accepts(reg, inner, Ref("Node"), {"Node"});
    assert Accepts(reg, value, node, {"Node"});
    assert {} + {"Node"} == {"Node"};

    assert !Unfolds(reg, Bool(true), node, fuel - 3, cut);
    assert !Unfolds(reg, inner.fields["next"], node.properties["next"], fuel - 2, cut);
    assert !Unfolds(reg, inner, node, fuel - 2, cut);
    assert !Unfolds(reg, value.fields["next"], node.properties["next"], fuel - 1, cut);
    assert !Unfolds(reg, value, node, fuel - 1, cut);
  }

  // ---------------------------------------------------------------- acyclicity is the exact condition

  ghost function RefsTo(names: set<string>): (options: seq<Schema>)
    ensures forall m :: Ref(m) in options <==> m in names
    ensures forall option | option in options :: option.Ref?
  {
    if names == {} then [] else
      var m :| m in names;
      [Ref(m)] + RefsTo(names - {m})
  }

  /** The table with the same reference graph in which a component only offers its references. */
  ghost function OnlyRefs(table: Table): Table {
    map name | name in table :: AnyOf(RefsTo(Mentioned(table[name])))
  }

  lemma OnlyRefsKeepsGraph(table: Table, a: string, b: string)
    ensures Edge(OnlyRefs(table), a, b) <==> Edge(table, a, b)
  {
    if a in table {
      var options := RefsTo(Mentioned(table[a]));
      if b in Mentioned(table[a]) {
        var i :| 0 <= i < |options| && options[i] == Ref(b);
        assert b in Mentioned(options[i]);
      }
      if b in Mentioned(AnyOf(options)) {
        var i :| 0 <= i < |options| && b in Mentioned(options[i]);
        assert options[i] in options && options[i] == Ref(b);
      }
    }
  }

  lemma {:induction false} WalkIntoSeenAccepts(table: Table, parsesAsDate: string -> bool, value: Value, walk: seq<string>, seen: set<string>)
    requires |walk| >= 1 && walk[|walk| - 1] in seen
    requires forall i | 0 <= i < |walk| - 1 :: Edge(table, walk[i], walk[i + 1])
    ensures Accepts(Registry(OnlyRefs(table), parsesAsDate), value, Ref(walk[0]), seen)
    decreases |walk|
  {
    if walk[0] !in seen {
      var rest := walk[1..];
      assert Edge(table, walk[0], walk[1]);
      forall i | 0 <= i < |rest| - 1 ensures Edge(table, rest[i], rest[i + 1]) {
        assert Edge(table, walk[i + 1], walk[i + 2]);
      }
      WalkIntoSeenAccepts(table, parsesAsDate, value, rest, seen + {walk[0]});
      var options := RefsTo(Mentioned(table[walk[0]]));
      assert Ref(walk[1]) in options;
    }
  }

  lemma {:induction false} OnlyRefsNeverUnfolds(table: Table, parsesAsDate: string -> bool, value: Value, name: string, fuel: nat)
    ensures !Unfolds(Registry(OnlyRefs(table), parsesAsDate), value, Ref(name), fuel, false)
    decreases fuel, 0
  {
    if name in table && fuel > 0 {
      OptionsNeverUnfold(table, parsesAsDate, value, RefsTo(Mentioned(table[name])), fuel - 1);
    }
  }

  lemma {:induction false} OptionsNeverUnfold(table: Table, parsesAsDate: string -> bool, value: Value, options: seq<Schema>, fuel: nat)
    requires forall option | option in options :: option.Ref?
    ensures !Unfolds(Registry(OnlyRefs(table), parsesAsDate), value, AnyOf(options), fuel, false)
    decreases fuel, 1
  {
    forall i | 0 <= i < |options| ensures !Unfolds(Registry(OnlyRefs(table), parsesAsDate), value, options[i], fuel, false) {
      assert options[i] in options;
      OnlyRefsNeverUnfolds(table, parsesAsDate, value, options[i].name, fuel);
    }
  }

  /** `table` has the reference graph of `original`. */
  ghost predicate SameGraph(original: Table, table: Table) {
    table.Keys == original.Keys && forall a, b :: Edge(table, a, b) <==> Edge(original, a, b)
  }

  /** Validation and full unfolding give the same verdict on everything, whatever the fuel. */
  ghost predicate AgreesEverywhere(reg: Registry) {
    forall value, schema, fuel: nat, cut | |reg.table| <= fuel ::
      Accepts(reg, value, schema, {}) <==> Unfolds(reg, value, schema, fuel, cut)
  }

  lemma SameGraphReaches(original: Table, table: Table, a: string, b: string)
    requires SameGraph(original, table)
    requires Reaches(table, a, b)
    ensures Reaches(original, a, b)
  {
    var walk :| IsWalk(table, walk) && walk[0] == a && walk[|walk| - 1] == b;
    assert IsWalk(original, walk);
  }

  /** No condition on the reference graph weaker than acyclicity would do: the tables with a given
      graph all agree with full unfolding if and only if the graph has no cycle. */
  lemma AgreementIffAcyclic(original: Table, parsesAsDate: string -> bool)
    ensures Acyclic(original) <==>
            forall table | SameGraph(original, table) :: AgreesEverywhere(Registry(table, parsesAsDate))
  {
    if Acyclic(original) {
      forall table | SameGraph(original, table) ensures AgreesEverywhere(Registry(table, parsesAsDate)) {
        AcyclicAgreesEverywhere(original, table, parsesAsDate);
      }
    } else {
      var a :| Reaches(original, a, a);
      CycleDisagrees(original, parsesAsDate, a);
    }
  }

  lemma AcyclicAgreesEverywhere(original: Table, table: Table, parsesAsDate: string -> bool)
    requires Acyclic(original) && SameGraph(original, table)
    ensures AgreesEverywhere(Registry(table, parsesAsDate))
  {
    forall a ensures !Reaches(table, a, a) {
      if Reaches(table, a, a) {
        SameGraphReaches(original, table, a, a);
      }
    }
    forall value, schema, fuel: nat, cut | |table| <= fuel
      ensures Accepts(Registry(table, parsesAsDate), value, schema, {}) <==>
              Unfolds(Registry(table, parsesAsDate), value, schema, fuel, cut)
    {
      UnfoldingAgrees(Registry(table, parsesAsDate), value, schema, fuel, cut);
    }
  }

  /** A walk back to where it started makes the validator accept anything there. */
  lemma CycleAccepts(table: Table, parsesAsDate: string -> bool, value: Value, a: string)
    requires Reaches(table, a, a)
    ensures a in table
    ensures Accepts(Registry(OnlyRefs(table), parsesAsDate), value, Ref(a), {})
  {
    var walk :| IsWalk(table, walk) && walk[0] == a && walk[|walk| - 1] == a;
    assert Edge(table, walk[0], walk[1]);
    var rest := walk[1..];
    forall i | 0 <= i < |rest| - 1 ensures Edge(table, rest[i], rest[i + 1]) {
      assert Edge(table, walk[i + 1], walk[i + 2]);
    }
    WalkIntoSeenAccepts(table, parsesAsDate, value, rest, {} + {a});
    assert Ref(walk[1]) in RefsTo(Mentioned(table[a]));
  }

  lemma CycleDisagrees(original: Table, parsesAsDate: string -> bool, a: string)
    requires Reaches(original, a, a)
    ensures SameGraph(original, OnlyRefs(original))
    ensures !AgreesEverywhere(Registry(OnlyRefs(original), parsesAsDate))
  {
    var table := OnlyRefs(original);
    forall x, y ensures Edge(table, x, y) <==> Edge(original, x, y) {
      OnlyRefsKeepsGraph(original, x, y);
    }
    CycleAccepts(original, parsesAsDate, Null, a);
    OnlyRefsNeverUnfolds(original, parsesAsDate, Null, a, |table|);
  }
}
