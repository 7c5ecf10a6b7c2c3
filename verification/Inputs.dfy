/** The parsing of a task's inputs against an agent's contract, from `pdk/src/agent.ts`. */
module Inputs {
  import opened Options
  import opened Values

  datatype InputType = String | Markdown | File | Url | Integer | Number | Boolean | Object | Array | Json | Enum

  /** `default` is `Undefined` for a field without one. */
  datatype Field = Field(kind: InputType, required: bool, default: Value, choices: Option<seq<Value>>)

  datatype Input = Input(key: string, field: Field)

  datatype Problem =
    | IsRequired | MustBeString | MustBeInteger | MustBeNumber | MustBeBoolean | MustBeObject | MustBeArray | MustBeChoice

  datatype Issue = Issue(path: string, problem: Problem)

  datatype Parsed = Inputs(values: map<string, Value>) | Failed(issues: seq<Issue>)

  /** `values[key]` */
  function Read(values: map<string, Value>, key: string): Value {
    Get(values, key).GetOr(Undefined)
  }

  /** `choices.includes(value)`; the choices are texts, numbers and truth values. */
  predicate Includes(choices: seq<Value>, value: Value) {
    (value.Text? || value.Num? || value.Bool?) && value in choices
  }

  function ValidateInputValue(field: Field, value: Value): Option<Problem> {
    if field.kind in {String, Markdown, File, Url} && !value.Text? then Some(MustBeString)
    else if field.kind == Integer && !value.IsIntegerNumber() then Some(MustBeInteger)
    else if field.kind == Number && !value.IsFiniteNumber() then Some(MustBeNumber)
    else if field.kind == Boolean && !value.Bool? then Some(MustBeBoolean)
    else if field.kind == InputType.Object && !value.Object? then Some(MustBeObject)
    else if field.kind == InputType.Array && !value.Array? then Some(MustBeArray)
    else if field.kind == Enum && field.choices.Some? && !Includes(field.choices.value, value) then Some(MustBeChoice)
    else None
  }

  predicate IsMissing(value: Value) {
    value.Undefined? || value.Null?
  }

  /** What is wrong with what is given for a field; the default is used without a check. */
  function ProblemOf(field: Field, value: Value): Option<Problem> {
    if !IsMissing(value) then ValidateInputValue(field, value)
    else if value.Undefined? && !field.default.Undefined? then None
    else if field.required then Some(IsRequired)
    else None
  }

  /** What the agent gets for a field; `Undefined` if nothing. */
  function Given(field: Field, value: Value): Value {
    if value.Undefined? then field.default
    else if value.Null? || ValidateInputValue(field, value).Some? then Undefined
    else value
  }

  /** The offending fields among the first `n`, in the order of the contract. */
  function IssuesUpTo(contract: seq<Input>, values: map<string, Value>, n: nat): seq<Issue>
    requires n <= |contract|
  {
    if n == 0 then []
    else
      var input := contract[n - 1];
      var problem := ProblemOf(input.field, Read(values, input.key));
      IssuesUpTo(contract, values, n - 1) + if problem.Some? then [Issue(input.key, problem.value)] else []
  }

  function ResultUpTo(contract: seq<Input>, values: map<string, Value>, n: nat): map<string, Value>
    requires n <= |contract|
  {
    if n == 0 then map[]
    else
      var input := contract[n - 1];
      var given := Given(input.field, Read(values, input.key));
      var front := ResultUpTo(contract, values, n - 1);
      if given.Undefined? then front else front[input.key := given]
  }

  function RecordOf(inputs: Value): map<string, Value> {
    if inputs.Object? then inputs.fields else map[]
  }

  function Parse(contract: seq<Input>, inputs: Value): Parsed {
    var issues := IssuesUpTo(contract, RecordOf(inputs), |contract|);
    if issues != [] then Failed(issues) else Inputs(ResultUpTo(contract, RecordOf(inputs), |contract|))
  }

  method ParseAgentInputs(contract: seq<Input>, inputs: Value) returns (r: Parsed)
    ensures r == Parse(contract, inputs)
  {
    var values := if inputs.Object? then inputs.fields else map[];
    var result: map<string, Value> := map[];
    var issues: seq<Issue> := [];
    for n := 0 to |contract|
      invariant issues == IssuesUpTo(contract, values, n)
      invariant result == ResultUpTo(contract, values, n)
    {
      var key, field := contract[n].key, contract[n].field;
      var value := Read(values, key);
      if value.Undefined? || value.Null? {
        if value.Undefined? && !field.default.Undefined? {
          result := result[key := field.default];
        } else if field.required {
          issues := issues + [Issue(key, IsRequired)];
        }
      } else {
        var issue := ValidateInputValue(field, value);
        if issue.Some? {
          issues := issues + [Issue(key, issue.value)];
        } else {
          result := result[key := value];
        }
      }
    }
    return if |issues| > 0 then Failed(issues) else Inputs(result);
  }

  // ---------------------------------------------------------------- when parsing fails

  predicate IsOffending(contract: seq<Input>, values: map<string, Value>, i: nat)
    requires i < |contract|
  {
    ProblemOf(contract[i].field, Read(values, contract[i].key)).Some?
  }

  /** The contract's keys are those of a record: no two are the same. */
  ghost predicate IsContract(contract: seq<Input>) {
    forall i, j | 0 <= i < j < |contract| :: contract[i].key != contract[j].key
  }

  function IssueAt(contract: seq<Input>, values: map<string, Value>, i: nat): Issue
    requires i < |contract| && IsOffending(contract, values, i)
  {
    Issue(contract[i].key, ProblemOf(contract[i].field, Read(values, contract[i].key)).value)
  }

  /** The numbers below `n` that satisfy `bad`, in order and each once. */
  ghost predicate AreMarked(bad: nat -> bool, n: nat, numbers: seq<nat>) {
    && (forall k | 0 <= k < |numbers| :: numbers[k] < n && bad(numbers[k]))
    && (forall k, l | 0 <= k < l < |numbers| :: numbers[k] < numbers[l])
    && forall i: nat | i < n && bad(i) :: i in numbers
  }

  ghost function Marked(bad: nat -> bool, n: nat): seq<nat> {
    if n == 0 then [] else Marked(bad, n - 1) + if bad(n - 1) then [n - 1] else []
  }

  lemma OneMoreMarked(bad: nat -> bool, n: nat, front: seq<nat>, next: seq<nat>)
    requires AreMarked(bad, n, front)
    requires next == if bad(n) then front + [n] else front
    ensures AreMarked(bad, n + 1, next)
  {
    forall i: nat | i < n + 1 && bad(i) ensures i in next {
      if i == n {
        assert next[|front|] == n;
      } else {
        assert i in front;
      }
    }
  }

  lemma {:induction false} MarkedAre(bad: nat -> bool, n: nat)
    ensures AreMarked(bad, n, Marked(bad, n))
  {
    if n > 0 {
      var front := Marked(bad, n - 1);
      MarkedAre(bad, n - 1);
      OneMoreMarked(bad, n - 1, front, Marked(bad, n));
    }
  }

  ghost function OffendingIn(contract: seq<Input>, values: map<string, Value>): nat -> bool {
    (i: nat) => i < |contract| && IsOffending(contract, values, i)
  }

  lemma {:induction false} IssuesAt(contract: seq<Input>, values: map<string, Value>, n: nat, k: nat)
    requires n <= |contract|
    ensures var origins := Marked(OffendingIn(contract, values), n);
            && |IssuesUpTo(contract, values, n)| == |origins|
            && (k < |origins| ==>
                  && origins[k] < n && IsOffending(contract, values, origins[k])
                  && IssuesUpTo(contract, values, n)[k] == IssueAt(contract, values, origins[k]))
  {
    if n > 0 {
      IssuesAt(contract, values, n - 1, k);
    }
  }

  lemma {:induction false} NoIssues(contract: seq<Input>, values: map<string, Value>, n: nat)
    requires n <= |contract|
    ensures IssuesUpTo(contract, values, n) == [] <==> forall i: nat | i < n :: !IsOffending(contract, values, i)
  {
    if n > 0 {
      NoIssues(contract, values, n - 1);
      assert IssuesUpTo(contract, values, n) == [] <==>
             IssuesUpTo(contract, values, n - 1) == [] && !IsOffending(contract, values, n - 1);
    }
  }

  /** Parsing fails exactly if some field is offending. */
  lemma FailsIff(contract: seq<Input>, inputs: Value)
    ensures Parse(contract, inputs).Failed? <==> exists i: nat | i < |contract| :: IsOffending(contract, RecordOf(inputs), i)
  {
    NoIssues(contract, RecordOf(inputs), |contract|);
  }

  /** It then reports each offending field once, in the order of the contract. */
  lemma ReportsInOrder(contract: seq<Input>, inputs: Value, k: nat)
    requires Parse(contract, inputs).Failed?
    ensures var origins := Marked(OffendingIn(contract, RecordOf(inputs)), |contract|);
            && AreMarked(OffendingIn(contract, RecordOf(inputs)), |contract|, origins)
            && |Parse(contract, inputs).issues| == |origins|
            && (k < |origins| ==>
                  && origins[k] < |contract| && IsOffending(contract, RecordOf(inputs), origins[k])
                  && Parse(contract, inputs).issues[k] == IssueAt(contract, RecordOf(inputs), origins[k]))
  {
    MarkedAre(OffendingIn(contract, RecordOf(inputs)), |contract|);
    IssuesAt(contract, RecordOf(inputs), |contract|, k);
  }

  // ---------------------------------------------------------------- parsing the result again

  lemma {:induction false} ResultAt(contract: seq<Input>, values: map<string, Value>, n: nat, i: nat)
    requires IsContract(contract) && i < |contract| && n <= |contract|
    ensures Get(ResultUpTo(contract, values, n), contract[i].key) ==
            var given := Given(contract[i].field, Read(values, contract[i].key));
            if i < n && !given.Undefined? then Some(given) else None
  {
    if n > 0 {
      ResultAt(contract, values, n - 1, i);
    }
  }

  lemma {:induction false} ResultKeys(contract: seq<Input>, values: map<string, Value>, n: nat, key: string)
    requires n <= |contract| && key in ResultUpTo(contract, values, n)
    ensures exists i | 0 <= i < n :: contract[i].key == key
  {
    if key !in ResultUpTo(contract, values, n - 1) {
      assert contract[n - 1].key == key;
    } else {
      ResultKeys(contract, values, n - 1, key);
    }
  }

  /** What the agent gets for the field is accepted and kept when it is given for it. */
  predicate IsStable(field: Field, value: Value) {
    var given := Given(field, value);
    ProblemOf(field, given).None? && Given(field, given) == given
  }

  /** A default that is used can stand for the field itself, and a field with a default is not given as null. */
  predicate KeepsDefaults(field: Field, value: Value) {
    if value.Undefined? then field.default.Undefined? || (!field.default.Null? && ValidateInputValue(field, field.default).None?)
    else value.Null? ==> field.default.Undefined?
  }

  lemma StableIff(field: Field, value: Value)
    requires ProblemOf(field, value).None?
    ensures IsStable(field, value) <==> KeepsDefaults(field, value)
  {
  }

  lemma SameResult(contract: seq<Input>, first: map<string, Value>, second: map<string, Value>)
    requires IsContract(contract)
    requires forall i | 0 <= i < |contract| ::
               Given(contract[i].field, Read(first, contract[i].key)) == Given(contract[i].field, Read(second, contract[i].key))
    ensures ResultUpTo(contract, first, |contract|) == ResultUpTo(contract, second, |contract|)
  {
    var a, b, n := ResultUpTo(contract, first, |contract|), ResultUpTo(contract, second, |contract|), |contract|;
    forall key ensures Get(a, key) == Get(b, key) {
      if key in a {
        ResultKeys(contract, first, n, key);
      }
      if key in b {
        ResultKeys(contract, second, n, key);
      }
      if i :| 0 <= i < n && contract[i].key == key {
        ResultAt(contract, first, n, i);
        ResultAt(contract, second, n, i);
      }
    }
    SameMap(a, b);
  }

  lemma SameMap<K, V>(a: map<K, V>, b: map<K, V>)
    requires forall key :: Get(a, key) == Get(b, key)
    ensures a == b
  {
    assert forall key :: (key in a <==> Get(a, key).Some?) && (key in b <==> Get(b, key).Some?);
    assert forall key | key in a :: Get(a, key) == Some(a[key]) && Get(b, key) == Some(b[key]);
  }

  /** Parsing what parsing has returned gives the same again if and only if every default that was used is
      valid for its field and not null, and no null was given for a field with a default. */
  lemma ParseTwiceIff(contract: seq<Input>, inputs: Value)
    requires IsContract(contract) && Parse(contract, inputs).Inputs?
    ensures Parse(contract, Value.Object(Parse(contract, inputs).values)) == Parse(contract, inputs) <==>
            forall i | 0 <= i < |contract| :: KeepsDefaults(contract[i].field, Read(RecordOf(inputs), contract[i].key))
  {
    var values := RecordOf(inputs);
    var once := Parse(contract, inputs).values;
    NoIssues(contract, values, |contract|);
    NoIssues(contract, once, |contract|);
    forall i: nat | i < |contract|
      ensures Read(once, contract[i].key) == Given(contract[i].field, Read(values, contract[i].key))
      ensures IsStable(contract[i].field, Read(values, contract[i].key))
              <==> KeepsDefaults(contract[i].field, Read(values, contract[i].key)) {
      ResultAt(contract, values, |contract|, i);
      assert !IsOffending(contract, values, i);
      StableIff(contract[i].field, Read(values, contract[i].key));
    }
    if forall i: nat | i < |contract| :: IsStable(contract[i].field, Read(values, contract[i].key)) {
      SameResult(contract, once, values);
    }
    if Parse(contract, Value.Object(once)) == Parse(contract, inputs) {
      forall i: nat | i < |contract| ensures IsStable(contract[i].field, Read(values, contract[i].key)) {
        ResultAt(contract, once, |contract|, i);
        ResultAt(contract, values, |contract|, i);
        assert !IsOffending(contract, once, i);
      }
    }
  }

  /** A default of null is used once and lost the second time. */
  lemma NullDefaultIsLost(contract: seq<Input>)
    requires contract == [Input("k", Field(Boolean, false, Null, None))]
    ensures Parse(contract, Value.Object(map[])) == Inputs(map["k" := Null])
    ensures Parse(contract, Value.Object(map["k" := Null])) != Inputs(map["k" := Null])
  {
    var field := contract[0].field;
    assert Read(map[], "k") == Undefined && Given(field, Undefined) == Null && ProblemOf(field, Undefined).None?;
    assert ResultUpTo(contract, map[], 1) == map["k" := Null];
    assert IssuesUpTo(contract, map[], 1) == [];
    ParseTwiceIff(contract, Value.Object(map[]));
    assert !KeepsDefaults(contract[0].field, Read(map[], contract[0].key));
  }

  // ---------------------------------------------------------------- what a field gives

  /** What each type takes. */
  lemma ValidMeans(field: Field, value: Value)
    ensures ValidateInputValue(field, value).None? <==>
            match field.kind
            case String => value.Text?
            case Markdown => value.Text?
            case File => value.Text?
            case Url => value.Text?
            case Integer => value.Num? && value.n.Finite? && value.n.r == value.n.r.Floor as real
            case Number => value.Num? && value.n.Finite?
            case Boolean => value.Bool?
            case Object => value.Object?
            case Array => value.Array?
            case Json => true
            case Enum => field.choices.None? || ((value.Text? || value.Num? || value.Bool?) && value in field.choices.value)
    ensures forall problem | ValidateInputValue(field, value) == Some(problem) ::
              match field.kind
              case Integer => problem == MustBeInteger
              case Number => problem == MustBeNumber
              case Boolean => problem == MustBeBoolean
              case Object => problem == MustBeObject
              case Array => problem == MustBeArray
              case Enum => problem == MustBeChoice
              case _ => problem == MustBeString
  {
  }

  /** What is given under a key; nothing if the inputs are no object. */
  function Under(inputs: Value, key: string): Value {
    if inputs.Object? && key in inputs.fields then inputs.fields[key] else Undefined
  }

  lemma ReadIsUnder(inputs: Value, key: string)
    ensures Read(RecordOf(inputs), key) == Under(inputs, key)
  {
  }

  /** Parsing succeeds if and only if every required field is given, or left out and has a default, and every value
      that is given is valid; null is as good as nothing, but that it keeps the default away. */
  lemma ParseMeans(contract: seq<Input>, inputs: Value)
    ensures Parse(contract, inputs).Inputs? <==>
            forall i | 0 <= i < |contract| ::
              var field, value := contract[i].field, Under(inputs, contract[i].key);
              if value == Undefined then field.required ==> field.default != Undefined
              else if value == Null then !field.required
              else ValidateInputValue(field, value).None?
  {
    FailsIff(contract, inputs);
    forall i: nat | i < |contract|
      ensures IsOffending(contract, RecordOf(inputs), i) <==>
              var field, value := contract[i].field, Under(inputs, contract[i].key);
              !(if value == Undefined then field.required ==> field.default != Undefined
                else if value == Null then !field.required
                else ValidateInputValue(field, value).None?) {
      ReadIsUnder(inputs, contract[i].key);
    }
  }

  /** The agent then gets what was given, the default where nothing was given, nothing for null, and no other key. */
  lemma ParsedMeans(contract: seq<Input>, inputs: Value, i: nat, key: string)
    requires IsContract(contract) && Parse(contract, inputs).Inputs? && i < |contract|
    ensures Get(Parse(contract, inputs).values, contract[i].key) ==
            var value := Under(inputs, contract[i].key);
            if value == Null || (value == Undefined && contract[i].field.default == Undefined) then None
            else if value == Undefined then Some(contract[i].field.default)
            else Some(value)
    ensures key in Parse(contract, inputs).values ==> exists j | 0 <= j < |contract| :: contract[j].key == key
  {
    FailsIff(contract, inputs);
    ReadIsUnder(inputs, contract[i].key);
    ResultAt(contract, RecordOf(inputs), |contract|, i);
    assert !IsOffending(contract, RecordOf(inputs), i);
    if key in Parse(contract, inputs).values {
      ResultKeys(contract, RecordOf(inputs), |contract|, key);
    }
  }
}
