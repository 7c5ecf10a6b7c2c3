/** The route table of `api/router.ts`: compiled and sorted once, then scanned for the first hit. */
module Router {
  import opened Options
  import opened Strings

  // ---------------------------------------------------------------- routes

  /** `handler` stands for the handler and the metadata, which matching never looks at. */
  datatype Route<H> = Route(verb: string, path: string, handler: H)

  datatype Compiled<H> = Compiled(route: Route<H>, segments: seq<string>)

  datatype Match<H> = Match(route: Route<H>, params: map<string, string>)

  function NonEmpty(pieces: seq<string>): seq<string> {
    if pieces == [] then []
    else (if pieces[0] == "" then [] else [pieces[0]]) + NonEmpty(pieces[1..])
  }

  function SplitPath(path: string): seq<string> {
    NonEmpty(Split(path, '/'))
  }

  function Compile<H>(route: Route<H>): Compiled<H> {
    Compiled(route, SplitPath(route.path))
  }

  predicate IsParam(segment: string) {
    segment != "" && segment[0] == ':'
  }

  // ---------------------------------------------------------------- the order

  /** The sign of a comparison. */
  datatype Order = Before | Same | After {
    function Reversed(): Order {
      match this
      case Before => After
      case Same => Same
      case After => Before
    }
  }

  /** The built-in comparison of two strings by their code units. */
  function CompareAscii(left: string, right: string): Order {
    if left == right then Same
    else if left == "" then Before
    else if right == "" then After
    else if left[0] != right[0] then if left[0] < right[0] then Before else After
    else CompareAscii(left[1..], right[1..])
  }

  /** Literals before parameters, each by their text; a pattern that goes on before one that has ended. */
  function CompareSegments(left: seq<string>, right: seq<string>): Order {
    if left == [] && right == [] then Same
    else if left == [] then After
    else if right == [] then Before
    else if IsParam(left[0]) != IsParam(right[0]) then if IsParam(left[0]) then After else Before
    else
      var segmentOrder := CompareAscii(left[0], right[0]);
      if segmentOrder != Same then segmentOrder else CompareSegments(left[1..], right[1..])
  }

  function CompareRoutes<H>(left: Compiled<H>, right: Compiled<H>): Order {
    var methodOrder := CompareAscii(left.route.verb, right.route.verb);
    if methodOrder != Same then methodOrder
    else
      var segmentOrder := CompareSegments(left.segments, right.segments);
      if segmentOrder != Same then segmentOrder else CompareAscii(left.route.path, right.route.path)
  }

  /** The loop of the source over the segments of both patterns. */
  method CompareCompiledRoutes<H>(left: Compiled<H>, right: Compiled<H>) returns (order: Order)
    ensures order == CompareRoutes(left, right)
  {
    var methodOrder := CompareAscii(left.route.verb, right.route.verb);
    if methodOrder != Same {
      return methodOrder;
    }
    var index := 0;
    while index < |left.segments| || index < |right.segments|
      invariant index <= |left.segments| && index <= |right.segments|
      invariant CompareSegments(left.segments[index..], right.segments[index..]) == CompareSegments(left.segments, right.segments)
      decreases |left.segments| - index
    {
      if index == |left.segments| || index == |right.segments| {
        return if index == |left.segments| then After else Before;
      }
      var leftSegment, rightSegment := left.segments[index], right.segments[index];
      if IsParam(leftSegment) != IsParam(rightSegment) {
        return if IsParam(leftSegment) then After else Before;
      }
      var segmentOrder := CompareAscii(leftSegment, rightSegment);
      if segmentOrder != Same {
        return segmentOrder;
      }
      assert left.segments[index..][1..] == left.segments[index + 1..];
      assert right.segments[index..][1..] == right.segments[index + 1..];
      index := index + 1;
    }
    order := CompareAscii(left.route.path, right.route.path);
  }

  lemma AsciiReversed(a: string, b: string)
    ensures CompareAscii(b, a) == CompareAscii(a, b).Reversed()
    ensures CompareAscii(a, b) == Same <==> a == b
  {
  }

  lemma {:induction false} AsciiTransitive(a: string, b: string, c: string)
    requires CompareAscii(a, b) != After && CompareAscii(b, c) != After
    ensures CompareAscii(a, c) != After
    ensures CompareAscii(a, c) == Same ==> CompareAscii(a, b) == Same
    decreases |a|
  {
    AsciiReversed(a, b);
    AsciiReversed(b, c);
    AsciiReversed(a, c);
    if a != "" && b != "" && c != "" && a[0] == b[0] == c[0] {
      AsciiTransitive(a[1..], b[1..], c[1..]);
    }
  }

  lemma {:induction false} SegmentsReversed(a: seq<string>, b: seq<string>)
    ensures CompareSegments(b, a) == CompareSegments(a, b).Reversed()
    ensures CompareSegments(a, b) == Same <==> a == b
    decreases |a|
  {
    if a != [] && b != [] {
      AsciiReversed(a[0], b[0]);
      SegmentsReversed(a[1..], b[1..]);
    }
  }

  lemma {:induction false} SegmentsTransitive(a: seq<string>, b: seq<string>, c: seq<string>)
    requires CompareSegments(a, b) != After && CompareSegments(b, c) != After
    ensures CompareSegments(a, c) != After
    ensures CompareSegments(a, c) == Same ==> CompareSegments(a, b) == Same
    decreases |a|
  {
    if a != [] && b != [] && c != [] {
      AsciiReversed(a[0], b[0]);
      AsciiReversed(b[0], c[0]);
      if IsParam(a[0]) == IsParam(b[0]) == IsParam(c[0]) {
        AsciiTransitive(a[0], b[0], c[0]);
        if a[0] == b[0] == c[0] {
          SegmentsTransitive(a[1..], b[1..], c[1..]);
        }
      }
    }
  }

  /** The comparison is a total order on method and path. */
  lemma RoutesReversed<H>(a: Compiled<H>, b: Compiled<H>)
    ensures CompareRoutes(b, a) == CompareRoutes(a, b).Reversed()
    ensures CompareRoutes(a, b) == Same <==>
            a.route.verb == b.route.verb && a.route.path == b.route.path && a.segments == b.segments
  {
    AsciiReversed(a.route.verb, b.route.verb);
    SegmentsReversed(a.segments, b.segments);
    AsciiReversed(a.route.path, b.route.path);
  }

  lemma RoutesTransitive<H>(a: Compiled<H>, b: Compiled<H>, c: Compiled<H>)
    requires CompareRoutes(a, b) != After && CompareRoutes(b, c) != After
    ensures CompareRoutes(a, c) != After
    ensures CompareRoutes(a, c) == Same ==> CompareRoutes(a, b) == Same
  {
    AsciiTransitive(a.route.verb, b.route.verb, c.route.verb);
    AsciiReversed(a.route.verb, b.route.verb);
    AsciiReversed(b.route.verb, c.route.verb);
    if a.route.verb == b.route.verb == c.route.verb {
      SegmentsTransitive(a.segments, b.segments, c.segments);
      SegmentsReversed(a.segments, b.segments);
      SegmentsReversed(b.segments, c.segments);
      if a.segments == b.segments == c.segments {
        AsciiTransitive(a.route.path, b.route.path, c.route.path);
      }
    }
  }

  // ---------------------------------------------------------------- matching

  /** A segment of a pattern takes a segment of a path: a named parameter takes any, a literal itself. */
  predicate Takes(routeSegment: string, candidate: string) {
    && routeSegment != "" && candidate != ""
    && if IsParam(routeSegment) then routeSegment != ":" else routeSegment == candidate
  }

  predicate Matches(segments: seq<string>, candidate: seq<string>) {
    |segments| == |candidate| && forall i | 0 <= i < |segments| :: Takes(segments[i], candidate[i])
  }

  /** Later segments override earlier ones of the same name, as assignments to one object do. */
  function Params(segments: seq<string>, candidate: seq<string>, n: nat): map<string, string>
    requires n <= |segments| && n <= |candidate|
  {
    if n == 0 then map[]
    else if IsParam(segments[n - 1]) then Params(segments, candidate, n - 1)[segments[n - 1][1..] := candidate[n - 1]]
    else Params(segments, candidate, n - 1)
  }

  /** The loop of the source over both lists of segments. */
  method MatchSegments(segments: seq<string>, candidate: seq<string>) returns (params: Option<map<string, string>>)
    ensures params.Some? <==> Matches(segments, candidate)
    ensures params.Some? ==> params.value == Params(segments, candidate, |segments|)
  {
    if |candidate| != |segments| {
      return None;
    }
    var found: map<string, string> := map[];
    for index := 0 to |segments|
      invariant forall i | 0 <= i < index :: Takes(segments[i], candidate[i])
      invariant found == Params(segments, candidate, index)
    {
      var routeSegment, candidateSegment := segments[index], candidate[index];
      if routeSegment == "" || candidateSegment == "" {
        return None;
      }
      if IsParam(routeSegment) {
        var key := routeSegment[1..];
        if key == "" {
          return None;
        }
        found := found[key := candidateSegment];
      } else if routeSegment != candidateSegment {
        return None;
      }
    }
    params := Some(found);
  }

  method MatchPath(segments: seq<string>, candidatePath: string) returns (params: Option<map<string, string>>)
    ensures params.Some? <==> Matches(segments, SplitPath(candidatePath))
    ensures params.Some? ==> params.value == Params(segments, SplitPath(candidatePath), |segments|)
  {
    params := MatchSegments(segments, SplitPath(candidatePath));
  }

  predicate Answers<H>(c: Compiled<H>, verb: string, path: string) {
    c.route.verb == verb && Matches(c.segments, SplitPath(path))
  }

  /** The first compiled route of a list that answers. */
  function First<H>(cs: seq<Compiled<H>>, verb: string, path: string): Option<Compiled<H>> {
    if cs == [] then None
    else if Answers(cs[0], verb, path) then Some(cs[0])
    else First(cs[1..], verb, path)
  }

  function AsMatch<H>(c: Option<Compiled<H>>, path: string): Option<Match<H>>
    requires c.Some? ==> Matches(c.value.segments, SplitPath(path))
  {
    if c.None? then None
    else Some(Match(c.value.route, Params(c.value.segments, SplitPath(path), |c.value.segments|)))
  }

  // ---------------------------------------------------------------- the sorted table

  function CompileAll<H>(routes: seq<Route<H>>): seq<Compiled<H>> {
    if routes == [] then [] else [Compile(routes[0])] + CompileAll(routes[1..])
  }

  /** Insertion in front of the first element that does not come before. */
  function Insert<H>(c: Compiled<H>, sorted: seq<Compiled<H>>): seq<Compiled<H>> {
    if sorted == [] || CompareRoutes(c, sorted[0]) != After then [c] + sorted
    else [sorted[0]] + Insert(c, sorted[1..])
  }

  /** The stable sort that the host applies. */
  function Sort<H>(cs: seq<Compiled<H>>): seq<Compiled<H>> {
    if cs == [] then [] else Insert(cs[0], Sort(cs[1..]))
  }

  lemma FirstAnswers<H>(cs: seq<Compiled<H>>, verb: string, path: string)
    ensures var first := First(cs, verb, path);
            first.Some? ==> first.value in cs && Answers(first.value, verb, path)
  {
  }

  ghost predicate IsSorted<H>(cs: seq<Compiled<H>>) {
    forall i, j | 0 <= i < j < |cs| :: CompareRoutes(cs[i], cs[j]) != After
  }

  lemma {:induction false} InsertAdds<H>(c: Compiled<H>, sorted: seq<Compiled<H>>)
    ensures multiset(Insert(c, sorted)) == multiset{c} + multiset(sorted)
    decreases |sorted|
  {
    if sorted != [] && CompareRoutes(c, sorted[0]) == After {
      InsertAdds(c, sorted[1..]);
      assert sorted == [sorted[0]] + sorted[1..];
    }
  }

  lemma {:induction false} InsertSorts<H>(c: Compiled<H>, sorted: seq<Compiled<H>>)
    requires IsSorted(sorted)
    ensures IsSorted(Insert(c, sorted))
    decreases |sorted|
  {
    if sorted == [] {
    } else if CompareRoutes(c, sorted[0]) != After {
      forall j | 0 <= j < |sorted| ensures CompareRoutes(c, sorted[j]) != After {
        RoutesTransitiveOrSame(c, sorted[0], sorted[j], j == 0);
      }
    } else {
      var rest := Insert(c, sorted[1..]);
      InsertSorts(c, sorted[1..]);
      InsertAdds(c, sorted[1..]);
      RoutesReversed(c, sorted[0]);
      forall j | 0 <= j < |rest| ensures CompareRoutes(sorted[0], rest[j]) != After {
        assert rest[j] in multiset(rest);
        if rest[j] != c {
          assert rest[j] in sorted[1..];
        }
      }
    }
  }

  lemma RoutesTransitiveOrSame<H>(a: Compiled<H>, b: Compiled<H>, c: Compiled<H>, same: bool)
    requires CompareRoutes(a, b) != After
    requires if same then b == c else CompareRoutes(b, c) != After
    ensures CompareRoutes(a, c) != After
  {
    if !same {
      RoutesTransitive(a, b, c);
    }
  }

  /** The sorted table is a sorted rearrangement of the compiled one. */
  lemma {:induction false} SortSorts<H>(cs: seq<Compiled<H>>)
    ensures IsSorted(Sort(cs))
    ensures multiset(Sort(cs)) == multiset(cs)
  {
    if cs != [] {
      SortSorts(cs[1..]);
      InsertSorts(cs[0], Sort(cs[1..]));
      InsertAdds(cs[0], Sort(cs[1..]));
      assert cs == [cs[0]] + cs[1..];
    }
  }

  // ---------------------------------------------------------------- the least match

  /** The least answering route of an unsorted table; of equal ones, the one registered first. */
  ghost function Least<H>(cs: seq<Compiled<H>>, verb: string, path: string): Option<Compiled<H>> {
    if cs == [] then None
    else
      var rest := Least(cs[1..], verb, path);
      if Answers(cs[0], verb, path) && (rest.None? || CompareRoutes(cs[0], rest.value) != After) then Some(cs[0])
      else rest
  }

  lemma {:induction false} FirstOfInsert<H>(c: Compiled<H>, sorted: seq<Compiled<H>>, verb: string, path: string)
    requires IsSorted(sorted)
    ensures var before := First(sorted, verb, path);
            First(Insert(c, sorted), verb, path) ==
            if Answers(c, verb, path) && (before.None? || CompareRoutes(c, before.value) != After) then Some(c) else before
    decreases |sorted|
  {
    if sorted != [] {
      var before := First(sorted, verb, path);
      FirstAnswers(sorted, verb, path);
      if CompareRoutes(c, sorted[0]) != After {
        assert ([c] + sorted)[1..] == sorted;
        if before.Some? {
          var j :| 0 <= j < |sorted| && sorted[j] == before.value;
          RoutesTransitiveOrSame(c, sorted[0], sorted[j], j == 0);
        }
      } else {
        FirstOfInsert(c, sorted[1..], verb, path);
        assert ([sorted[0]] + Insert(c, sorted[1..]))[1..] == Insert(c, sorted[1..]);
      }
    }
  }

  /** Scanning the sorted table for the first hit finds the least match of the unsorted one. */
  lemma {:induction false} FirstIsLeast<H>(cs: seq<Compiled<H>>, verb: string, path: string)
    ensures First(Sort(cs), verb, path) == Least(cs, verb, path)
  {
    if cs != [] {
      FirstIsLeast(cs[1..], verb, path);
      SortSorts(cs[1..]);
      FirstOfInsert(cs[0], Sort(cs[1..]), verb, path);
    }
  }

  /** What least means: some route answers exactly if there is a least one; it answers itself and no
      other answering route comes before it, nor did an equal one get registered earlier. */
  lemma {:induction false} LeastMeans<H>(cs: seq<Compiled<H>>, verb: string, path: string)
    ensures Least(cs, verb, path).None? <==> forall c | c in cs :: !Answers(c, verb, path)
    ensures Least(cs, verb, path).Some? ==>
              var least := Least(cs, verb, path).value;
              && Answers(least, verb, path)
              && exists k | 0 <= k < |cs| ::
                   && cs[k] == least
                   && (forall j | 0 <= j < k && Answers(cs[j], verb, path) :: CompareRoutes(least, cs[j]) == Before)
                   && (forall j | 0 <= j < |cs| && Answers(cs[j], verb, path) :: CompareRoutes(least, cs[j]) != After)
    decreases |cs|
  {
    if cs != [] {
      var rest := cs[1..];
      LeastMeans(rest, verb, path);
      assert cs == [cs[0]] + rest;
      if Least(rest, verb, path).Some? {
        var later := Least(rest, verb, path).value;
        var k :| 0 <= k < |rest| && rest[k] == later
          && (forall j | 0 <= j < k && Answers(rest[j], verb, path) :: CompareRoutes(later, rest[j]) == Before)
          && (forall j | 0 <= j < |rest| && Answers(rest[j], verb, path) :: CompareRoutes(later, rest[j]) != After);
        LeastMeansStep(cs, verb, path, later, k);
      } else if Answers(cs[0], verb, path) {
        RoutesReversed(cs[0], cs[0]);
        assert forall j | 1 <= j < |cs| :: cs[j] in rest;
        assert cs[0] == Least(cs, verb, path).value;
      }
    }
  }

  lemma LeastMeansStep<H>(cs: seq<Compiled<H>>, verb: string, path: string, later: Compiled<H>, k: nat)
    requires cs != [] && k < |cs[1..]| && cs[1..][k] == later
    requires Least(cs[1..], verb, path) == Some(later)
    requires forall j | 0 <= j < k && Answers(cs[1..][j], verb, path) :: CompareRoutes(later, cs[1..][j]) == Before
    requires forall j | 0 <= j < |cs[1..]| && Answers(cs[1..][j], verb, path) :: CompareRoutes(later, cs[1..][j]) != After
    ensures var least := Least(cs, verb, path).value;
            exists m | 0 <= m < |cs| ::
              && cs[m] == least
              && (forall j | 0 <= j < m && Answers(cs[j], verb, path) :: CompareRoutes(least, cs[j]) == Before)
              && (forall j | 0 <= j < |cs| && Answers(cs[j], verb, path) :: CompareRoutes(least, cs[j]) != After)
  {
    var rest := cs[1..];
    var least := Least(cs, verb, path).value;
    RoutesReversed(cs[0], later);
    RoutesReversed(cs[0], cs[0]);
    if Answers(cs[0], verb, path) && CompareRoutes(cs[0], later) != After {
      forall j | 0 <= j < |cs| && Answers(cs[j], verb, path) ensures CompareRoutes(least, cs[j]) != After {
        if j > 0 {
          assert cs[j] == rest[j - 1];
          RoutesTransitive(cs[0], later, rest[j - 1]);
        }
      }
      assert cs[0] == least;
    } else {
      forall j | 0 <= j < |cs| && Answers(cs[j], verb, path)
        ensures CompareRoutes(least, cs[j]) != After
        ensures j < k + 1 ==> CompareRoutes(least, cs[j]) == Before
      {
        if j > 0 {
          assert cs[j] == rest[j - 1];
        }
      }
      assert cs[k + 1] == least;
    }
  }

  // ---------------------------------------------------------------- the router

  /** The class of the source: the table is compiled and sorted once. */
  class APIRouter<H> {
    const routes: seq<Route<H>>
    const compiledRoutes: seq<Compiled<H>>

    ghost predicate Valid() {
      compiledRoutes == Sort(CompileAll(routes))
    }

    constructor (routes: seq<Route<H>>)
      ensures this.routes == routes
      ensures Valid()
    {
      this.routes := routes;
      this.compiledRoutes := Sort(CompileAll(routes));
    }

    /** The scan of the sorted table answers with the least match of the table as registered. */
    method FindMatch(verb: string, path: string) returns (found: Option<Match<H>>)
      requires Valid()
      ensures var least := Least(CompileAll(routes), verb, path);
              (least.Some? ==> Answers(least.value, verb, path)) && found == AsMatch(least, path)
    {
      FirstAnswers(compiledRoutes, verb, path);
      FirstIsLeast(CompileAll(routes), verb, path);
      for i := 0 to |compiledRoutes|
        invariant First(compiledRoutes, verb, path) == First(compiledRoutes[i..], verb, path)
      {
        var compiled := compiledRoutes[i];
        assert compiledRoutes[i..][1..] == compiledRoutes[i + 1..];
        if compiled.route.verb == verb {
          var params := MatchPath(compiled.segments, path);
          if params.Some? {
            return Some(Match(compiled.route, params.value));
          }
        }
      }
      found := None;
    }
  }

  // ---------------------------------------------------------------- registration order

  ghost predicate DistinctKeys<H>(routes: seq<Route<H>>) {
    forall a, b | a in routes && b in routes && a.verb == b.verb && a.path == b.path :: a == b
  }

  lemma {:induction false} CompiledMembers<H>(routes: seq<Route<H>>, c: Compiled<H>)
    ensures c in CompileAll(routes) <==> c == Compile(c.route) && c.route in routes
  {
    if routes != [] {
      CompiledMembers(routes[1..], c);
      assert routes == [routes[0]] + routes[1..];
    }
  }

  /** With distinct method and path pairs, tables with the same routes answer alike, whatever the
      order of registration. */
  lemma OrderIndependent<H>(a: seq<Route<H>>, b: seq<Route<H>>, verb: string, path: string)
    requires DistinctKeys(a)
    requires forall r :: r in a <==> r in b
    ensures First(Sort(CompileAll(a)), verb, path) == First(Sort(CompileAll(b)), verb, path)
  {
    var ca, cb := CompileAll(a), CompileAll(b);
    FirstIsLeast(ca, verb, path);
    FirstIsLeast(cb, verb, path);
    forall c ensures c in ca <==> c in cb {
      CompiledMembers(a, c);
      CompiledMembers(b, c);
    }
    LeastMeans(ca, verb, path);
    LeastMeans(cb, verb, path);
    var la, lb := Least(ca, verb, path), Least(cb, verb, path);
    if la.Some? && lb.Some? {
      var x, y := la.value, lb.value;
      CompiledMembers(a, x);
      CompiledMembers(a, y);
      RoutesReversed(x, y);
      assert CompareRoutes(x, y) != After;
      assert CompareRoutes(y, x) != After;
    }
  }

  // ---------------------------------------------------------------- precedence and parameters

  /** Of two patterns that match the same path, the first segment in which they differ decides: the
      literal wins over the parameter, and of two parameters the smaller name. */
  lemma {:induction false} WinnerAtFirstDifference(left: seq<string>, right: seq<string>, candidate: seq<string>, d: nat)
    requires Matches(left, candidate) && Matches(right, candidate)
    requires d < |left| && left[..d] == right[..d] && left[d] != right[d]
    ensures IsParam(left[d]) || IsParam(right[d])
    ensures CompareSegments(left, right) ==
            if !IsParam(left[d]) then Before
            else if !IsParam(right[d]) then After
            else CompareAscii(left[d][1..], right[d][1..])
    ensures CompareSegments(left, right) != Same
    decreases d
  {
    assert Takes(left[d], candidate[d]) && Takes(right[d], candidate[d]);
    if d == 0 {
      AsciiReversed(left[0], right[0]);
    } else {
      assert left[0] == left[..d][0] == right[..d][0] == right[0];
      AsciiReversed(left[0], right[0]);
      assert left[1..][..d - 1] == left[..d][1..] == right[..d][1..] == right[1..][..d - 1];
      forall i | 0 <= i < |left| - 1
        ensures Takes(left[1..][i], candidate[1..][i]) && Takes(right[1..][i], candidate[1..][i])
      {
        assert Takes(left[i + 1], candidate[i + 1]) && Takes(right[i + 1], candidate[i + 1]);
      }
      WinnerAtFirstDifference(left[1..], right[1..], candidate[1..], d - 1);
    }
  }

  /** Precedence is not by the number of literals: an earlier name can beat a later literal. */
  lemma EarlierNameBeatsLaterLiteral()
    ensures var left, right := [":a", ":b"], [":b", "x"];
            && Matches(left, ["1", "x"]) && Matches(right, ["1", "x"])
            && CompareSegments(left, right) == Before
  {
    assert CompareAscii(":a"[1..], ":b"[1..]) == Before;
  }

  /** The pattern with every parameter replaced by its value. */
  function Substitute(segments: seq<string>, params: map<string, string>): seq<string> {
    seq(|segments|, i requires 0 <= i < |segments| =>
      if IsParam(segments[i]) && segments[i][1..] in params then params[segments[i][1..]] else segments[i])
  }

  /** Equal parameter names stand for equal segments. */
  ghost predicate Consistent(segments: seq<string>, candidate: seq<string>) {
    forall i, j | 0 <= i < j < |segments| && j < |candidate| && segments[i] == segments[j] :: candidate[i] == candidate[j]
  }

  lemma DifferentNames(a: string, b: string)
    requires IsParam(a) && IsParam(b) && a != b
    ensures a[1..] != b[1..]
  {
    assert a == [a[0]] + a[1..] && b == [b[0]] + b[1..];
  }

  lemma {:induction false} ParamsLast(segments: seq<string>, candidate: seq<string>, n: nat, i: nat)
    requires i < n <= |segments| && n <= |candidate|
    requires IsParam(segments[i])
    requires forall j | i < j < n :: segments[j] != segments[i]
    ensures segments[i][1..] in Params(segments, candidate, n)
    ensures Params(segments, candidate, n)[segments[i][1..]] == candidate[i]
  {
    if i < n - 1 {
      ParamsLast(segments, candidate, n - 1, i);
      if IsParam(segments[n - 1]) {
        DifferentNames(segments[n - 1], segments[i]);
      }
    }
  }

  function LastEqual(segments: seq<string>, i: nat, n: nat): (last: nat)
    requires i < n <= |segments|
    ensures i <= last < n && segments[last] == segments[i]
    ensures forall j | last < j < n :: segments[j] != segments[i]
  {
    if segments[n - 1] == segments[i] then n - 1 else LastEqual(segments, i, n - 1)
  }

  /** Substituting the returned parameters into the pattern gives back exactly the segments of the
      path if and only if segments under the same name are equal; distinct names always qualify. */
  lemma SubstituteRebuildsIff(segments: seq<string>, candidate: seq<string>)
    requires Matches(segments, candidate)
    ensures Substitute(segments, Params(segments, candidate, |segments|)) == candidate <==> Consistent(segments, candidate)
  {
    var params := Params(segments, candidate, |segments|);
    var rebuilt := Substitute(segments, params);
    forall i | 0 <= i < |segments|
      ensures rebuilt[i] == candidate[LastEqual(segments, i, |segments|)]
    {
      var last := LastEqual(segments, i, |segments|);
      assert Takes(segments[last], candidate[last]);
      if IsParam(segments[i]) {
        ParamsLast(segments, candidate, |segments|, last);
      } else {
        assert Takes(segments[i], candidate[i]);
      }
    }
    if Consistent(segments, candidate) {
      forall i | 0 <= i < |segments| ensures rebuilt[i] == candidate[i] {
        assert i == LastEqual(segments, i, |segments|) || candidate[i] == candidate[LastEqual(segments, i, |segments|)];
      }
    }
    if rebuilt == candidate {
      forall i, j | 0 <= i < j < |segments| && segments[i] == segments[j] ensures candidate[i] == candidate[j] {
        var li, lj := LastEqual(segments, i, |segments|), LastEqual(segments, j, |segments|);
        assert candidate[i] == candidate[li] && candidate[j] == candidate[lj];
        assert li == lj;
      }
    }
  }

  // ---------------------------------------------------------------- slashes

  lemma {:induction false} NonEmptyConcat(a: seq<string>, b: seq<string>)
    ensures NonEmpty(a + b) == NonEmpty(a) + NonEmpty(b)
  {
    if a == [] {
      assert a + b == b;
    } else {
      assert (a + b)[1..] == a[1..] + b;
      NonEmptyConcat(a[1..], b);
    }
  }

  /** Slashes at either end, and repeated ones, never change the segments of a path. */
  lemma SplitPathAtSlash(a: string, b: string)
    ensures SplitPath(a + "/" + b) == SplitPath(a) + SplitPath(b)
    ensures SplitPath("/" + b) == SplitPath(b)
    ensures SplitPath(a + "/") == SplitPath(a)
  {
    SplitAtSeparator(a, b, '/');
    NonEmptyConcat(Split(a, '/'), Split(b, '/'));
    SplitAtSeparator("", b, '/');
    NonEmptyConcat(Split("", '/'), Split(b, '/'));
    SplitAtSeparator(a, "", '/');
    NonEmptyConcat(Split(a, '/'), Split("", '/'));
    assert SplitPath("") == [];
    assert "" + "/" + b == "/" + b;
    assert a + "/" + "" == a + "/";
    assert [] + SplitPath(b) == SplitPath(b);
    assert SplitPath(a) + [] == SplitPath(a);
  }
}
