/** What the router's splitting, matching and ordering come to, on patterns and paths as texts. */
module RouterMeaning {
  import opened Options
  import opened Strings
  import opened Router

  // ---------------------------------------------------------------- splitting and matching

  /** Between two slashes stands one segment, or none. */
  lemma SplitPathWithoutSlash(piece: string)
    requires '/' !in piece
    ensures SplitPath(piece) == if piece == "" then [] else [piece]
  {
    SplitWhole(piece, '/');
    assert [piece][1..] == [];
    assert NonEmpty([piece]) == if piece == "" then [] else [piece];
  }

  /** A pattern and a path match if they have the same number of segments and each pair does: a colon with a name takes
      any text, and any other segment takes its own. */
  lemma MatchesMeans(segments: seq<string>, candidate: seq<string>)
    ensures Matches(segments, candidate) <==>
            && |segments| == |candidate|
            && forall i | 0 <= i < |segments| ::
                 && segments[i] != "" && candidate[i] != ""
                 && if segments[i][0] == ':' then |segments[i]| > 1 else segments[i] == candidate[i]
  {
    if |segments| == |candidate| {
      forall i | 0 <= i < |segments|
        ensures Takes(segments[i], candidate[i]) <==>
                && segments[i] != "" && candidate[i] != ""
                && if segments[i][0] == ':' then |segments[i]| > 1 else segments[i] == candidate[i] {
        TakesMeans(segments[i], candidate[i]);
      }
    }
  }

  lemma TakesMeans(segment: string, candidate: string)
    ensures Takes(segment, candidate) <==>
            && segment != "" && candidate != ""
            && if segment[0] == ':' then |segment| > 1 else segment == candidate
  {
    if segment != "" && segment[0] == ':' && |segment| == 1 {
      assert segment == ":";
    }
  }

  lemma NameOf(segment: string, name: string)
    ensures IsParam(segment) && segment[1..] == name <==> segment == ":" + name
  {
    if IsParam(segment) {
      assert segment == [segment[0]] + segment[1..];
    }
  }

  /** The names that a pattern has become the parameters, and no others. */
  lemma {:induction false} ParamsMean(segments: seq<string>, candidate: seq<string>, n: nat, name: string)
    requires n <= |segments| && n <= |candidate|
    ensures name in Params(segments, candidate, n) <==> exists i | 0 <= i < n :: segments[i] == ":" + name
  {
    if n > 0 {
      ParamsMean(segments, candidate, n - 1, name);
      NameOf(segments[n - 1], name);
    }
  }

  /** Each stands for the text at the last place of its name. */
  lemma ParamMeans(segments: seq<string>, candidate: seq<string>, i: nat, name: string)
    requires |segments| == |candidate| && i < |segments| && segments[i] == ":" + name
    requires forall j | i < j < |segments| :: segments[j] != ":" + name
    ensures Get(Params(segments, candidate, |segments|), name) == Some(candidate[i])
  {
    NameOf(segments[i], name);
    ParamsLast(segments, candidate, |segments|, i);
  }

  // ---------------------------------------------------------------- the order

  /** The texts differ first at position `i`, and there `a` has the smaller character. */
  ghost predicate SmallerAt(a: string, b: string, i: nat) {
    i < |a| && i < |b| && a[..i] == b[..i] && a[i] < b[i]
  }

  lemma SmallerBehind(a: string, b: string, i: nat)
    requires a != "" && b != "" && a[0] == b[0]
    ensures SmallerAt(a, b, i + 1) <==> SmallerAt(a[1..], b[1..], i)
    ensures !SmallerAt(a, b, 0)
  {
    if i < |a| - 1 && i < |b| - 1 {
      assert a[..i + 1] == [a[0]] + a[1..][..i] && b[..i + 1] == [b[0]] + b[1..][..i];
      assert a[..i + 1][1..] == a[1..][..i] && b[..i + 1][1..] == b[1..][..i];
    }
  }

  ghost predicate Smaller(a: string, b: string) {
    a < b || exists i: nat :: SmallerAt(a, b, i)
  }

  lemma SmallerTails(a: string, b: string)
    requires a != "" && b != "" && a[0] == b[0]
    ensures Smaller(a, b) <==> Smaller(a[1..], b[1..])
  {
    assert a == [a[0]] + a[1..] && b == [b[0]] + b[1..];
    if i: nat :| SmallerAt(a, b, i) {
      SmallerBehind(a, b, if i == 0 then 0 else i - 1);
      assert SmallerAt(a[1..], b[1..], i - 1);
    }
    if i: nat :| SmallerAt(a[1..], b[1..], i) {
      SmallerBehind(a, b, i);
    }
  }

  /** Texts are compared at the first character in which they differ; a beginning of another text comes before it. */
  lemma {:induction false} AsciiMeans(a: string, b: string)
    ensures CompareAscii(a, b) == Before <==> a < b || exists i: nat :: SmallerAt(a, b, i)
  {
    if a != "" && b != "" && a[0] == b[0] {
      AsciiMeans(a[1..], b[1..]);
      SmallerTails(a, b);
      assert a == [a[0]] + a[1..] && b == [b[0]] + b[1..];
      assert Smaller(a[1..], b[1..]) <==> CompareAscii(a[1..], b[1..]) == Before;
    } else if a != "" && b != "" && a[0] < b[0] {
      assert SmallerAt(a, b, 0);
    }
  }

  /** Patterns are compared at the first segment in which they differ: one that goes on comes before one that has
      ended, a literal before a parameter, and otherwise the texts decide. */
  lemma {:induction false} SegmentsMean(left: seq<string>, right: seq<string>, d: nat)
    requires d <= |left| && d <= |right| && left[..d] == right[..d]
    ensures |right| == d < |left| ==> CompareSegments(left, right) == Before
    ensures |left| == d < |right| ==> CompareSegments(left, right) == After
    ensures |left| == d == |right| ==> CompareSegments(left, right) == Same
    ensures d < |left| && d < |right| && left[d] != right[d] ==>
              CompareSegments(left, right) ==
              var leftParam, rightParam := ":" <= left[d], ":" <= right[d];
              if leftParam && !rightParam then After
              else if rightParam && !leftParam then Before
              else CompareAscii(left[d], right[d])
    decreases d
  {
    if d > 0 {
      assert left[0] == left[..d][0] == right[..d][0] == right[0];
      AsciiReversed(left[0], right[0]);
      assert left[1..][..d - 1] == left[..d][1..] == right[..d][1..] == right[1..][..d - 1];
      SegmentsMean(left[1..], right[1..], d - 1);
    } else if left != [] && right != [] {
      AsciiReversed(left[0], right[0]);
      assert ":" <= left[0] <==> IsParam(left[0]);
      assert ":" <= right[0] <==> IsParam(right[0]);
    }
  }

  /** The verb decides first, then the segments, then the path as it is written. */
  lemma RoutesMean<H>(left: Compiled<H>, right: Compiled<H>)
    ensures left.route.verb != right.route.verb ==>
              CompareRoutes(left, right) == CompareAscii(left.route.verb, right.route.verb)
    ensures left.route.verb == right.route.verb && left.segments != right.segments ==>
              CompareRoutes(left, right) == CompareSegments(left.segments, right.segments)
    ensures left.route.verb == right.route.verb && left.segments == right.segments ==>
              CompareRoutes(left, right) == CompareAscii(left.route.path, right.route.path)
  {
    AsciiReversed(left.route.verb, right.route.verb);
    SegmentsReversed(left.segments, right.segments);
  }

  // ---------------------------------------------------------------- the answer

  /** What the router answers: nothing exactly if no registered route has the verb and matches the path; otherwise a
      route that does, and that no other such route comes before; with the texts its parameters stand for. */
  lemma AnswerMeans<H>(routes: seq<Route<H>>, verb: string, path: string, found: Option<Match<H>>)
    requires var least := Least(CompileAll(routes), verb, path);
             (least.Some? ==> Answers(least.value, verb, path)) && found == AsMatch(least, path)
    ensures found.None? <==> forall r | r in routes :: !(r.verb == verb && Matches(SplitPath(r.path), SplitPath(path)))
    ensures found.Some? ==>
              var segments, candidate := SplitPath(found.value.route.path), SplitPath(path);
              && found.value.route in routes && found.value.route.verb == verb && Matches(segments, candidate)
              && found.value.params == Params(segments, candidate, |segments|)
              && forall r | r in routes && r.verb == verb && Matches(SplitPath(r.path), candidate) ::
                   CompareRoutes(Compiled(found.value.route, segments), Compiled(r, SplitPath(r.path))) != After
  {
    var cs := CompileAll(routes);
    LeastMeans(cs, verb, path);
    forall r | r in routes ensures Compile(r) in cs {
      CompiledMembers(routes, Compile(r));
    }
    forall c | c in cs ensures c == Compile(c.route) && c.route in routes {
      CompiledMembers(routes, c);
    }
    if found.None? {
      forall r | r in routes ensures !(r.verb == verb && Matches(SplitPath(r.path), SplitPath(path))) {
        assert !Answers(Compile(r), verb, path);
      }
    } else {
      var least := Least(cs, verb, path).value;
      assert least in cs;
      forall r | r in routes && r.verb == verb && Matches(SplitPath(r.path), SplitPath(path))
        ensures CompareRoutes(least, Compile(r)) != After {
        assert Answers(Compile(r), verb, path);
      }
    }
  }
}
