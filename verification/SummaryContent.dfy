/** What a compacted conversation holds, in terms of the conversation alone: which messages are summarised, which
    follow word for word, and what stands between them. */
module SummaryContent {
  import opened Options
  import opened Strings
  import opened Integers
  import opened Context
  import opened Compaction

  // ---------------------------------------------------------------- lines and their lengths

  /** The line of a message: its role in brackets and its text on one line. */
  lemma LineMeans(message: Message)
    ensures SummaryLine(message) == "[" + message.role + "] " + Trim(Blank, Collapse(message.content))
  {
  }

  lemma {:induction false} CostIsLength(lines: seq<string>)
    ensures Cost(lines) == if lines == [] then 0 else |Join(lines, "\n")| + 1
  {
    if lines != [] {
      CostIsLength(lines[1..]);
      assert lines == [lines[0]] + lines[1..];
      JoinCons(lines[0], lines[1..]);
    }
  }

  lemma {:induction false} AllLinesNext(messages: seq<Message>, i: nat, k: nat)
    requires i <= k < |messages|
    ensures AllLines(messages, i, k + 1) == AllLines(messages, i, k) + [SummaryLine(messages[k])]
    decreases k - i
  {
    if i < k {
      AllLinesNext(messages, i + 1, k);
    }
  }

  lemma LastLineAt(front: seq<string>, line: string, lines: seq<string>, at: nat)
    requires lines == front + [line] && at < |lines|
    ensures lines[at] == if at < |front| then front[at] else line
  {
  }

  lemma {:induction false} AllLinesAt(messages: seq<Message>, k: nat, j: nat)
    requires k <= |messages|
    ensures |AllLines(messages, 0, k)| == k
    ensures j < k ==> AllLines(messages, 0, k)[j] == SummaryLine(messages[j])
  {
    if k > 0 {
      AllLinesAt(messages, k - 1, j);
      AllLinesNext(messages, 0, k - 1);
      if j < k {
        LastLineAt(AllLines(messages, 0, k - 1), SummaryLine(messages[k - 1]), AllLines(messages, 0, k), j);
      }
    }
  }

  /** Blanks between words become one space, and nothing else changes. */
  lemma {:induction false} CollapseBetween(a: string, blanks: string, b: string)
    requires forall i | 0 <= i < |a| :: !Blank(a[i])
    requires blanks != "" && forall i | 0 <= i < |blanks| :: Blank(blanks[i])
    requires b != "" ==> !Blank(b[0])
    ensures Collapse(a + blanks + b) == a + " " + Collapse(b)
    decreases |a| + |blanks|
  {
    var s := a + blanks + b;
    if a != "" {
      assert s[1..] == a[1..] + blanks + b;
      CollapseBetween(a[1..], blanks, b);
      assert [a[0]] + (a[1..] + " " + Collapse(b)) == a + " " + Collapse(b);
    } else if |blanks| > 1 {
      assert s[1..] == a + blanks[1..] + b;
      CollapseBetween(a, blanks[1..], b);
    } else {
      assert s[1..] == b;
    }
  }

  // ---------------------------------------------------------------- the head

  /** What is left of a line with `room` characters to go: it is cut two characters before their end, loses blanks at
      the cut, and gets an ellipsis if anything is left. */
  ghost predicate IsCut(rest: seq<string>, line: string, room: int) {
    var piece := Trim(Blank, line[..Min(Max(0, room - 2), |line|)]);
    piece < line && rest == if piece == "" then [] else [piece + "\U{2026}"]
  }

  /** The lines of `head` that fit a budget: the first `whole` as they are, and of the next one what is left of it. */
  ghost predicate Summarizes(lines: seq<string>, head: seq<Message>, budget: int, whole: nat) {
    && whole <= |head| && whole <= |lines|
    && (forall j | 0 <= j < whole :: lines[j] == SummaryLine(head[j]))
    && (whole > 0 ==> |Join(lines[..whole], "\n")| < budget)
    && if whole == |head| then |lines| == whole
       else
         var line := SummaryLine(head[whole]);
         && |Join(lines[..whole] + [line], "\n")| >= budget
         && IsCut(lines[whole..], line, if whole == 0 then budget else budget - |Join(lines[..whole], "\n")| - 1)
  }

  lemma LinesSummarize(head: seq<Message>, budget: int) returns (whole: nat)
    requires budget > 0
    ensures Summarizes(SummaryLines(head, 0, budget), head, budget, whole)
  {
    var piece;
    whole, piece := SummaryKeepsLongestPrefix(head, 0, budget);
    ArePrefix(SummaryLines(head, 0, budget), head, budget, whole, piece);
  }

  lemma NextIsCut(head: seq<Message>, budget: int, whole: nat, piece: string)
    requires whole < |head| && IsSummary(AllLines(head, 0, whole) + Ellipsis(piece), head, 0, budget, whole, piece)
    ensures IsCut(Ellipsis(piece), SummaryLine(head[whole]), budget - Cost(AllLines(head, 0, whole)))
    ensures |Join(AllLines(head, 0, whole) + [SummaryLine(head[whole])], "\n")| >= budget
  {
    assert Cost(AllLines(head, 0, whole)) <= budget;
    assert piece < SummaryLine(head[whole]);
    AllLinesNext(head, 0, whole);
    CostIsLength(AllLines(head, 0, whole) + [SummaryLine(head[whole])]);
  }

  lemma FirstLines(front: seq<string>, rest: seq<string>, head: seq<Message>, budget: int)
    requires |front| <= |head| && forall j | 0 <= j < |front| :: front[j] == SummaryLine(head[j])
    requires front != [] ==> |Join(front, "\n")| < budget
    requires |front| == |head| ==> rest == []
    requires |front| < |head| ==>
               && |Join(front + [SummaryLine(head[|front|])], "\n")| >= budget
               && IsCut(rest, SummaryLine(head[|front|]), if front == [] then budget else budget - |Join(front, "\n")| - 1)
    ensures Summarizes(front + rest, head, budget, |front|)
  {
    var lines := front + rest;
    assert lines[..|front|] == front && lines[|front|..] == rest;
    forall j | 0 <= j < |front| ensures lines[j] == SummaryLine(head[j]) {
      assert lines[j] == front[j];
    }
  }

  lemma ArePrefix(lines: seq<string>, head: seq<Message>, budget: int, whole: nat, piece: string)
    requires budget > 0 && IsSummary(lines, head, 0, budget, whole, piece)
    ensures Summarizes(lines, head, budget, whole)
  {
    var front := AllLines(head, 0, whole);
    AllLinesAt(head, whole, 0);
    forall j | 0 <= j < whole ensures front[j] == SummaryLine(head[j]) {
      AllLinesAt(head, whole, j);
    }
    CostIsLength(front);
    if whole < |head| {
      NextIsCut(head, budget, whole, piece);
    }
    FirstLines(front, Ellipsis(piece), head, budget);
  }

  lemma NoLineIsEmpty(lines: seq<string>, head: seq<Message>, budget: int, whole: nat)
    requires Summarizes(lines, head, budget, whole)
    ensures Join(lines, "\n") == "" <==> lines == []
  {
  }

  /** The text that a summary of `head` gives. */
  lemma TextOfLines(head: seq<Message>, budget: int, whole: nat)
    requires budget > 0 && Summarizes(SummaryLines(head, 0, budget), head, budget, whole)
    ensures SummaryText(head, budget) == Join(SummaryLines(head, 0, budget), "\n")
    ensures SummaryText(head, budget) == "" <==> SummaryLines(head, 0, budget) == []
  {
    NoLineIsEmpty(SummaryLines(head, 0, budget), head, budget, whole);
  }

  // ---------------------------------------------------------------- the whole

  /** The last `k` messages under the lines of a summary. */
  function Under(lines: seq<string>, messages: seq<Message>, k: nat): string
    requires k <= |messages|
  {
    (if lines == [] then "" else "system: Prior conversation summary\n" + Join(lines, "\n") + "\n\n")
    + SerializeMessages(messages[|messages| - k..])
  }

  lemma TailHasText(messages: seq<Message>, k: nat)
    requires 0 < k <= |messages|
    ensures SerializedTail(messages, k) != ""
  {
    TailGrows(messages, k - 1);
  }

  lemma ComposedUnder(messages: seq<Message>, lines: seq<string>, summary: string, k: nat)
    requires 0 < k <= |messages| && summary == Join(lines, "\n") && (summary == "" <==> lines == [])
    ensures Compose(SummaryPart(summary), SerializedTail(messages, k)) == Under(lines, messages, k)
  {
    SerializeSuffix(messages, k);
    TailHasText(messages, k);
    var tail := SerializedTail(messages, k);
    if lines == [] {
      assert "" + tail == tail;
    } else {
      HeaderLine(summary, tail, SUMMARY_HEADER);
    }
  }

  lemma HeaderLine(summary: string, tail: string, header: string)
    requires header == "system: Prior conversation summary"
    ensures header + "\n" + summary + "\n\n" + tail == "system: Prior conversation summary\n" + summary + "\n\n" + tail
  {
    assert header + "\n" == "system: Prior conversation summary\n";
  }

  /** A conversation over the limit becomes this: the longest tail of at least two messages within its budget is
      kept; all that comes before it is summarised; of the tail the longest part follows, again of at least two
      messages, with which the result is within the limit. */
  lemma SummaryContentMeans(messages: seq<Message>, budgets: Budgets, content: string)
      returns (kept: nat, final: nat, lines: seq<string>, whole: nat)
    requires IsSummaryContent(messages, budgets, content)
    requires 0 <= budgets.limit < |SerializeMessages(messages)| && budgets.summary > 0
    ensures Min(2, |messages|) <= final <= kept <= |messages|
    ensures kept > 2 ==> |SerializeMessages(messages[|messages| - kept..])| <= budgets.tail
    ensures kept < |messages| ==> |SerializeMessages(messages[|messages| - kept - 1..])| > budgets.tail
    ensures Summarizes(lines, messages[..|messages| - kept], budgets.summary, whole)
    ensures content == Under(lines, messages, final)
    ensures final > 2 ==> |content| <= budgets.limit
    ensures final < kept ==> |Under(lines, messages, final + 1)| > budgets.limit
  {
    kept, final :| IsCompacted(messages, budgets, content, kept, final);
    var head := messages[..|messages| - kept];
    lines := SummaryLines(head, 0, budgets.summary);
    whole := LinesSummarize(head, budgets.summary);
    TextOfLines(head, budgets.summary, whole);
    KeptMeans(messages, budgets.tail, kept);
    FittedMeans(messages, budgets, lines, SummaryText(head, budgets.summary), content, kept, final);
  }

  lemma KeptMeans(messages: seq<Message>, budget: int, kept: nat)
    requires IsTailLength(messages, budget, kept)
    ensures Min(2, |messages|) <= kept <= |messages|
    ensures kept > 2 ==> |SerializeMessages(messages[|messages| - kept..])| <= budget
    ensures kept < |messages| ==> |SerializeMessages(messages[|messages| - kept - 1..])| > budget
  {
    TailSizeAt(messages, kept);
    SerializeSuffix(messages, kept);
    if kept < |messages| {
      TailSizeAt(messages, kept + 1);
      SerializeSuffix(messages, kept + 1);
    }
  }

  lemma SizeUnder(messages: seq<Message>, lines: seq<string>, summary: string, k: nat)
    requires 0 < k <= |messages| && summary == Join(lines, "\n") && (summary == "" <==> lines == [])
    ensures ResultSizes(SummaryPart(summary), messages)[k] == |Under(lines, messages, k)|
  {
    ResultSizeAt(SummaryPart(summary), messages, k);
    ComposedUnder(messages, lines, summary, k);
  }

  lemma FittedMeans(
      messages: seq<Message>, budgets: Budgets, lines: seq<string>, summary: string, content: string, kept: nat, final: nat)
    requires messages != [] && summary == Join(lines, "\n") && (summary == "" <==> lines == [])
    requires IsFitted(messages, budgets, SummaryPart(summary), content, kept, final)
    ensures Min(2, |messages|) <= final <= kept <= |messages|
    ensures content == Under(lines, messages, final)
    ensures final > 2 ==> |content| <= budgets.limit
    ensures final < kept ==> |Under(lines, messages, final + 1)| > budgets.limit
  {
    ComposedUnder(messages, lines, summary, final);
    SizeUnder(messages, lines, summary, final);
    if final < kept {
      SizeUnder(messages, lines, summary, final + 1);
    }
  }

  // ---------------------------------------------------------------- serialising and budgets

  /** One message is its role and its text; two parts of a conversation are two texts with a blank line between. */
  lemma {:induction false} SerializeMeans(a: seq<Message>, b: seq<Message>)
    ensures SerializeMessages([]) == ""
    ensures forall m: Message :: SerializeMessages([m]) == m.role + ": " + m.content
    ensures a != [] && b != [] ==> SerializeMessages(a + b) == SerializeMessages(a) + "\n\n" + SerializeMessages(b)
    decreases |a|
  {
    if a != [] && b != [] {
      var rest := a[1..];
      SerializeSame(a + b, 1, rest + b, 0);
      SerializeSame(a, 1, rest, 0);
      if rest == [] {
        assert rest + b == b;
      } else {
        SerializeMeans(rest, b);
        var first := Rendered(a[0]) + "\n\n";
        assert first + (SerializeMessages(rest) + "\n\n" + SerializeMessages(b))
            == first + SerializeMessages(rest) + "\n\n" + SerializeMessages(b);
      }
    }
  }

  /** The limit is what the reserve leaves of the maximum; the maximum counts as at least 1024, the reserve as at least
      0, and the limit is at least 256. */
  lemma EffectiveMeans(maxChars: real, reserveChars: real)
    ensures var effective := ResolveEffectiveMaxChars(maxChars, reserveChars);
            && (maxChars >= 1024.0 && reserveChars >= 0.0 && maxChars.Floor - reserveChars.Floor >= 256 ==>
                  effective == maxChars.Floor - reserveChars.Floor)
            && (maxChars >= 1024.0 && reserveChars >= 0.0 && maxChars.Floor - reserveChars.Floor < 256 ==> effective == 256)
            && (maxChars < 1024.0 ==> effective == ResolveEffectiveMaxChars(1024.0, reserveChars))
            && (reserveChars < 0.0 ==> effective == ResolveEffectiveMaxChars(maxChars, 0.0))
  {
    assert 1024.0.Floor == 1024 && 0.0.Floor == 0;
  }

  /** The tail has 55 of 100 characters and at least 256; the summary 35 of 100, or the limit of its own if that is
      smaller, and at least 128. */
  lemma BudgetsMean(limit: int, summaryMaxChars: real)
    requires limit >= 256
    ensures limit <= 467 ==> BudgetsOf(limit, summaryMaxChars).tail == 256
    ensures limit > 467 ==> 100 * BudgetsOf(limit, summaryMaxChars).tail <= 55 * limit < 100 * BudgetsOf(limit, summaryMaxChars).tail + 100
    ensures summaryMaxChars < 129.0 || limit < 366 ==> BudgetsOf(limit, summaryMaxChars).summary == 128
    ensures var summary := BudgetsOf(limit, summaryMaxChars).summary;
            summaryMaxChars >= 128.0 && limit >= 366 ==>
              && summary <= summaryMaxChars.Floor && 100 * summary <= 35 * limit
              && (summary == summaryMaxChars.Floor || 35 * limit < 100 * summary + 100)
  {
    assert 128.0.Floor == 128 && 129.0.Floor == 129;
  }
}
