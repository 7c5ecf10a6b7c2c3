/** Context compaction (`context/index.ts`): fitting a conversation into a character budget. */
module Context {
  import opened Options
  import opened Strings
  import opened Integers

  datatype Strategy = Raw | Summary | Distill | SymbolicSignatures

  /** Roles and kinds are the source's string literals, such as "user" or "tool-result". */
  datatype Message = Message(role: string, content: string, kind: Option<string>, toolCallId: Option<string>, toolName: Option<string>)

  const SUMMARY_HEADER := "system: Prior conversation summary"
  const TOOL_TRUNCATION_SUFFIX :=
    "\n\n[tool result truncated to fit context budget; request narrower output for full details]"

  // ---------------------------------------------------------------- serialising

  function Rendered(message: Message): string {
    message.role + ": " + message.content
  }

  /** The messages from index `i` on, joined by blank lines. */
  function SerializeFrom(messages: seq<Message>, i: nat): string
    requires i <= |messages|
    decreases |messages| - i
  {
    if i == |messages| then ""
    else if i + 1 == |messages| then Rendered(messages[i])
    else Rendered(messages[i]) + "\n\n" + SerializeFrom(messages, i + 1)
  }

  function SerializeMessages(messages: seq<Message>): string {
    SerializeFrom(messages, 0)
  }

  function RenderedFrom(messages: seq<Message>, i: nat): seq<string>
    requires i <= |messages|
    decreases |messages| - i
  {
    if i == |messages| then [] else [Rendered(messages[i])] + RenderedFrom(messages, i + 1)
  }

  /** As the source puts it: the rendered messages joined by blank lines. */
  lemma {:induction false} SerializedIsJoined(messages: seq<Message>, i: nat)
    requires i <= |messages|
    ensures SerializeFrom(messages, i) == Join(RenderedFrom(messages, i), "\n\n")
    decreases |messages| - i
  {
    if i < |messages| {
      SerializedIsJoined(messages, i + 1);
      JoinFront(Rendered(messages[i]), RenderedFrom(messages, i + 1), "\n\n");
    }
  }

  function Suffix(messages: seq<Message>, k: nat): seq<Message>
    requires k <= |messages|
  {
    messages[|messages| - k..]
  }

  function SerializedTail(messages: seq<Message>, k: nat): string
    requires k <= |messages|
  {
    SerializeFrom(messages, |messages| - k)
  }

  /** Only the messages from the given index on matter. */
  lemma {:induction false} SerializeSame(a: seq<Message>, i: nat, b: seq<Message>, j: nat)
    requires i <= |a| && j <= |b| && |a| - i == |b| - j
    requires forall x | i <= x < |a| :: a[x] == b[x - i + j]
    ensures SerializeFrom(a, i) == SerializeFrom(b, j)
    decreases |a| - i
  {
    if i < |a| {
      SerializeSame(a, i + 1, b, j + 1);
      assert Rendered(a[i]) == Rendered(b[j]);
    }
  }

  lemma SerializeSuffix(messages: seq<Message>, k: nat)
    requires k <= |messages|
    ensures SerializeMessages(Suffix(messages, k)) == SerializedTail(messages, k)
  {
    SerializeSame(Suffix(messages, k), 0, messages, |messages| - k);
  }

  lemma TailGrows(messages: seq<Message>, k: nat)
    requires k < |messages|
    ensures SerializedTail(messages, k + 1) ==
            Rendered(messages[|messages| - k - 1]) + (if k > 0 then "\n\n" else "") + SerializedTail(messages, k)
  {
  }

  /** A longer tail serialises to a text that ends with the shorter one's. */
  lemma {:induction false} SuffixEndsWith(messages: seq<Message>, j: nat, k: nat)
    requires j <= k <= |messages|
    ensures EndsWith(SerializedTail(messages, k), SerializedTail(messages, j))
    decreases k
  {
    if j < k {
      TailGrows(messages, k - 1);
      SuffixEndsWith(messages, j, k - 1);
      EndsWithExtend(Rendered(messages[|messages| - k]) + (if k > 1 then "\n\n" else ""),
                     SerializedTail(messages, k - 1), SerializedTail(messages, j));
    }
  }

  // ---------------------------------------------------------------- budgets

  datatype Request = Request(strategy: Strategy, messages: seq<Message>, maxChars: real, reserveChars: real, summaryMaxChars: real)

  function ResolveEffectiveMaxChars(maxChars: real, reserveChars: real): (effective: int)
    ensures effective >= 256
    ensures effective > 256 && reserveChars >= 0.0 && maxChars >= 1024.0 ==> effective as real + reserveChars < maxChars + 1.0
  {
    var max := Max(1024, maxChars.Floor);
    var reserve := Max(0, reserveChars.Floor);
    Max(256, max - reserve)
  }

  function TailBudget(effectiveMaxChars: int): int {
    Max(256, effectiveMaxChars * 55 / 100)
  }

  /** A fractional limit leaves a fractional budget in the source; `SummarizeMessages` observes no more of
      it than its integer part. */
  function SummaryBudget(effectiveMaxChars: int, summaryMaxChars: real): int {
    Max(128, Min(summaryMaxChars.Floor, effectiveMaxChars * 35 / 100))
  }

  /** Header, newline, a summary below its budget, the separator and a tail within its budget: the
      worst case is 36 characters over the two budgets. It fits for every summary limit if and only
      if the effective limit is at least 448. */
  lemma BudgetsFitIff(effectiveMaxChars: int)
    requires effectiveMaxChars >= 256
    ensures effectiveMaxChars >= 448 <==>
            forall summaryMaxChars: real ::
              36 + SummaryBudget(effectiveMaxChars, summaryMaxChars) + TailBudget(effectiveMaxChars) <= effectiveMaxChars
  {
    if effectiveMaxChars < 448 {
      assert 36 + SummaryBudget(effectiveMaxChars, 1000.0) + TailBudget(effectiveMaxChars) > effectiveMaxChars;
    }
  }

  // ---------------------------------------------------------------- summarising

  /** White space as the source's `\s` and `trim` see it. */
  predicate Blank(c: char) {
    || '\t' <= c <= '\r' || c == ' ' || c == '\U{00A0}' || c == '\U{1680}'
    || '\U{2000}' <= c <= '\U{200A}'
    || c == '\U{2028}' || c == '\U{2029}' || c == '\U{202F}' || c == '\U{205F}' || c == '\U{3000}' || c == '\U{FEFF}'
  }

  /** Every run of white space becomes one space. */
  function Collapse(s: string): string {
    if s == "" then ""
    else if !Blank(s[0]) then [s[0]] + Collapse(s[1..])
    else if |s| > 1 && Blank(s[1]) then Collapse(s[1..])
    else " " + Collapse(s[1..])
  }

  function SummaryLine(message: Message): (line: string)
    ensures line != "" && line[0] == '['
  {
    "[" + message.role + "] " + Trim(Blank, Collapse(message.content))
  }

  /** What is left of a line that no longer fits, before the ellipsis is put after it. */
  function Clipped(line: string, remaining: int): string
    requires |line| + 1 > remaining
  {
    Trim(Blank, line[..Max(0, remaining - 2)])
  }

  /** The last line, cut to what remains, or no line at all. */
  function LastLine(message: Message, remaining: int): seq<string>
    requires |SummaryLine(message)| + 1 > remaining
  {
    var clipped := Clipped(SummaryLine(message), remaining);
    if clipped == "" then [] else [clipped + "\U{2026}"]
  }

  /** The lines for the messages from index `i` on, within what remains of the budget. */
  function SummaryLines(messages: seq<Message>, i: nat, remaining: int): seq<string>
    requires i <= |messages|
    decreases |messages| - i
  {
    if i == |messages| then []
    else
      var line := SummaryLine(messages[i]);
      if |line| + 1 > remaining then LastLine(messages[i], remaining)
      else [line] + SummaryLines(messages, i + 1, remaining - (|line| + 1))
  }

  function SummaryText(messages: seq<Message>, maxChars: int): string {
    if |messages| == 0 || maxChars <= 0 then "" else Join(SummaryLines(messages, 0, maxChars), "\n")
  }

  /** The characters that `lines` take, with one newline each. */
  function Cost(lines: seq<string>): nat {
    if lines == [] then 0 else |lines[0]| + 1 + Cost(lines[1..])
  }

  lemma {:induction false} CostAppend(lines: seq<string>, line: string)
    ensures Cost(lines + [line]) == Cost(lines) + |line| + 1
  {
    if lines != [] {
      CostAppend(lines[1..], line);
      assert (lines + [line])[1..] == lines[1..] + [line];
    }
  }

  /** The lines pushed so far, followed by those still to come. */
  ghost function Progress(lines: seq<string>, messages: seq<Message>, i: nat, remaining: int): seq<string>
    requires i <= |messages|
  {
    lines + SummaryLines(messages, i, remaining)
  }

  lemma ProgressStep(lines: seq<string>, messages: seq<Message>, i: nat, remaining: int)
    requires i < |messages|
    ensures var line := SummaryLine(messages[i]);
            Progress(lines, messages, i, remaining) ==
            if |line| + 1 > remaining then lines + LastLine(messages[i], remaining)
            else Progress(lines + [line], messages, i + 1, remaining - (|line| + 1))
  {
    var line := SummaryLine(messages[i]);
    if |line| + 1 <= remaining {
      ConcatAssociative(lines, [line], SummaryLines(messages, i + 1, remaining - (|line| + 1)));
    }
  }

  lemma ProgressDone(lines: seq<string>, messages: seq<Message>, remaining: int)
    ensures Progress(lines, messages, |messages|, remaining) == lines
  {
  }

  /** Line lengths are integers and `slice` drops fractions, so that of what remains is never observed. */
  lemma FractionUnobserved(remaining: real, length: int)
    ensures length as real > remaining <==> length > remaining.Floor
    ensures (remaining - length as real).Floor == remaining.Floor - length
  {
  }

  /** The piece of a line that is kept, as the source cuts it. */
  function Piece(line: string, remaining: real): string
    requires (|line| + 1) as real > remaining
  {
    Trim(Blank, line[..Max(0, (remaining - 2.0).Floor)])
  }

  lemma FractionStep(line: string, remaining: real)
    ensures (|line| + 1) as real > remaining <==> |line| + 1 > remaining.Floor
    ensures (remaining - (|line| + 1) as real).Floor == remaining.Floor - (|line| + 1)
    ensures (|line| + 1) as real > remaining ==> Piece(line, remaining) == Clipped(line, remaining.Floor)
  {
    FractionUnobserved(remaining, |line| + 1);
    FractionUnobserved(remaining, 2);
  }

  /** One line, or what remains for it. */
  lemma LoopStep(lines: seq<string>, messages: seq<Message>, i: nat, remaining: real, result: seq<string>)
    requires i < |messages| && Progress(lines, messages, i, remaining.Floor) == result
    ensures var line := SummaryLine(messages[i]);
            if (|line| + 1) as real > remaining then
              lines + (if Piece(line, remaining) == "" then [] else [Piece(line, remaining) + "\U{2026}"]) == result
            else
              && Progress(lines + [line], messages, i + 1, (remaining - (|line| + 1) as real).Floor) == result
              && Cost(lines + [line]) as real + (remaining - (|line| + 1) as real) == Cost(lines) as real + remaining
  {
    var line := SummaryLine(messages[i]);
    ProgressStep(lines, messages, i, remaining.Floor);
    FractionStep(line, remaining);
    CostAppend(lines, line);
  }

  /** The loop of the source. The characters used so far, newlines included, and `remaining` always
      add up to the budget. */
  method SummarizeLines(messages: seq<Message>, maxChars: real) returns (lines: seq<string>)
    ensures lines == SummaryLines(messages, 0, maxChars.Floor)
  {
    lines := [];
    var remaining := maxChars;
    ghost var result := SummaryLines(messages, 0, maxChars.Floor);
    for i := 0 to |messages|
      invariant Cost(lines) as real + remaining == maxChars
      invariant Progress(lines, messages, i, remaining.Floor) == result
    {
      var candidate := SummaryLine(messages[i]);
      LoopStep(lines, messages, i, remaining, result);
      if (|candidate| + 1) as real > remaining {
        var clipped := Piece(candidate, remaining);
        if clipped != "" {
          lines := lines + [clipped + "\U{2026}"];
        }
        return lines;
      }
      lines := lines + [candidate];
      remaining := remaining - (|candidate| + 1) as real;
    }
    ProgressDone(lines, messages, remaining.Floor);
  }

  method SummarizeMessages(messages: seq<Message>, maxChars: real) returns (summary: string)
    ensures summary == SummaryText(messages, maxChars.Floor)
  {
    if |messages| == 0 || maxChars <= 0.0 {
      return "";
    }
    var lines := SummarizeLines(messages, maxChars);
    BelowOne(messages, maxChars.Floor);
    return Join(lines, "\n");
  }

  /** A budget below one character leaves no line. */
  lemma BelowOne(messages: seq<Message>, maxChars: int)
    ensures messages != [] && maxChars >= 0 ==> Join(SummaryLines(messages, 0, maxChars), "\n") == SummaryText(messages, maxChars)
  {
    if messages != [] && maxChars == 0 {
      ClippedIsPrefix(SummaryLine(messages[0]), 0);
    }
  }

  lemma ClippedIsPrefix(line: string, remaining: int)
    requires line != "" && !Blank(line[0])
    requires |line| + 1 > remaining
    ensures Clipped(line, remaining) < line
    ensures Clipped(line, remaining) != "" ==> |Clipped(line, remaining)| <= remaining - 2
  {
    var cut := line[..Max(0, remaining - 2)];
    assert TrimStart(Blank, cut) == cut;
    TrimEndSplits(Blank, cut);
  }

  lemma JoinCons(line: string, lines: seq<string>)
    ensures |Join([line] + lines, "\n")| == |line| + if lines == [] then 0 else 1 + |Join(lines, "\n")|
  {
    assert ([line] + lines)[1..] == lines;
  }

  lemma {:induction false} SummaryLinesShorter(messages: seq<Message>, i: nat, remaining: int)
    requires i <= |messages| && remaining >= 0
    ensures SummaryLines(messages, i, remaining) != [] ==> |Join(SummaryLines(messages, i, remaining), "\n")| < remaining
    decreases |messages| - i
  {
    if i < |messages| {
      var line := SummaryLine(messages[i]);
      if |line| + 1 <= remaining {
        SummaryLinesShorter(messages, i + 1, remaining - (|line| + 1));
        JoinCons(line, SummaryLines(messages, i + 1, remaining - (|line| + 1)));
      } else {
        ClippedIsPrefix(line, remaining);
      }
    }
  }

  /** A summary is strictly shorter than a positive budget, whatever the messages. */
  lemma SummaryStrictlyShorter(messages: seq<Message>, maxChars: int)
    requires maxChars > 0
    ensures |SummaryText(messages, maxChars)| < maxChars
  {
    SummaryLinesShorter(messages, 0, maxChars);
  }

  /** The whole lines of the messages from `i` up to `k`. */
  function AllLines(messages: seq<Message>, i: nat, k: nat): seq<string>
    requires i <= k <= |messages|
    decreases k - i
  {
    if i == k then [] else [SummaryLine(messages[i])] + AllLines(messages, i + 1, k)
  }

  lemma CostOfLines(messages: seq<Message>, i: nat, k: nat)
    requires i < k <= |messages|
    ensures Cost(AllLines(messages, i, k)) == |SummaryLine(messages[i])| + 1 + Cost(AllLines(messages, i + 1, k))
  {
    assert AllLines(messages, i, k)[1..] == AllLines(messages, i + 1, k);
  }

  /** `piece` is a proper, non-empty start of the line of `message`. */
  ghost predicate IsPieceOf(piece: string, message: Message) {
    "" < piece < SummaryLine(message)
  }

  ghost function Ellipsis(piece: string): seq<string> {
    if piece == "" then [] else [piece + "\U{2026}"]
  }

  /** Where the line of message `kept` is cut: two characters before the end of the budget, or at its very start. */
  ghost function CutAt(messages: seq<Message>, i: nat, kept: nat, maxChars: int): nat
    requires i <= kept < |messages|
  {
    var cut := Max(0, maxChars - Cost(AllLines(messages, i, kept)) - 2);
    Min(cut, |SummaryLine(messages[kept])|)
  }

  /** The lines up to `kept` are whole and fit, one more would not; `piece` is what a clipped line shows. */
  ghost predicate IsSummary(lines: seq<string>, messages: seq<Message>, i: nat, maxChars: int, kept: nat, piece: string) {
    && i <= kept <= |messages|
    && Cost(AllLines(messages, i, kept)) <= maxChars
    && (kept < |messages| ==> Cost(AllLines(messages, i, kept + 1)) > maxChars)
    && (piece != "" ==> kept < |messages| && IsPieceOf(piece, messages[kept]))
    && (kept < |messages| ==> piece == Trim(Blank, SummaryLine(messages[kept])[..CutAt(messages, i, kept, maxChars)]))
    && lines == AllLines(messages, i, kept) + Ellipsis(piece)
  }

  lemma IsSummaryCons(lines: seq<string>, rest: seq<string>, messages: seq<Message>, i: nat, maxChars: int, kept: nat, piece: string)
    requires i < |messages|
    requires lines == [SummaryLine(messages[i])] + rest
    requires IsSummary(rest, messages, i + 1, maxChars - (|SummaryLine(messages[i])| + 1), kept, piece)
    ensures IsSummary(lines, messages, i, maxChars, kept, piece)
  {
    CostOfLines(messages, i, kept);
    ConcatAssociative([SummaryLine(messages[i])], AllLines(messages, i + 1, kept), Ellipsis(piece));
    if kept < |messages| {
      CostOfLines(messages, i, kept + 1);
    }
  }

  /** The summary holds the lines of the longest run of messages that fits the budget whole, then at
      most one more: a non-empty piece from the start of the next line, with an ellipsis. */
  lemma {:induction false} SummaryKeepsLongestPrefix(messages: seq<Message>, i: nat, maxChars: int) returns (kept: nat, piece: string)
    requires i <= |messages| && maxChars >= 0
    ensures IsSummary(SummaryLines(messages, i, maxChars), messages, i, maxChars, kept, piece)
    decreases |messages| - i
  {
    kept, piece := i, "";
    if i < |messages| {
      var line := SummaryLine(messages[i]);
      if |line| + 1 > maxChars {
        CostOfLines(messages, i, i + 1);
        ClippedIsPrefix(line, maxChars);
        piece := Clipped(line, maxChars);
      } else {
        var rest := maxChars - (|line| + 1);
        kept, piece := SummaryKeepsLongestPrefix(messages, i + 1, rest);
        IsSummaryCons(SummaryLines(messages, i, maxChars), SummaryLines(messages, i + 1, rest), messages, i, maxChars, kept, piece);
      }
    }
  }
}
