/** The two uses of the budget in `context/index.ts`: compiling a context, and cutting long tool results. */
module Compaction {
  import opened Options
  import opened Strings
  import opened Context
  import opened Integers

  // ---------------------------------------------------------------- choosing a length

  /** `sizes[k]` is how many characters a result takes that keeps the last `k` messages. */
  ghost predicate Ascending(sizes: seq<nat>) {
    forall i, j | 0 <= i <= j < |sizes| :: sizes[i] <= sizes[j]
  }

  /** Counting up: at least `least` messages, more while the size stays within the budget, and one
      more would exceed it. */
  ghost predicate IsKeptLength(sizes: seq<nat>, budget: int, least: nat, k: nat) {
    && least <= k < |sizes|
    && (k > least ==> sizes[k] <= budget)
    && (k + 1 < |sizes| ==> sizes[k + 1] > budget)
  }

  /** Counting down from `kept`: the first length whose size is within the limit, or the mandatory one. */
  ghost predicate IsFinalLength(sizes: seq<nat>, limit: int, mandatory: nat, kept: nat, final: nat) {
    && final <= kept < |sizes|
    && (final > mandatory ==> sizes[final] <= limit)
    && (final < kept ==> final >= mandatory && sizes[final + 1] > limit)
  }

  /** The kept length is the longest within the budget; when even the least one exceeds it, the kept
      length is exactly the least one. No other length qualifies. */
  lemma KeptIsLongest(sizes: seq<nat>, budget: int, least: nat, k: nat, other: nat)
    requires Ascending(sizes) && IsKeptLength(sizes, budget, least, k)
    requires other < |sizes|
    ensures sizes[other] <= budget ==> other <= k
    ensures sizes[k] <= budget <==> sizes[least] <= budget
    ensures sizes[k] > budget ==> k == least
    ensures IsKeptLength(sizes, budget, least, other) ==> other == k
  {
  }

  /** The final length is the longest within the limit that is not below the mandatory one. */
  lemma FinalIsLongest(sizes: seq<nat>, limit: int, mandatory: nat, kept: nat, final: nat, other: nat)
    requires Ascending(sizes) && IsFinalLength(sizes, limit, mandatory, kept, final)
    requires mandatory <= other <= kept
    ensures sizes[other] <= limit ==> other <= final
    ensures sizes[final] > limit <==> sizes[mandatory] > limit
    ensures sizes[final] > limit ==> final == mandatory
    ensures sizes[kept] <= limit ==> final == kept
  {
    if final < kept {
      assert sizes[final + 1] <= sizes[kept];
    }
  }

  // ---------------------------------------------------------------- putting the parts together

  /** The first part of a result: nothing when there is no summary. */
  function SummaryPart(summary: string): (part: string)
    ensures |part| == if summary == "" then 0 else 35 + |summary|
  {
    if summary == "" then "" else SUMMARY_HEADER + "\n" + summary
  }

  /** The non-empty parts, joined by a blank line. */
  function Compose(part: string, text: string): string {
    if part == "" then text
    else if text == "" then part
    else part + "\n\n" + text
  }

  lemma ComposeLength(part: string, text: string)
    ensures |Compose(part, text)| == |part| + (if part != "" && text != "" then 2 else 0) + |text|
    ensures EndsWith(Compose(part, text), text)
  {
    EndsWithSelf(if text != "" && part != "" then part + "\n\n" else part, text);
  }

  lemma EndsWithSelf(front: string, s: string)
    ensures EndsWith(front + s, s)
    ensures front == "" ==> front + s == s
    ensures s == "" ==> front + s == front
  {
  }

  function SizesUpTo(part: string, messages: seq<Message>, k: nat): (sizes: seq<nat>)
    requires k <= |messages|
    ensures |sizes| == k + 1
  {
    (if k == 0 then [] else SizesUpTo(part, messages, k - 1)) + [|Compose(part, SerializedTail(messages, k))|]
  }

  /** The length of the result for each number of messages that may be kept. */
  function ResultSizes(part: string, messages: seq<Message>): (sizes: seq<nat>)
    ensures |sizes| == |messages| + 1
  {
    SizesUpTo(part, messages, |messages|)
  }

  lemma {:induction false} SizesUpToAt(part: string, messages: seq<Message>, n: nat, k: nat)
    requires k <= n <= |messages|
    ensures SizesUpTo(part, messages, n)[k] == |Compose(part, SerializedTail(messages, k))|
  {
    if k < n {
      SizesUpToAt(part, messages, n - 1, k);
    }
  }

  lemma ResultSizeAt(part: string, messages: seq<Message>, k: nat)
    requires k <= |messages|
    ensures ResultSizes(part, messages)[k] == |Compose(part, SerializedTail(messages, k))|
  {
    SizesUpToAt(part, messages, |messages|, k);
  }

  /** Dropping messages from the front of the tail never lengthens the result. */
  lemma ResultSizesAscend(part: string, messages: seq<Message>)
    ensures Ascending(ResultSizes(part, messages))
  {
    var sizes := ResultSizes(part, messages);
    forall i, j | 0 <= i <= j < |sizes| ensures sizes[i] <= sizes[j] {
      SuffixEndsWith(messages, i, j);
      ComposeLength(part, SerializedTail(messages, i));
      ComposeLength(part, SerializedTail(messages, j));
      ResultSizeAt(part, messages, i);
      ResultSizeAt(part, messages, j);
    }
  }

  // ---------------------------------------------------------------- the tail that is kept

  function TailSizes(messages: seq<Message>): (sizes: seq<nat>)
    ensures |sizes| == |messages| + 1
  {
    ResultSizes("", messages)
  }

  lemma TailSizeAt(messages: seq<Message>, k: nat)
    requires k <= |messages|
    ensures TailSizes(messages)[k] == |SerializedTail(messages, k)|
  {
    ResultSizeAt("", messages, k);
  }

  lemma TailSizeZero(messages: seq<Message>)
    ensures TailSizes(messages)[0] == 0
  {
    TailSizeAt(messages, 0);
  }

  lemma TailSizeGrows(messages: seq<Message>, k: nat)
    requires k < |messages|
    ensures TailSizes(messages)[k + 1] ==
            TailSizes(messages)[k] + |Rendered(messages[|messages| - k - 1])| + if k > 0 then 2 else 0
  {
    TailGrows(messages, k);
    TailSizeAt(messages, k);
    TailSizeAt(messages, k + 1);
  }

  /** At least the last two messages stay. */
  ghost predicate IsTailLength(messages: seq<Message>, budget: int, k: nat) {
    IsKeptLength(TailSizes(messages), budget, Min(2, |messages|), k)
  }

  lemma SuffixGrows(messages: seq<Message>, k: nat)
    requires k < |messages|
    ensures [messages[|messages| - k - 1]] + Suffix(messages, k) == Suffix(messages, k + 1)
  {
  }

  /** The backwards loop of the source. */
  method KeepTail(messages: seq<Message>, tailBudget: int) returns (tailMessages: seq<Message>)
    ensures |tailMessages| <= |messages| && tailMessages == Suffix(messages, |tailMessages|)
    ensures IsTailLength(messages, tailBudget, |tailMessages|)
  {
    tailMessages := [];
    var tailChars := 0;
    var minTailMessages := Min(2, |messages|);
    ghost var sizes, k := TailSizes(messages), 0;
    TailSizeZero(messages);
    var index := |messages| - 1;
    while index >= 0
      invariant -1 <= index < |messages|
      invariant k == |tailMessages| == |messages| - 1 - index
      invariant tailMessages == Suffix(messages, k)
      invariant tailChars == sizes[k]
      invariant k > minTailMessages ==> tailChars <= tailBudget
    {
      var rendered := Rendered(messages[index]);
      var nextTailChars := tailChars + |rendered| + if |tailMessages| > 0 then 2 else 0;
      TailSizeGrows(messages, k);
      SuffixGrows(messages, k);
      if nextTailChars > tailBudget && |tailMessages| >= minTailMessages {
        break;
      }
      tailMessages := [messages[index]] + tailMessages;
      tailChars := nextTailChars;
      k := k + 1;
      index := index - 1;
    }
  }

  function MandatoryTail(messages: seq<Message>): nat {
    Max(1, Min(2, |messages|))
  }

  function SummaryOf(messages: seq<Message>, summaryBudget: int, kept: nat): string
    requires kept <= |messages|
  {
    SummaryText(messages[..|messages| - kept], summaryBudget)
  }

  datatype Budgets = Budgets(limit: int, tail: int, summary: int)

  function BudgetsOf(limit: int, summaryMaxChars: real): Budgets {
    Budgets(limit, TailBudget(limit), SummaryBudget(limit, summaryMaxChars))
  }

  /** The tail and the result around a given summary part. */
  ghost predicate IsFitted(messages: seq<Message>, budgets: Budgets, part: string, content: string, kept: nat, final: nat) {
    && IsTailLength(messages, budgets.tail, kept)
    && IsFinalLength(ResultSizes(part, messages), budgets.limit, MandatoryTail(messages), kept, final)
    && content == Compose(part, SerializedTail(messages, final))
  }

  /** What the summary strategy produces: the head is summarised by what the first loop left over, and
      `final` messages follow after the second loop. */
  ghost predicate IsCompacted(messages: seq<Message>, budgets: Budgets, content: string, kept: nat, final: nat) {
    && kept <= |messages|
    && IsFitted(messages, budgets, SummaryPart(SummaryOf(messages, budgets.summary, kept)), content, kept, final)
  }

  ghost predicate IsSummaryContent(messages: seq<Message>, budgets: Budgets, content: string) {
    if |SerializeMessages(messages)| <= budgets.limit then content == SerializeMessages(messages)
    else exists kept: nat, final: nat :: IsCompacted(messages, budgets, content, kept, final)
  }

  lemma SuffixDropsFirst(messages: seq<Message>, k: nat)
    requires 1 <= k <= |messages|
    ensures Suffix(messages, k)[1..] == Suffix(messages, k - 1)
  {
  }

  /** The result with a given tail. */
  method ComposeTail(part: string, messages: seq<Message>, tail: seq<Message>) returns (composed: string)
    requires |tail| <= |messages| && tail == Suffix(messages, |tail|)
    ensures composed == Compose(part, SerializedTail(messages, |tail|))
    ensures |composed| == ResultSizes(part, messages)[|tail|]
  {
    SerializeSuffix(messages, |tail|);
    ResultSizeAt(part, messages, |tail|);
    composed := Compose(part, SerializeMessages(tail));
  }

  /** The shrinking loop of the source, after a first result that does not fit. */
  method ShrinkTail(part: string, messages: seq<Message>, effectiveMaxChars: int, tailMessages: seq<Message>,
                    mandatoryTailCount: nat, ghost sizes: seq<nat>)
      returns (composed: string, reducedTail: seq<Message>)
    requires sizes == ResultSizes(part, messages)
    requires |tailMessages| < |sizes| && tailMessages == Suffix(messages, |tailMessages|)
    requires sizes[|tailMessages|] > effectiveMaxChars
    ensures |reducedTail| <= |messages|
    ensures IsFinalLength(sizes, effectiveMaxChars, mandatoryTailCount, |tailMessages|, |reducedTail|)
    ensures composed == Compose(part, SerializedTail(messages, |reducedTail|))
  {
    reducedTail := tailMessages;
    while |reducedTail| > mandatoryTailCount
      invariant |reducedTail| <= |tailMessages|
      invariant reducedTail == Suffix(messages, |reducedTail|)
      invariant sizes[|reducedTail|] > effectiveMaxChars
      invariant |reducedTail| < |tailMessages| ==>
                  |reducedTail| >= mandatoryTailCount && sizes[|reducedTail| + 1] > effectiveMaxChars
    {
      SuffixDropsFirst(messages, |reducedTail|);
      reducedTail := reducedTail[1..];
      composed := ComposeTail(part, messages, reducedTail);
      if |composed| <= effectiveMaxChars {
        return;
      }
    }
    composed := ComposeTail(part, messages, reducedTail);
  }

  /** The first result, and the shrinking loop when that does not fit. */
  method FitTail(part: string, messages: seq<Message>, budgets: Budgets, tailMessages: seq<Message>)
      returns (composed: string, ghost final: nat)
    requires |tailMessages| <= |messages| && tailMessages == Suffix(messages, |tailMessages|)
    requires IsTailLength(messages, budgets.tail, |tailMessages|)
    ensures IsFitted(messages, budgets, part, composed, |tailMessages|, final)
  {
    composed := ComposeTail(part, messages, tailMessages);
    final := |tailMessages|;
    if |composed| > budgets.limit {
      var reducedTail;
      composed, reducedTail := ShrinkTail(part, messages, budgets.limit, tailMessages, MandatoryTail(messages), ResultSizes(part, messages));
      final := |reducedTail|;
    }
  }

  method SummarizeHead(messages: seq<Message>, budget: int, tailMessages: seq<Message>) returns (part: string)
    requires |tailMessages| <= |messages|
    ensures part == SummaryPart(SummaryOf(messages, budget, |tailMessages|))
  {
    var headMessages := messages[..|messages| - |tailMessages|];
    var summary := SummarizeMessages(headMessages, budget as real);
    part := SummaryPart(summary);
  }

  /** The source's function, as the sequence of its steps. */
  method CompileSummaryContent(messages: seq<Message>, budgets: Budgets) returns (content: string)
    ensures IsSummaryContent(messages, budgets, content)
  {
    var raw := SerializeMessages(messages);
    if |raw| <= budgets.limit {
      return raw;
    }
    var tailMessages := KeepTail(messages, budgets.tail);
    var part := SummarizeHead(messages, budgets.summary, tailMessages);
    ghost var final;
    content, final := FitTail(part, messages, budgets, tailMessages);
    assert IsCompacted(messages, budgets, content, |tailMessages|, final);
  }

  // ---------------------------------------------------------------- what the result guarantees

  /** Overflow is reported exactly when the summary part and the last messages that must stay do not
      fit, and then nothing but those is left. */
  lemma OverflowIff(messages: seq<Message>, budgets: Budgets, part: string, content: string, kept: nat, final: nat)
    requires messages != []
    requires IsFitted(messages, budgets, part, content, kept, final)
    ensures |content| > budgets.limit <==>
            |Compose(part, SerializedTail(messages, Min(2, |messages|)))| > budgets.limit
    ensures |content| > budgets.limit ==> final == Min(2, |messages|)
  {
    var least := Min(2, |messages|);
    assert MandatoryTail(messages) == least;
    ResultSizesAscend(part, messages);
    ResultSizeAt(part, messages, final);
    ResultSizeAt(part, messages, least);
    FinalIsLongest(ResultSizes(part, messages), budgets.limit, least, kept, final, kept);
  }

  /** Whatever is dropped, the result ends with the last two messages verbatim. */
  lemma EndsWithLastMessages(messages: seq<Message>, budgets: Budgets, content: string)
    requires IsSummaryContent(messages, budgets, content)
    ensures EndsWith(content, SerializedTail(messages, Min(2, |messages|)))
  {
    var last := Min(2, |messages|);
    if |SerializeMessages(messages)| <= budgets.limit {
      assert Suffix(messages, |messages|) == messages;
      SuffixEndsWith(messages, last, |messages|);
    } else {
      var kept: nat, final: nat :| IsCompacted(messages, budgets, content, kept, final);
      var summary := SummaryOf(messages, budgets.summary, kept);
      ComposeLength(SummaryPart(summary), SerializedTail(messages, final));
      SuffixEndsWith(messages, last, final);
      EndsWithTransitive(content, SerializedTail(messages, final), SerializedTail(messages, last));
    }
  }

  /** The budgets of a limit of at least 448, for any summary limit. */
  ghost predicate Ample(budgets: Budgets) {
    budgets.summary > 0 && 36 + budgets.summary + budgets.tail <= budgets.limit
  }

  lemma AmpleFrom448(limit: int, summaryMaxChars: real)
    requires limit >= 448
    ensures Ample(BudgetsOf(limit, summaryMaxChars))
  {
    BudgetsFitIff(limit);
  }

  /** Before any shrinking, the result already fits: the summary is strictly below its budget. */
  lemma FirstResultFits(messages: seq<Message>, budgets: Budgets, kept: nat)
    requires Ample(budgets)
    requires kept <= |messages| && |SerializedTail(messages, kept)| <= budgets.tail
    ensures ResultSizes(SummaryPart(SummaryOf(messages, budgets.summary, kept)), messages)[kept] <= budgets.limit
  {
    SummaryStrictlyShorter(messages[..|messages| - kept], budgets.summary);
    ResultSizeAt(SummaryPart(SummaryOf(messages, budgets.summary, kept)), messages, kept);
    ComposeLength(SummaryPart(SummaryOf(messages, budgets.summary, kept)), SerializedTail(messages, kept));
  }

  /** With ample budgets, which an effective limit of 448 gives, compaction never overflows once the
      last two messages fit the tail budget, and the kept tail is not shrunk. */
  lemma NoOverflow(messages: seq<Message>, budgets: Budgets, content: string, kept: nat, final: nat)
    requires messages != []
    requires Ample(budgets)
    requires |SerializedTail(messages, Min(2, |messages|))| <= budgets.tail
    requires IsCompacted(messages, budgets, content, kept, final)
    ensures |content| <= budgets.limit
    ensures final == kept
  {
    var part := SummaryPart(SummaryOf(messages, budgets.summary, kept));
    ResultSizesAscend("", messages);
    KeptIsLongest(TailSizes(messages), budgets.tail, Min(2, |messages|), kept, kept);
    TailSizeAt(messages, kept);
    TailSizeAt(messages, Min(2, |messages|));
    FirstResultFits(messages, budgets, kept);
    ResultSizeAt(part, messages, final);
    ResultSizesAscend(part, messages);
    FinalIsLongest(ResultSizes(part, messages), budgets.limit, MandatoryTail(messages), kept, final, kept);
  }

  lemma SummaryContentFits(messages: seq<Message>, budgets: Budgets, content: string)
    requires Ample(budgets)
    requires |SerializedTail(messages, Min(2, |messages|))| <= budgets.tail
    requires IsSummaryContent(messages, budgets, content)
    ensures |content| <= budgets.limit
  {
    if |SerializeMessages(messages)| > budgets.limit {
      var kept: nat, final: nat :| IsCompacted(messages, budgets, content, kept, final);
      if messages != [] {
        NoOverflow(messages, budgets, content, kept, final);
      }
    }
  }

  function Plain(n: nat): (message: Message)
    ensures |message.content| == n
  {
    Message("user", seq(n, _ => 'x'), None, None, None)
  }

  lemma {:induction false} CollapseSolid(s: string)
    requires forall i | 0 <= i < |s| :: !Blank(s[i])
    ensures Collapse(s) == s
  {
    if s != "" {
      CollapseSolid(s[1..]);
    }
  }

  lemma TrimSolid(s: string)
    requires s != "" ==> !Blank(s[0]) && !Blank(s[|s| - 1])
    ensures Trim(Blank, s) == s
  {
  }

  lemma PlainLine(n: nat)
    ensures SummaryLine(Plain(n)) == "[" + "user" + "] " + Plain(n).content
  {
    CollapseSolid(Plain(n).content);
    TrimSolid(Plain(n).content);
  }

  lemma ClippedSolid(line: string, budget: int)
    requires 3 <= budget <= |line|
    requires !Blank(line[0]) && !Blank(line[budget - 3])
    ensures |Clipped(line, budget)| == budget - 2
  {
    TrimSolid(line[..budget - 2]);
  }

  lemma JoinOne(lines: seq<string>, line: string)
    requires lines == [line]
    ensures |Join(lines, "\n")| == |line|
  {
  }

  lemma ClippedSummary(message: Message, remaining: int)
    requires |SummaryLine(message)| + 1 > remaining > 0
    requires Clipped(SummaryLine(message), remaining) != ""
    ensures |SummaryText([message], remaining)| == |Clipped(SummaryLine(message), remaining)| + 1
  {
    JoinOne(SummaryLines([message], 0, remaining), Clipped(SummaryLine(message), remaining) + "\U{2026}");
  }

  /** One long message is clipped to a summary one character below its budget. */
  lemma PlainSummaryLength(n: nat, budget: int)
    requires 12 <= budget <= n
    ensures |SummaryText([Plain(n)], budget)| == budget - 1
  {
    PlainLine(n);
    var line := SummaryLine(Plain(n));
    assert |line| == 7 + n;
    assert line[budget - 3] == Plain(n).content[budget - 10];
    ClippedSolid(line, budget);
    ClippedSummary(Plain(n), budget);
  }

  /** A conversation that fills its budgets: a long head and a tail of two that is just within. */
  function Tight(limit: int): seq<Message>
    requires limit >= 256
  {
    [Plain(limit), Plain(TailBudget(limit) - 14), Plain(0)]
  }

  lemma TightTail(limit: int)
    requires limit >= 256
    ensures |SerializedTail(Tight(limit), 2)| == TailBudget(limit)
    ensures |SerializedTail(Tight(limit), 3)| == TailBudget(limit) + limit + 8
    ensures |SerializeMessages(Tight(limit))| > limit
  {
    var messages := Tight(limit);
    TailGrows(messages, 0);
    TailGrows(messages, 1);
    TailGrows(messages, 2);
    assert Suffix(messages, 0) == [];
    assert Suffix(messages, 3) == messages;
  }

  lemma TightOverflows(limit: int, summaryMaxChars: real)
    requires limit >= 256 && 36 + SummaryBudget(limit, summaryMaxChars) + TailBudget(limit) > limit
    ensures |Compose(SummaryPart(SummaryOf(Tight(limit), SummaryBudget(limit, summaryMaxChars), 2)), SerializedTail(Tight(limit), 2))| > limit
  {
    TightTail(limit);
    assert Tight(limit)[..1] == [Plain(limit)];
    PlainSummaryLength(limit, SummaryBudget(limit, summaryMaxChars));
    ComposeLength(SummaryPart(SummaryOf(Tight(limit), SummaryBudget(limit, summaryMaxChars), 2)), SerializedTail(Tight(limit), 2));
  }

  /** Where the budgets do not fit, this conversation meets the condition on its tail and overflows. */
  lemma TightBreaksLimit(limit: int, summaryMaxChars: real) returns (content: string)
    requires limit >= 256 && 36 + SummaryBudget(limit, summaryMaxChars) + TailBudget(limit) > limit
    ensures |SerializedTail(Tight(limit), 2)| <= TailBudget(limit)
    ensures IsSummaryContent(Tight(limit), BudgetsOf(limit, summaryMaxChars), content) && |content| > limit
  {
    TightTail(limit);
    TightOverflows(limit, summaryMaxChars);
    content := Compose(SummaryPart(SummaryOf(Tight(limit), SummaryBudget(limit, summaryMaxChars), 2)), SerializedTail(Tight(limit), 2));
    assert IsTailLength(Tight(limit), TailBudget(limit), 2);
    assert IsCompacted(Tight(limit), BudgetsOf(limit, summaryMaxChars), content, 2, 2);
  }

  /** No conversation whose last two messages are within the tail budget overflows. */
  ghost predicate NeverOverflows(limit: int, summaryMaxChars: real) {
    forall messages, content ::
      IsSummaryContent(messages, BudgetsOf(limit, summaryMaxChars), content)
      && |SerializedTail(messages, Min(2, |messages|))| <= TailBudget(limit)
      ==> |content| <= limit
  }

  /** For each limit and each summary limit: nothing overflows if and only if header, summary, separator and tail
      budget fit. */
  lemma NeverOverflowsIff(limit: int, summaryMaxChars: real)
    requires limit >= 256
    ensures NeverOverflows(limit, summaryMaxChars) <==>
            36 + SummaryBudget(limit, summaryMaxChars) + TailBudget(limit) <= limit
  {
    if 36 + SummaryBudget(limit, summaryMaxChars) + TailBudget(limit) <= limit {
      forall messages, content |
        IsSummaryContent(messages, BudgetsOf(limit, summaryMaxChars), content)
        && |SerializedTail(messages, Min(2, |messages|))| <= TailBudget(limit)
        ensures |content| <= limit {
        SummaryContentFits(messages, BudgetsOf(limit, summaryMaxChars), content);
      }
    } else {
      var content := TightBreaksLimit(limit, summaryMaxChars);
      assert |Tight(limit)| == 3 && Min(2, 3) == 2;
    }
  }

  /** Below 448 the guarantee fails for large summary limits: this conversation meets its condition and overflows. */
  lemma OverflowsBelow448(limit: int)
    requires 256 <= limit < 448
    ensures |SerializedTail(Tight(limit), 2)| <= TailBudget(limit)
    ensures exists content :: IsSummaryContent(Tight(limit), BudgetsOf(limit, 1000.0), content) && |content| > limit
  {
    assert SummaryBudget(limit, 1000.0) == Max(128, limit * 35 / 100);
    var content := TightBreaksLimit(limit, 1000.0);
  }

  // ---------------------------------------------------------------- the whole call

  datatype Stats = Stats(inputChars: nat, outputChars: nat, effectiveMaxChars: int, overflow: bool)

  datatype Compiled = Compiled(strategy: Strategy, content: string, stats: Stats, notes: Option<string>)

  const DISTILL_NOTE :=
    "Distill placeholder: strategy hook is wired but not implemented yet. Using raw assembly until distill implementation lands."

  /** Only the summary strategy compacts; the others serialise, and report overflow as it is. */
  method CompileContext(request: Request) returns (compiled: Compiled)
    ensures var limit := ResolveEffectiveMaxChars(request.maxChars, request.reserveChars);
            && compiled.strategy == request.strategy
            && compiled.stats == Stats(|SerializeMessages(request.messages)|, |compiled.content|, limit, |compiled.content| > limit)
            && compiled.notes == (if request.strategy.Distill? then Some(DISTILL_NOTE) else None)
            && (if request.strategy.Summary? then IsSummaryContent(request.messages, BudgetsOf(limit, request.summaryMaxChars), compiled.content)
                else compiled.content == SerializeMessages(request.messages))
    ensures EndsWith(compiled.content, SerializedTail(request.messages, Min(2, |request.messages|)))
    ensures request.strategy.Summary?
            && compiled.stats.effectiveMaxChars >= 448
            && |SerializedTail(request.messages, Min(2, |request.messages|))| <= TailBudget(compiled.stats.effectiveMaxChars)
            ==> !compiled.stats.overflow
  {
    var limit := ResolveEffectiveMaxChars(request.maxChars, request.reserveChars);
    var content := SerializeMessages(request.messages);
    var inputChars := |content|;
    if request.strategy == Summary {
      var budgets := BudgetsOf(limit, request.summaryMaxChars);
      content := CompileSummaryContent(request.messages, budgets);
      EndsWithLastMessages(request.messages, budgets, content);
      if limit >= 448 && |SerializedTail(request.messages, Min(2, |request.messages|))| <= TailBudget(limit) {
        AmpleFrom448(limit, request.summaryMaxChars);
        SummaryContentFits(request.messages, budgets, content);
      }
    } else {
      assert Suffix(request.messages, |request.messages|) == request.messages;
      SuffixEndsWith(request.messages, Min(2, |request.messages|), |request.messages|);
    }
    var notes := if request.strategy == Distill then Some(DISTILL_NOTE) else None;
    compiled := Compiled(request.strategy, content, Stats(inputChars, |content|, limit, |content| > limit), notes);
  }

  // ---------------------------------------------------------------- tool results

  const SUFFIX_LENGTH: nat := 89

  predicate IsToolResult(message: Message) {
    message.role == "tool" || message.kind == Some("tool-result")
  }

  predicate IsOversized(message: Message, limit: int) {
    IsToolResult(message) && |message.content| > limit
  }

  /** A limit that leaves no room for the notice switches truncation off. */
  function Truncated(message: Message, limit: int): Message {
    if limit <= SUFFIX_LENGTH || !IsOversized(message, limit) then
      message
    else
      message.(content := message.content[..Max(64, limit - SUFFIX_LENGTH)] + TOOL_TRUNCATION_SUFFIX)
  }

  function TruncatedAll(messages: seq<Message>, limit: int): seq<Message> {
    seq(|messages|, i requires 0 <= i < |messages| => Truncated(messages[i], limit))
  }

  function CountOversized(messages: seq<Message>, limit: int): nat {
    if messages == [] then 0
    else CountOversized(messages[..|messages| - 1], limit) + if IsOversized(messages[|messages| - 1], limit) then 1 else 0
  }

  /** What the source reports: nothing is counted when truncation is off. */
  function Counted(messages: seq<Message>, limit: int): nat {
    if limit <= SUFFIX_LENGTH then 0 else CountOversized(messages, limit)
  }

  lemma SuffixLength()
    ensures |TOOL_TRUNCATION_SUFFIX| == SUFFIX_LENGTH
  {
  }

  method TruncateOversizedToolResults(messages: seq<Message>, maxToolResultChars: int)
      returns (nextMessages: seq<Message>, truncatedCount: nat)
    ensures nextMessages == TruncatedAll(messages, maxToolResultChars)
    ensures truncatedCount == Counted(messages, maxToolResultChars)
  {
    SuffixLength();
    if maxToolResultChars <= |TOOL_TRUNCATION_SUFFIX| {
      assert TruncatedAll(messages, maxToolResultChars) == messages;
      return messages, 0;
    }
    truncatedCount := 0;
    nextMessages := [];
    for i := 0 to |messages|
      invariant nextMessages == TruncatedAll(messages[..i], maxToolResultChars)
      invariant truncatedCount == CountOversized(messages[..i], maxToolResultChars)
    {
      var message := messages[i];
      assert messages[..i + 1][..i] == messages[..i];
      if IsOversized(message, maxToolResultChars) {
        truncatedCount := truncatedCount + 1;
        var budget := Max(64, maxToolResultChars - |TOOL_TRUNCATION_SUFFIX|);
        message := message.(content := message.content[..budget] + TOOL_TRUNCATION_SUFFIX);
      }
      nextMessages := nextMessages + [message];
    }
    assert messages[..|messages|] == messages;
  }

  /** A truncated message is at most 153 characters long, or within the limit if that is larger; a
      second pass over it changes nothing. */
  lemma TruncationBound(message: Message, limit: int)
    requires limit > SUFFIX_LENGTH
    ensures var next := Truncated(message, limit);
            && (IsOversized(message, limit) ==> |next.content| == Max(SUFFIX_LENGTH + 64, limit))
            && (!IsOversized(message, limit) ==> next == message)
            && next == message.(content := next.content)
            && Truncated(next, limit) == next
  {
    SuffixLength();
    if IsOversized(message, limit) {
      var budget := Max(64, limit - SUFFIX_LENGTH);
      var next := Truncated(message, limit);
      assert next.content[..budget] == message.content[..budget];
    }
  }

  /** Only what a tool returned is cut, and only when it is longer than a limit above 89: it keeps its beginning, and
      the notice follows. */
  lemma TruncationMeans(message: Message, limit: int, notice: string)
    requires notice == "\n\n[tool result truncated to fit context budget; request narrower output for full details]"
    ensures limit > 89 && (message.role == "tool" || message.kind == Some("tool-result")) && |message.content| > limit ==>
              && Truncated(message, limit).content[..Max(64, limit - 89)] == message.content[..Max(64, limit - 89)]
              && Truncated(message, limit).content[Max(64, limit - 89)..] == notice
    ensures limit <= 89 || (message.role != "tool" && message.kind != Some("tool-result")) || |message.content| <= limit ==>
              Truncated(message, limit) == message
  {
    SuffixLength();
    if limit > 89 && IsOversized(message, limit) {
      var budget := Max(64, limit - 89);
      assert Truncated(message, limit).content == message.content[..budget] + notice;
    }
  }

  function LongResult(n: nat): Message {
    Message("tool", seq(n, _ => 'x'), Some("tool-result"), None, None)
  }

  /** A result one character too long: below 153 it stays oversized when it is cut, and below 152 it gets longer. */
  lemma CutResultTooLong(limit: int)
    requires SUFFIX_LENGTH < limit < SUFFIX_LENGTH + 64
    ensures IsOversized(Truncated(LongResult(limit + 1), limit), limit)
    ensures limit < SUFFIX_LENGTH + 63 ==> |Truncated(LongResult(limit + 1), limit).content| > |LongResult(limit + 1).content|
  {
    TruncationBound(LongResult(limit + 1), limit);
  }

  /** Every tool result ends up within the limit if and only if the limit leaves 64 characters beside
      the notice. Below that the result of the first pass is oversized again, and where truncation is off
      any long result stays. */
  lemma WithinLimitIff(limit: int)
    ensures limit >= SUFFIX_LENGTH + 64 <==> forall message :: !IsOversized(Truncated(message, limit), limit)
  {
    if limit >= SUFFIX_LENGTH + 64 {
      forall message ensures !IsOversized(Truncated(message, limit), limit) {
        TruncationBound(message, limit);
      }
    } else if limit > SUFFIX_LENGTH {
      CutResultTooLong(limit);
    } else {
      assert IsOversized(Truncated(LongResult(Max(0, limit + 1)), limit), limit);
    }
  }

  /** No message is lengthened if and only if truncation is off or the limit is at least 152. */
  lemma NeverLengthensIff(limit: int)
    ensures limit <= SUFFIX_LENGTH || limit >= SUFFIX_LENGTH + 63 <==>
            forall message :: |Truncated(message, limit).content| <= |message.content|
  {
    if limit <= SUFFIX_LENGTH || limit >= SUFFIX_LENGTH + 63 {
      forall message ensures |Truncated(message, limit).content| <= |message.content| {
        if limit > SUFFIX_LENGTH {
          TruncationBound(message, limit);
        }
      }
    } else {
      CutResultTooLong(limit);
    }
  }

  /** A second pass never changes a message; it counts none when the limit leaves room, and counts
      the same ones again when it does not. */
  lemma {:induction false} SecondPass(messages: seq<Message>, limit: int)
    ensures var next := TruncatedAll(messages, limit);
            && TruncatedAll(next, limit) == next
            && Counted(next, limit) == if limit >= SUFFIX_LENGTH + 64 then 0 else Counted(messages, limit)
  {
    var next := TruncatedAll(messages, limit);
    if limit > SUFFIX_LENGTH {
      forall i | 0 <= i < |messages| ensures Truncated(next[i], limit) == next[i] {
        TruncationBound(messages[i], limit);
      }
      if messages != [] {
        var front := messages[..|messages| - 1];
        SecondPass(front, limit);
        assert next[..|next| - 1] == TruncatedAll(front, limit);
        TruncationBound(messages[|messages| - 1], limit);
      }
    }
  }

  ghost function Changed(messages: seq<Message>, limit: int): set<nat> {
    set i: nat | i < |messages| && TruncatedAll(messages, limit)[i] != messages[i]
  }

  /** Where the limit leaves room, the count says how many messages differ afterwards. */
  lemma {:induction false} CountsTheChanged(messages: seq<Message>, limit: int)
    requires limit >= SUFFIX_LENGTH + 64
    ensures Counted(messages, limit) == |Changed(messages, limit)|
  {
    if messages != [] {
      var n := |messages| - 1;
      CountsTheChanged(messages[..n], limit);
      TruncationBound(messages[n], limit);
      var before := Changed(messages[..n], limit);
      forall i: nat | i < n ensures i in Changed(messages, limit) <==> i in before {
        assert messages[..n][i] == messages[i];
      }
      assert n !in before;
      assert Changed(messages, limit) == if IsOversized(messages[n], limit) then before + {n} else before;
    } else {
      assert Changed(messages, limit) == {};
    }
  }

  /** A result that has been cut to 153 characters and is cut again: it is counted and stays as it is. */
  lemma CountsTheUnchanged(limit: int)
    requires SUFFIX_LENGTH < limit < SUFFIX_LENGTH + 64
    ensures exists messages :: Counted(messages, limit) != |Changed(messages, limit)|
  {
    var message := Truncated(LongResult(limit + 1), limit);
    TruncationBound(LongResult(limit + 1), limit);
    assert IsOversized(message, limit) && Truncated(message, limit) == message;
    assert [message][..0] == [];
    assert CountOversized([message], limit) == CountOversized([], limit) + 1;
    assert Changed([message], limit) == {};
  }

  /** The count says how many messages differ afterwards, whatever the messages, if and only if truncation is
      off or the limit leaves room. */
  lemma CountsTheChangedIff(limit: int)
    ensures limit <= SUFFIX_LENGTH || limit >= SUFFIX_LENGTH + 64 <==>
            forall messages :: Counted(messages, limit) == |Changed(messages, limit)|
  {
    if limit <= SUFFIX_LENGTH {
      forall messages ensures Counted(messages, limit) == |Changed(messages, limit)| {
        assert Changed(messages, limit) == {};
      }
    } else if limit >= SUFFIX_LENGTH + 64 {
      forall messages ensures Counted(messages, limit) == |Changed(messages, limit)| {
        CountsTheChanged(messages, limit);
      }
    } else {
      CountsTheUnchanged(limit);
    }
  }
}
