# Verification model of Athena's core

This project models the parts of the repository whose behaviour is hardest to see from one function, and proves
what they keep. It is written in Dafny 4.11; `dafny verify dfyconfig.toml` checks all of it.

- **Schemas and strictness** (`Values`, `Schemas`, `Strictness`, `StrictnessExact`, `Strengthening`): the validator
  for a table of component schemas that may refer to each other in cycles, and the rewriting of that table before it
  is published. The validator is compared with an independent meaning, the full unfolding of references up to any
  depth; the rewriting with the base and the hint, each on its own.
- **Context compaction** (`Context`, `Compaction`, `SummaryContent`): fitting a conversation into a budget by
  summarising its head and keeping its tail, and the cutting of long tool results.
- **Lanes**: the text of an item (`ItemText`, `ItemRoundTrip`, `ItemSpills`, `ItemFrontmatter`, `ItemHistory`,
  `ItemNotes`, `ItemIds`); the queue in a lane's README (`LaneQueue`, `QueueLaws`, `QueueListing`, `QueueMeaning`,
  `QueueFormat`); how a line of either is read (`LinePatterns`); moves, runs of moves and stopped moves (`Lanes`,
  `LaneRuns`, `LaneHistory`, `LaneCrash`); the checker and the launcher that read the same files with other code
  (`WorkflowCheck`, `BoardAgreement`, `BoardMeaning`); and boards that meet the assumptions of the rest
  (`SmallBoard`).
- **Routes** (`Router`, `RouterMeaning`): the sorted route table and its scan.
- **Ids of a new agent** (`Scaffold`, `ScaffoldMeaning`), **task inputs** (`Inputs`), **live transcript**
  (`Transcript`).

`Options`, `Integers` and `Strings` hold what the others share.

Text is a sequence of characters: UTF-16 code units in TypeScript, code points in Python. Of the units of a surrogate
pair, which `char` does not have, only number and equality would count. An item's text is its list of lines between
line feeds, and a README is the list of lines that the tool splits it into. Patterns are written out as scanning
functions, so a `\s*` that runs on to the next line does so in the model too. The board of work items is a map from
lane and file name to text, with the READMEs beside it. A move is modelled as its five steps, and
`AfterSteps(w, p, k)` is the board after `k` of them.

Some properties that one might expect are false of the code. Each is stated with the exact condition under which it
holds, and with a lemma at an input where it fails:

- a strictness hint can loosen its base (`LooseHintWidens`; exact in `StringNarrowsIff` and `NumberNarrowsIff` and,
  where no `anyOf` is rewritten, for whole tables in `TableNarrowsIff` and `PublishNarrowsIff`);
- a cyclic component table accepts more than full unfolding (`CyclicTableAcceptsMore`; `AgreementIffAcyclic`);
- a summary can overflow below an effective limit of 448 (`OverflowsBelow448`; `NeverOverflowsIff`, `BudgetsFitIff`);
- cutting a tool result can leave it above the limit, or lengthen it, or be counted without a change
  (`CutResultTooLong`; `WithinLimitIff`, `NeverLengthensIff`, `CountsTheChangedIff`);
- a status is not read back when a blank value lets a substitution run on to a later line, or when the tool takes
  other lines for the status line (`EntryIsNotReadBack`, `StatusIsNotReadBack`, `EarlierMatchIsNotReadBack`;
  `UpdateReadsBackIff` for the metadata);
- neither is that of the frontmatter (`FieldIsNotReadBack`, `OverwrittenFieldIsNotReadBack`,
  `OverwrittenFenceIsNotReadBack`; `FrontmatterReadsBackIff`);
- a stopped move can leave the board in disorder, and can then not be repeated (`SmallWorldStopped`;
  `HealthyAtStepIff`, `RetryAtStep`);
- parsing inputs twice can give another result (`NullDefaultIsLost`; `ParseTwiceIff`);
- the order in which transcript entries arrive can show (`TwoOrdersDiffer`; `ArrivalOrderDoesNotShowIff`).

Lemmas named `…Means` say what a definition comes to on texts, lists and numbers, without the functions it is made of.

A board is *healthy* when each item states its id and, once, a status that is its lane's and that the frontmatter
does not contradict, no two items share an id, and each README lists exactly its lane's items once, numbered from 1,
in its own section. Runs start from a healthy board; a move in a run is about a `.md` file, and its note is a
single line.

## Model

| member | source | states |
|---|---|---|
| Schemas.ValidateSchema | packages/core/src/control-plane/api-schemas.ts:4682-4806 | returns no error exactly if the value is accepted (references cut by `seenRefs`; keyword by keyword in `AcceptsMeans`), otherwise one error at a place in the value where the schema that applies there really blames it, with the bound, list or key that this schema states; terminates on every table |
| Schemas.ValidateOptions | packages/core/src/control-plane/api-schemas.ts:4697-4704 | the `anyOf` loop finds no error exactly if some option accepts the value |
| Schemas.ValidateItems | packages/core/src/control-plane/api-schemas.ts:4750-4761 | the item loop finds no error exactly if the value is an array whose items are all accepted |
| Schemas.ValidateKeys | packages/core/src/control-plane/api-schemas.ts:4763-4773 | the required loop finds no error exactly if the value is an object that has all required keys |
| Schemas.ValidateProperties | packages/core/src/control-plane/api-schemas.ts:4775-4783 | the property loop finds no error exactly if every stated property that is there is accepted |
| Schemas.ValidateClosed | packages/core/src/control-plane/api-schemas.ts:4785-4791 | a closed object has no error exactly if it has no unstated key |
| Schemas.ValidateAdditional | packages/core/src/control-plane/api-schemas.ts:4793-4803 | the additional-property loop finds no error exactly if every unstated key's value is accepted |
| Schemas.AcceptsMeans | packages/core/src/control-plane/api-schemas.ts:4682-4806 | acceptance keyword by keyword: kind, length, membership, date and minimum of a leaf; items; required keys, closed keys, properties and additional values of an object; options; references |
| Schemas.AcceptsIffBlameless | packages/core/src/control-plane/api-schemas.ts:4682-4806 | a value is accepted if and only if no place in it has a fault of the schema that applies there |
| Schemas.BlamesMeans | packages/core/src/control-plane/api-schemas.ts:4697-4764 | what each fault says about the value, and that its bound or list is the one that the schema states |
| Schemas.BlamesKeyMeans | packages/core/src/control-plane/api-schemas.ts:4767-4791 | the same for a missing key and for one that is not allowed |
| Schemas.SeenMonotone | packages/core/src/control-plane/api-schemas.ts:4683-4704 | enlarging `seenRefs` never turns an accepted value into a rejected one, on any table |
| Schemas.NeverRejectsUnfolded | packages/core/src/control-plane/api-schemas.ts:4682-4806 | on any table, cyclic ones included, what full unfolding of references accepts is never rejected, whatever is already seen |
| Schemas.NeverRejectsAccepted | packages/core/src/control-plane/api-schemas.ts:4682-4806 | the same for every amount of fuel, where running out of it counts as a rejection |
| Schemas.UnfoldingAgrees | packages/core/src/control-plane/api-schemas.ts:4682-4704 | on an acyclic reference graph the validator accepts exactly what full unfolding accepts |
| Schemas.CyclicTableAcceptsMore | packages/core/src/control-plane/api-schemas.ts:4683-4687 | a cyclic table and a value that it accepts although unfolding rejects it at every depth from three on |
| Schemas.AgreementIffAcyclic | packages/core/src/control-plane/api-schemas.ts:4683-4694 | all tables with a given reference graph agree with full unfolding if and only if the graph has no cycle |
| Schemas.CycleAccepts | packages/core/src/control-plane/api-schemas.ts:4685-4687 | a component on a cycle whose schemas only offer their references accepts every value |
| Strictness.ApplyObjectPropertyStrictness | packages/core/src/control-plane/api-schemas.ts:4598-4610 | the loop strengthens each base property by the hint of its name, drops none and adds none; what strengthening comes to is in `StrengthenedText`, `StrengthenedNumber`, `StrengthenedItems`, `StrengthenedChoice` and `StrengthenedObject` |
| Strengthening.StrengthenedText | packages/core/src/control-plane/api-schemas.ts:4622-4636 | a strengthened string asks for each keyword as the hint states it, and as the base states it where the hint does not |
| Strengthening.StrengthenedNumber | packages/core/src/control-plane/api-schemas.ts:4637-4646 | so it is with the minimum of a number or an integer |
| Strengthening.UnhintedStays | packages/core/src/control-plane/api-schemas.ts:4541-4595 | without a hint, with a reference on either side, or with a hint of another kind or number of options, the base stays |
| Strengthening.StrengthenedItems | packages/core/src/control-plane/api-schemas.ts:4562-4570 | a strengthened array accepts exactly the arrays whose items the strengthened items' schema accepts |
| Strengthening.StrengthenedChoice | packages/core/src/control-plane/api-schemas.ts:4549-4556 | a strengthened choice accepts exactly what some option, strengthened by the hint's option of the same place, accepts |
| Strengthening.StrengthenedObject | packages/core/src/control-plane/api-schemas.ts:4572-4620 | a strengthened object keeps required keys and closure; every property and every additional value meets its strengthened schema |
| Strengthening.HintIsMet | packages/core/src/control-plane/api-schemas.ts:4540-4646 | what the strengthened schema accepts, the hint alone accepts, at every depth, if the hint speaks only of places that the base describes |
| Strengthening.BothAreEnough | packages/core/src/control-plane/api-schemas.ts:4540-4646 | what base and hint both accept, the strengthened schema accepts |
| Strengthening.StrengthenedIsBoth | packages/core/src/control-plane/api-schemas.ts:4540-4646 | a hint that also loosens no leaf makes the strengthened schema accept exactly what both of them accept |
| Strengthening.PublishedMeans | packages/core/src/control-plane/api-schemas.ts:2057-2067 | a published name stands for its generated component with its hint, and else for the component written by hand |
| Strengthening.PublishedMeetsHint | packages/core/src/control-plane/api-schemas.ts:2057-2067 | what the published table accepts under the name of a generated component meets the hint of that name |
| Strictness.StringNarrowsIff | packages/core/src/control-plane/api-schemas.ts:4627-4635 | for every date parser, a string hint narrows its base if and only if the listed texts that are left are allowed by the base, or without a list the least length is no smaller, or no date has a length between the two |
| Strictness.NumberNarrowsIff | packages/core/src/control-plane/api-schemas.ts:4637-4643 | a numeric hint narrows its base if and only if its minimum is no lower than one the base states |
| Strictness.LeafNarrows | packages/core/src/control-plane/api-schemas.ts:4622-4646 | what a strengthened leaf accepts, the leaf itself accepts, if the hint tightens it |
| Strictness.StrictnessNarrows | packages/core/src/control-plane/api-schemas.ts:4540-4646 | for every schema, value and set of seen references: what the strengthened schema accepts in the strengthened table, the original accepts in the original table |
| Strictness.PublishNarrows | packages/core/src/control-plane/api-schemas.ts:2057-2067 | the published table accepts no more than the table it is built from, if every hint tightens its component |
| Strictness.LooseHintWidens | packages/core/src/control-plane/api-schemas.ts:4637-4643 | a hint that lowers a minimum makes the published table accept a value that the original one rejects |
| Strictness.StrictnessKeepsMentions | packages/core/src/control-plane/api-schemas.ts:4540-4646 | strengthening neither adds nor drops a reference |
| Strictness.PublishKeepsGraph | packages/core/src/control-plane/api-schemas.ts:2057-2067 | the published table has the reference graph of the table it is built from |
| Strictness.StrictnessIdempotent | packages/core/src/control-plane/api-schemas.ts:4540-4646 | applying the same hint twice is applying it once |
| Strictness.PublishedImpliesUnfolded | packages/core/src/control-plane/api-schemas.ts:2057-2067 | on an acyclic table, what the validator accepts against the published table is accepted by full unfolding of the published and of the original table |
| StrictnessExact.LeafNarrowsIff | packages/core/src/control-plane/api-schemas.ts:4622-4646 | a leaf narrows, for values of every kind, if and only if the hint tightens it |
| StrictnessExact.ArrayNarrowsIff | packages/core/src/control-plane/api-schemas.ts:4562-4570 | an array schema narrows if and only if its items' schema does |
| StrictnessExact.ObjectNarrowsIff | packages/core/src/control-plane/api-schemas.ts:4572-4593 | an object schema narrows if and only if all its properties and its additional properties do, or nothing satisfies it |
| StrictnessExact.NarrowsIff | packages/core/src/control-plane/api-schemas.ts:4540-4646 | where the table narrows, a hint that rewrites no `anyOf` narrows a schema if and only if it loosens no leaf outside of objects that nothing satisfies |
| StrictnessExact.TableNarrowsIff | packages/core/src/control-plane/api-schemas.ts:4540-4646 | a table rewritten by any hints that touch no `anyOf` accepts no more than before, for all values, schemas and components that can be seen, if and only if no hint loosens a leaf that counts |
| StrictnessExact.PublishNarrowsIff | packages/core/src/control-plane/api-schemas.ts:2057-2067 | the same for the published table |
| StrictnessExact.OptionHidesLoosening | packages/core/src/control-plane/api-schemas.ts:4549-4556 | with `anyOf` the leaves do not decide: a hint that loosens one option and still narrows |
| Context.BudgetsFitIff | packages/core/src/context/index.ts:117-138 | the summary part, its separator and the tail fit the limit for every summary limit if and only if the limit is at least 448 |
| Context.SerializedIsJoined | packages/core/src/context/index.ts:107-109 | a serialised conversation is its rendered messages joined by blank lines |
| SummaryContent.SerializeMeans | packages/core/src/context/index.ts:107-109 | one message is its role, a colon and its content; two parts of a conversation are their texts with a blank line between |
| SummaryContent.EffectiveMeans | packages/core/src/context/index.ts:206-210 | the limit is maximum less reserve, with 1024, 0 and 256 as least maximum, reserve and limit |
| SummaryContent.BudgetsMean | packages/core/src/context/index.ts:117-138 | the tail budget is 55 of 100 characters and at least 256, the summary budget 35 of 100, or its own limit if smaller, and at least 128 |
| Context.SummarizeLines | packages/core/src/context/index.ts:186-202 | the loop pushes whole lines while they fit, then at most one clipped line; characters used and remaining always add up to the budget, and of a fractional budget only the integer part counts |
| Context.SummarizeMessages | packages/core/src/context/index.ts:181-204 | the summary is those lines joined, and nothing for no messages or no budget |
| Context.SummaryStrictlyShorter | packages/core/src/context/index.ts:181-204 | the summary is strictly shorter than a positive budget, the clipped line and its ellipsis included |
| Context.SummaryKeepsLongestPrefix | packages/core/src/context/index.ts:188-202 | the summary holds the lines of the longest run of messages that fits whole, and at most a non-empty piece of the next line |
| SummaryContent.LineMeans | packages/core/src/context/index.ts:189 | a summary line is the role in brackets and the content with its white space collapsed and trimmed |
| SummaryContent.CollapseBetween | packages/core/src/context/index.ts:189 | every run of white space becomes one space, and nothing else changes |
| Compaction.KeepTail | packages/core/src/context/index.ts:118-135 | the backwards loop keeps a suffix of the messages: at least the last two, more while they fit the tail budget, and one more would not |
| Compaction.KeptIsLongest | packages/core/src/context/index.ts:123-135 | the kept tail is the longest suffix within the budget, or exactly the least one if even that exceeds it; no other length qualifies |
| Compaction.ShrinkTail | packages/core/src/context/index.ts:154-178 | the shrinking loop drops messages from the front until the result fits or only the mandatory ones are left |
| Compaction.FinalIsLongest | packages/core/src/context/index.ts:155-168 | the final tail is the longest part of the kept one whose result fits, and if none fits exactly the mandatory one |
| Compaction.ResultSizesAscend | packages/core/src/context/index.ts:155-168 | dropping a message from the front of the tail never lengthens the result |
| Compaction.CompileSummaryContent | packages/core/src/context/index.ts:111-179 | returns the raw messages if they fit, and otherwise the summary of the head and the tail as the two loops leave them; what stands in it is in `SummaryContentMeans` |
| SummaryContent.SummaryContentMeans | packages/core/src/context/index.ts:111-179 | over the limit, the result is the header, the lines of all messages before the kept tail as far as the budget goes, with the next one cut, a blank line and the last messages word for word; the kept tail is the longest within its budget, and what follows the longest with which the result fits, both of at least two messages |
| Compaction.CompileContext | packages/core/src/context/index.ts:34-79 | each strategy's content and notes, the size statistics, and overflow exactly if the content exceeds the effective limit |
| Compaction.OverflowIff | packages/core/src/context/index.ts:149-178 | a compacted result overflows exactly if the summary part and the last messages that must stay do not fit, and then nothing but those is left |
| Compaction.EndsWithLastMessages | packages/core/src/context/index.ts:111-179 | every result ends with the last two messages verbatim, or with the only one |
| Compaction.AmpleFrom448 | packages/core/src/context/index.ts:117-138 | an effective limit of 448 or more leaves room for header, summary, separator and tail budget, for any summary limit |
| Compaction.NoOverflow | packages/core/src/context/index.ts:111-152 | with that room and the last two messages within the tail budget, the result fits and the kept tail is not shrunk |
| Compaction.SummaryContentFits | packages/core/src/context/index.ts:111-179 | the same for whatever the function returns, compacted or raw |
| Compaction.NeverOverflowsIff | packages/core/src/context/index.ts:117-178 | for each limit and each summary limit: no conversation whose last two messages are within the tail budget overflows if and only if header, summary budget, separator and tail budget fit |
| Compaction.OverflowsBelow448 | packages/core/src/context/index.ts:117-178 | for every limit from 256 to 447 there is a conversation within its tail budget that overflows: 448 is the least bound for all summary limits |
| Compaction.TruncateOversizedToolResults | packages/core/src/context/index.ts:81-105 | the messages with each oversized tool result cut, and how many there were; nothing changes for limits within the suffix length |
| Compaction.TruncationBound | packages/core/src/context/index.ts:81-105 | a cut result is within the limit, or within suffix length plus 64 for a smaller limit; no other message changes |
| Compaction.TruncationMeans | packages/core/src/context/index.ts:81-105 | only a tool's result longer than a limit above 89 is cut: it keeps its beginning and the notice follows; everything else stays |
| Compaction.WithinLimitIff | packages/core/src/context/index.ts:81-105 | every tool result ends up within the limit, for all messages, if and only if the limit is at least 153 |
| Compaction.NeverLengthensIff | packages/core/src/context/index.ts:81-105 | no message is ever lengthened if and only if the limit is at most 89 or at least 152 |
| Compaction.SecondPass | packages/core/src/context/index.ts:81-105 | a second pass changes no message, for every limit; it counts none from 153 on, and below that it counts the cut ones again |
| Compaction.CutResultTooLong | packages/core/src/context/index.ts:97-100 | below 153 a long result is still oversized after it was cut, and below 152 it is longer than before |
| Compaction.CountsTheChanged | packages/core/src/context/index.ts:89-104 | from 153 on the count is the number of messages that changed |
| Compaction.CountsTheChangedIff | packages/core/src/context/index.ts:85-104 | the count is the number of messages that changed, for all messages, if and only if the limit is at most 89 or at least 153 |
| Router.CompareCompiledRoutes | packages/core/src/api/router.ts:62-95 | the loop computes the order by method, then segment by segment with literals before parameters and longer before shorter, then by path |
| RouterMeaning.AsciiMeans | packages/core/src/api/router.ts:97-102 | texts are compared at the first character in which they differ, and a beginning of another text comes before it |
| RouterMeaning.SegmentsMean | packages/core/src/api/router.ts:71-93 | patterns are compared at the first segment in which they differ: the longer one first, a literal before a parameter, else by their texts |
| RouterMeaning.RoutesMean | packages/core/src/api/router.ts:62-95 | the verb decides first, then the segments, then the path |
| Router.RoutesReversed | packages/core/src/api/router.ts:62-102 | the order is antisymmetric and total: swapping the routes swaps the answer, and only the same method and path compare as equal |
| Router.RoutesTransitive | packages/core/src/api/router.ts:62-102 | the order is transitive |
| Router.SortSorts | packages/core/src/api/router.ts:27-34 | compiling keeps all routes and puts them in order |
| Router.MatchPath | packages/core/src/api/router.ts:108-135 | a path matches exactly if it has as many segments and each is the literal or stands for a named parameter; the parameters are what it has there |
| RouterMeaning.MatchesMeans | packages/core/src/api/router.ts:108-132 | pattern and path match if they have equally many segments, none empty, and each of the pattern is a colon with a name or the path's own text |
| RouterMeaning.ParamsMean | packages/core/src/api/router.ts:114-128 | the names that the pattern has are the parameters, and no others |
| RouterMeaning.ParamMeans | packages/core/src/api/router.ts:120-127 | each stands for the text at the last place of its name |
| Router.APIRouter.FindMatch | packages/core/src/api/router.ts:36-50 | the scan of the sorted routes returns the least answering route of the unsorted table, with its parameters |
| RouterMeaning.AnswerMeans | packages/core/src/api/router.ts:36-50 | nothing is found exactly if no registered route has the verb and matches the path; what is found has and does, no other such route comes before it, and its parameters are those of the path |
| Router.FirstIsLeast | packages/core/src/api/router.ts:27-50 | the first hit in the sorted table is the least answering route of the unsorted one |
| Router.LeastMeans | packages/core/src/api/router.ts:27-50 | that route answers, none that answers comes before it in the order, and it is the first registered among equals; there is none exactly if no route answers |
| Router.OrderIndependent | packages/core/src/api/router.ts:27-50 | with distinct methods and paths the answer does not depend on the order of registration |
| Router.WinnerAtFirstDifference | packages/core/src/api/router.ts:71-91 | of two patterns that match a path, the one with the literal at the first difference wins, or the one with the smaller parameter name |
| Router.EarlierNameBeatsLaterLiteral | packages/core/src/api/router.ts:82-91 | an earlier parameter name beats a literal further on |
| Router.SubstituteRebuildsIff | packages/core/src/api/router.ts:108-135 | putting the parameters back into the pattern gives the path's segments if and only if parameters of the same name stand for the same text, as distinct names always do |
| Router.SplitPathAtSlash | packages/core/src/api/router.ts:104-106 | leading, trailing and repeated slashes do not change the segments |
| RouterMeaning.SplitPathWithoutSlash | packages/core/src/api/router.ts:104-106 | a text without slash is one segment, or none if it is empty |
| ItemSpills.StatusReadsBackIff | flywheel/tools/lib/flywheel_state.py:95-98 | after the first substitution the checker reads the new status, other than the old one, if and only if the tool's first match is the checker's status line and the old value stands on it |
| ItemSpills.UpdateReadsBackIff | flywheel/tools/lib/flywheel_state.py:95-108 | after the whole update it does if and only if, besides, the frontmatter's blank status does not run on into that line |
| ItemSpills.FrontEffect | flywheel/tools/lib/flywheel_state.py:99-108 | the second substitution leaves the metadata status alone unless it writes on that very line, and then the status is lost |
| ItemSpills.FieldReadsBackIff | flywheel/tools/lib/flywheel_state.py:99-108 | after the second substitution alone, the frontmatter reads back the new status if and only if its old value stands on the line of its key |
| ItemSpills.StatusIsNotReadBack | flywheel/tools/lib/flywheel_state.py:95-108 | a blank frontmatter status right above the metadata status, which is overwritten |
| ItemSpills.EntryIsNotReadBack | flywheel/tools/lib/flywheel_state.py:95-98 | a blank metadata status right above another metadata line, which is overwritten |
| ItemSpills.EarlierMatchIsNotReadBack | flywheel/tools/lib/flywheel_state.py:95-98 | a lone dash above a key without one, which the tool takes for the status line |
| ItemFrontmatter.FrontmatterReadsBackIff | flywheel/tools/lib/flywheel_state.py:95-108 | after the whole update the frontmatter, whose one status starts with the key, reads back the new status if and only if the first substitution does not write on that status and, where it leaves the closing fence alone, the value stands on its line, or else a later line closes the frontmatter and the last status in it is the new one |
| ItemFrontmatter.IndentedFieldIsNotReadBack | flywheel/tools/lib/flywheel_state.py:101-106 | a frontmatter whose one status is indented does not read back another one, as long as its closing fence is not overwritten |
| ItemFrontmatter.FieldIsNotReadBack | flywheel/tools/lib/flywheel_state.py:95-108 | a blank frontmatter status right above another field, which is overwritten |
| ItemFrontmatter.OverwrittenFieldIsNotReadBack | flywheel/tools/lib/flywheel_state.py:95-108 | a blank metadata status right above the frontmatter's, which is overwritten |
| ItemFrontmatter.OverwrittenFenceIsNotReadBack | flywheel/tools/lib/flywheel_state.py:95-108 | a blank metadata status right above the closing fence, which is overwritten |
| ItemIds.IdsAgree | flywheel/tools/lib/flywheel_state.py:56-58 | the id that the tool finds an item by is the one that the checker reads, if it is stated once, on its line |
| ItemIds.NewTextKeepsId | flywheel/tools/lib/flywheel_state.py:258-263 | a move keeps that id for both of them |
| ItemRoundTrip.UpdateReadsBack | flywheel/tools/lib/flywheel_state.py:95-108 | of an item whose status is stated once, metadata and frontmatter read back the new lane, all other keys are unchanged, and the item can be updated again |
| ItemRoundTrip.CleanStatus | flywheel/tools/lib/validate_workflow_state.py:42-51 | the checker's status of such an item is the value of its one status line |
| ItemNotes.UpdatedLines | flywheel/tools/lib/flywheel_state.py:95-108 | changing the status of such an item rewrites the value on its status line and at most lines of the frontmatter that start with the status key; every other line stays |
| ItemHistory.AppendReadsBack | flywheel/tools/lib/flywheel_state.py:111-122 | a one-line note adds the entry of its time stamp and changes nothing else that the checker reads |
| ItemNotes.NoteReads | flywheel/tools/lib/flywheel_state.py:111-116 | the checker reads the note as the entry of its time stamp: from lane, arrow, to lane, the actor if there is one, the reason if there is one |
| ItemNotes.MoveIsRecorded | flywheel/tools/lib/flywheel_state.py:256-262 | a move with history gives the metadata the new status and, under its time stamp, from which lane to which the item went, by whom and why, and changes no other key |
| ItemNotes.RStripText | flywheel/tools/lib/flywheel_state.py:121 | stripping the lines is stripping the text |
| ItemNotes.AppendedText | flywheel/tools/lib/flywheel_state.py:111-122 | the text loses its trailing blanks and gains the note on lines of its own, under a new heading exactly if it does not hold the heading anywhere |
| ItemNotes.HistoryHeading | flywheel/tools/lib/flywheel_state.py:118-122 | no heading is lost; one is added exactly if the text did not mention any, and then it is the only one and stands right above the note |
| ItemNotes.NoteIsNoHeading | flywheel/tools/lib/flywheel_state.py:111-116 | a note of the tool is never taken for the heading |
| LinePatterns.MetaLineReads | flywheel/tools/lib/validate_workflow_state.py:14-48 | a dash between blanks, a key in backticks, a colon and a value are read as the key and its stripped value |
| LinePatterns.MetaLineOnly | flywheel/tools/lib/validate_workflow_state.py:14-48 | no other line is read |
| LinePatterns.MetadataMeans | flywheel/tools/lib/validate_workflow_state.py:42-51 | the keys are those of the lines that are read, each with the value of its last line |
| LinePatterns.ClosingFenceMeans | flywheel/tools/lib/validate_workflow_state.py:16-61 | frontmatter starts on the first line and ends at the next line of three dashes that is neither the second nor the last one |
| LinePatterns.FieldReads | flywheel/tools/lib/validate_workflow_state.py:63-67 | a frontmatter line is split at its first colon, and without one it is not read |
| LinePatterns.FrontmatterKeys | flywheel/tools/lib/validate_workflow_state.py:54-68 | the keys of the frontmatter are those of the lines between its fences |
| LinePatterns.FrontmatterValue | flywheel/tools/lib/validate_workflow_state.py:54-68 | each has the value of its last line |
| LaneQueue.LaneReadme.RenumberSection | flywheel/tools/lib/flywheel_state.py:148-157 | the first loop numbers the items of the section from 1 and leaves all other lines |
| LaneQueue.LaneReadme.DropMessages | flywheel/tools/lib/flywheel_state.py:160-168 | deleting from the last line up removes exactly the message lines of the section |
| LaneQueue.LaneReadme.NormalizeQueueSection | flywheel/tools/lib/flywheel_state.py:148-171 | the section becomes its numbered items without messages, or the empty message |
| LaneQueue.LaneReadme.RemoveQueueItem | flywheel/tools/lib/flywheel_state.py:174-180 | removes every line that names the item, in the whole file, and tells whether there was one |
| LaneQueue.LaneReadme.AddQueueItem | flywheel/tools/lib/flywheel_state.py:183-191 | puts the item behind the last line of the section that is not blank, unless the section names it; `AddParts` says so without the function that finds the place |
| LaneQueue.LaneReadme.EnsureQueueSection | flywheel/tools/lib/flywheel_state.py:194-202 | appends the section to a file that has none |
| LaneQueue.LaneReadme.Update | flywheel/tools/lib/flywheel_state.py:205-230 | what one edit leaves of the file, without trailing blanks |
| QueueLaws.PartsFound | flywheel/tools/lib/flywheel_state.py:136-145 | the section that is found is the one from the first line that reads as its heading to the next section |
| QueueLaws.NormalizeIdempotent | flywheel/tools/lib/flywheel_state.py:148-171 | the normalised section is found again, and normalising it again changes nothing |
| QueueLaws.QueueOfNormalBody | flywheel/tools/lib/flywheel_state.py:148-171 | normalising numbers the items from 1 and keeps their names and their order |
| QueueMeaning.NormalWithoutItems | flywheel/tools/lib/flywheel_state.py:170-171 | a section without items becomes its message between two blank lines |
| QueueMeaning.NormalWithItems | flywheel/tools/lib/flywheel_state.py:148-157 | with items and no message, every line stays where it is, and each item gets the number of items down to it |
| QueueMeaning.NormalDropsMessage | flywheel/tools/lib/flywheel_state.py:159-168 | a message line among items goes, and nothing else changes with it |
| QueueListing.RemoveParts | flywheel/tools/lib/flywheel_state.py:221-228 | removing takes away every line that names the item, wherever it is, and normalises the section if there was one |
| QueueListing.RemoveInside | flywheel/tools/lib/flywheel_state.py:221-228 | if only the section names the item, no line outside the section changes |
| QueueListing.RemoveWithoutSection | flywheel/tools/lib/flywheel_state.py:221-224 | without a section the lines that name the item go, and nothing is normalised |
| QueueListing.AddParts | flywheel/tools/lib/flywheel_state.py:215-220 | adding rewrites the body of the section and no line outside it; whether the item is there already is asked of the section alone; a new item stands behind the last line of the section that is not blank |
| QueueMeaning.AddToNewSection | flywheel/tools/lib/flywheel_state.py:194-220 | in a file without the section the item comes to the end under a new heading, numbered 1, with a blank line in front of the heading |
| QueueListing.AfterRemoveListed | flywheel/tools/lib/flywheel_state.py:205-230 | a file that lists names in order, numbered from 1 in its own section, lists them without the removed one, in the same way |
| QueueListing.AfterAddListed | flywheel/tools/lib/flywheel_state.py:205-230 | it lists them with the added one at the end, in the same way, also if the section had to be made |
| QueueListing.AddThenRemoveNormalizes | flywheel/tools/lib/flywheel_state.py:174-224 | adding an absent item and removing it gives the normalised file |
| QueueListing.AddThenRemoveIff | flywheel/tools/lib/flywheel_state.py:174-224 | it gives back the lines if and only if they were normalised, empty section or not |
| QueueFormat.SectionFormatLawful | flywheel/tools/lib/flywheel_state.py:19-40 | items, headings, messages and blank lines are told apart; a number can be replaced without touching the rest; trailing blanks do not matter |
| QueueFormat.ReadBack | flywheel/tools/lib/flywheel_state.py:148-156 | a line written as an item is read as the same indent, number, name and rest |
| QueueFormat.SafeNameIsName | flywheel/tools/lib/flywheel_state.py:125-129 | a file name without backtick, slash or line break is read back from the line that lists it |
| LinePatterns.ItemIff | flywheel/tools/lib/flywheel_state.py:23 | a line is an item exactly if it is blanks, digits, a dot, blanks, a text in backticks, and a rest |
| LinePatterns.ItemReadsAs | flywheel/tools/lib/flywheel_state.py:125-129 | it is read as its digits, that text and the name of the path in it |
| LinePatterns.NumberedAs | flywheel/tools/lib/flywheel_state.py:151-155 | it is numbered anew with one blank behind the dot, and its indent, text and rest stay |
| LinePatterns.PathNameMeans | flywheel/tools/lib/flywheel_state.py:125-129 | the name of a path is the last piece between its slashes that is neither empty nor a dot |
| LinePatterns.KindMeans | flywheel/tools/lib/flywheel_state.py:136-163 | headings, section lines, messages and blank lines by their characters |
| Strings.DecimalMeans | flywheel/tools/lib/flywheel_state.py:151-155 | a printed number is read back as itself and has no digit too many |
| Lanes.Workspace.UpdateLaneReadme | flywheel/tools/lib/flywheel_state.py:205-230 | edits the README of one lane if there is one, and nothing else |
| Lanes.Workspace.MoveItem | flywheel/tools/lib/flywheel_state.py:244-270 | decides by the checks in their order (`RefusedFor`, `DecidedBy`), and takes the five steps; a refused move changes no file; the text it writes is in `MoveIsRecorded` and `UpdatedLines` |
| BoardMeaning.RefusedFor | flywheel/tools/lib/flywheel_state.py:61-92 | a move is refused exactly if its argument means no file of the lane, or more than one, by name, by name without extension, or by id |
| BoardMeaning.DecidedBy | flywheel/tools/lib/flywheel_state.py:251-260 | when it means one, the free name in the target lane and then a status in the text decide, in this order |
| LaneRuns.NewTextIsGood | flywheel/tools/lib/flywheel_state.py:258-263 | a good item can always be moved, and its new text is good in the new lane and has the same id |
| LaneRuns.MoveKeepsHealth | flywheel/tools/lib/flywheel_state.py:244-270 | a move keeps: items consistent with their lane, ids unique, and each README listing exactly its lane's items once, numbered from 1 |
| LaneRuns.ReadmeMoved | flywheel/tools/lib/flywheel_state.py:233-241 | a move takes the name out of the old lane's list and puts it at the end of the new lane's |
| LaneHistory.RosterMoved | flywheel/tools/lib/flywheel_state.py:244-270 | a move loses no item, adds none, and changes no id, name or domain |
| LaneHistory.StepKeeps | flywheel/tools/lib/flywheel_state.py:244-270 | one move keeps health, order of entry, the roster and the set of READMEs |
| LaneHistory.RunKeeps | flywheel/tools/lib/flywheel_state.py:244-270 | so does every run of moves, of any length, refused moves included |
| LaneHistory.FirstCameFirst | flywheel/tools/lib/flywheel_state.py:183-191 | the first item listed entered its lane before every other one that is there |
| LaneCrash.FilesAtStep | flywheel/tools/lib/flywheel_state.py:265-270 | what each file holds when the move stops after any of its steps |
| LaneCrash.NeverLost | flywheel/tools/lib/flywheel_state.py:265-270 | at every step there is a complete copy under the item's own name, at most one file too many, and no change elsewhere |
| LaneCrash.HealthyAtStepIff | flywheel/tools/lib/flywheel_state.py:265-270 | a stopped move leaves the board in order if and only if only the temporary file was written or nothing was left to do |
| LaneCrash.RetryAtStep | flywheel/tools/lib/flywheel_state.py:61-92 | what asking again does after each step: the same move, then refusal because the target exists, then because the item is not found; ambiguous if the request names the temporary file |
| LaneCrash.RetryCompletes | flywheel/tools/lib/flywheel_state.py:244-270 | stopped before the rename, asking again gives the board of the uninterrupted move |
| WorkflowCheck.Checker.ValidateItemFile | flywheel/tools/lib/validate_workflow_state.py:92-118 | the id, status and frontmatter failures and warnings of one item, in order, and the ids seen so far |
| BoardMeaning.FailureMeans | flywheel/tools/lib/validate_workflow_state.py:92-117 | what each failure says about id, status and frontmatter, and that it is reported exactly then |
| BoardMeaning.WarningMeans | flywheel/tools/lib/validate_workflow_state.py:109-114 | what each warning says about the frontmatter, and that it is reported exactly then |
| WorkflowCheck.Checker.ValidateItems | flywheel/tools/lib/validate_workflow_state.py:336-339 | the failures and warnings of all items in the order of the visit |
| BoardMeaning.DuplicateMeans | flywheel/tools/lib/validate_workflow_state.py:98-101 | a duplicate is reported against the first item with its id |
| WorkflowCheck.Checker.CollectListed | flywheel/tools/lib/validate_workflow_state.py:203-216 | the first loop: the names listed, and a failure for each entry that leads to no file |
| WorkflowCheck.Checker.ValidateActiveQueue | flywheel/tools/lib/validate_workflow_state.py:198-226 | failures and warnings about one lane's README |
| BoardMeaning.QueueFailureMeans | flywheel/tools/lib/validate_workflow_state.py:203-216 | the failures are exactly the entries whose paths lead to no file |
| BoardMeaning.QueueWarningMeans | flywheel/tools/lib/validate_workflow_state.py:218-226 | the warnings are exactly the files that are not named, or one for all if the README names nothing |
| BoardMeaning.FileAtMeans | flywheel/tools/lib/validate_workflow_state.py:203-216 | a plain name is looked up in the lane, where the README is a file too |
| BoardAgreement.NoFindingsIff | flywheel/tools/lib/validate_workflow_state.py:92-117 | whatever the order of the visit, there is no failure if and only if every item is consistent and no two share an id |
| BoardAgreement.NoFindingsOnBoardIff | flywheel/tools/lib/validate_workflow_state.py:336-339 | the same for the whole board, in terms of its items |
| BoardAgreement.NoFrontmatterWarningsIff | flywheel/tools/lib/validate_workflow_state.py:109-114 | an item has no warning if and only if its frontmatter has the four keys |
| BoardAgreement.AllWarningsIff | flywheel/tools/lib/validate_workflow_state.py:336-339 | there is no warning about items if and only if there is none about any of them |
| BoardAgreement.MoveKeepsWarnings | flywheel/tools/lib/validate_workflow_state.py:109-114 | a move changes no warning about the item, since its frontmatter keeps its keys |
| BoardAgreement.MissingIff | flywheel/tools/lib/validate_workflow_state.py:203-216 | the queue has no failure if and only if every entry leads to a file |
| BoardAgreement.NoWarningsIff | flywheel/tools/lib/validate_workflow_state.py:218-226 | there is no warning if and only if the README names every file of the lane |
| BoardAgreement.HealthyPasses | flywheel/tools/lib/validate_workflow_state.py:92-226 | on a board in order the items have no failure and a queue has neither failure nor warning |
| BoardAgreement.RunPasses | flywheel/tools/lib/validate_workflow_state.py:92-226 | the same after any run of moves from there |
| BoardAgreement.TwoCopiesAreNoticed | flywheel/tools/lib/validate_workflow_state.py:98-101 | a move stopped between rename and unlink is a failure of the checker |
| BoardAgreement.StaleEntryIsNoticed | flywheel/tools/lib/validate_workflow_state.py:203-216 | so is one stopped before the old lane's README is synced, where that README is checked |
| BoardAgreement.MissingEntryIsNoticed | flywheel/tools/lib/validate_workflow_state.py:218-226 | one stopped before the new lane's README is synced is a warning |
| BoardAgreement.SelectTopItem | flywheel/tools/lib/stage_context.py:30-44 | the scan returns the first entry that leads to a file, or the first file of the listing |
| BoardMeaning.TopItemMeans | flywheel/tools/lib/stage_context.py:30-44 | the selected item is the first entry that leads to a file; without a README, or if no entry does, it is the first file of the listing |
| BoardAgreement.TopItemCameFirst | flywheel/tools/lib/stage_context.py:30-44 | after any run of moves the selected item is the one that entered the lane before all others there, and there is none exactly if the lane is empty |
| SmallBoard.SmallItemIsGood | flywheel/tools/lib/validate_workflow_state.py:92-117 | an item of two lines, its id and its status, is consistent with its lane |
| SmallBoard.SmallWorldIsHealthy | flywheel/tools/lib/validate_workflow_state.py:198-226 | a board with one item and its lane's README is healthy and in order |
| SmallBoard.SmallWorldMoves | flywheel/tools/lib/flywheel_state.py:244-263 | the move of that item, between any two lanes, passes all checks |
| SmallBoard.SmallWorldStopped | flywheel/tools/lib/flywheel_state.py:265-270 | that move stopped after the rename: the board is in disorder, and asking again is refused |
| Scaffold.SlugifyIsSlug | packages/core/src/control-plane/agent-scaffold.ts:192-200 | every slug starts with a letter, has only small letters, digits and single dashes, and ends in no dash, however letters are lowered |
| Scaffold.SlugifyKeepsIff | packages/core/src/control-plane/agent-scaffold.ts:192-200 | the texts that are their own slug are exactly the well-formed ones |
| Scaffold.SlugifyIdempotent | packages/core/src/control-plane/agent-scaffold.ts:192-200 | the slug of a slug is the slug |
| ScaffoldMeaning.SlugifyMeans | packages/core/src/control-plane/agent-scaffold.ts:192-200 | the slug is the words of the trimmed and lowered name with dashes between, with agent- in front if they do not start with a letter, and agent-new without any |
| ScaffoldMeaning.WordsMean | packages/core/src/control-plane/agent-scaffold.ts:192-200 | words are the runs of small letters and digits, in order |
| ScaffoldMeaning.NamespacedMeans | packages/core/src/control-plane/agent-scaffold.ts:47 | a namespaced id is two or more parts with dots between, each a small letter and then small letters, digits and dashes |
| Scaffold.SuffixKeepsNamespaced | packages/core/src/control-plane/agent-scaffold.ts:162-174 | an id stays namespaced when letters, digits and dashes are appended, as the counter is |
| Scaffold.AllocateNamespacedId | packages/core/src/control-plane/agent-scaffold.ts:162-176 | returns the candidate of the least free number; fails if and only if the base is malformed, or the base and all its numbered candidates up to 9,999 are taken |
| Scaffold.NeverExhausted | packages/core/src/control-plane/agent-scaffold.ts:166-175 | that cannot happen while fewer than 9,999 ids exist |
| Scaffold.ValidateExplicitId | packages/core/src/control-plane/agent-scaffold.ts:151-160 | a given id is taken, trimmed, exactly if it is namespaced and new |
| Scaffold.CollectExistingIdentities | packages/core/src/control-plane/agent-scaffold.ts:114-138 | the ids in use are exactly those that some manifest, reference or referenced agent file declares |
| Scaffold.ScaffoldIds | packages/core/src/control-plane/agent-scaffold.ts:49-65 | both ids are namespaced and new; derived ones are the least free ones and their derivation never fails; usable input is never refused |
| Inputs.ParseAgentInputs | packages/pdk/src/agent.ts:129-163 | returns the issues of all offending fields, or the value of each field with its default |
| Inputs.ValidMeans | packages/pdk/src/agent.ts:232-256 | what each type takes, and which problem it reports otherwise |
| Inputs.ParseMeans | packages/pdk/src/agent.ts:129-163 | parsing succeeds exactly if every required field is given or has a default, no required one is null, and every given value is valid |
| Inputs.ParsedMeans | packages/pdk/src/agent.ts:129-163 | the result has the given value, or the default where nothing is given, nothing for null, and no other key |
| Inputs.FailsIff | packages/pdk/src/agent.ts:139-160 | parsing fails if and only if some field is offending |
| Inputs.ReportsInOrder | packages/pdk/src/agent.ts:139-160 | it then reports each offending field once, in the order of the contract |
| Inputs.ParseTwiceIff | packages/pdk/src/agent.ts:129-163 | parsing the result again gives the same if and only if every default used is valid and not null and no null was given for a field with a default |
| Inputs.NullDefaultIsLost | packages/pdk/src/agent.ts:140-149 | a default of null is used by the first parse and lost by the second |
| Transcript.SortSorts | apps/console/src/pages/SessionsPage.tsx:70 | sorting orders the entries, keeps all, and keeps tied ones in their order |
| Transcript.MergeKeeps | apps/console/src/pages/SessionsPage.tsx:66-71 | whatever arrives, ids stay unique, and from the first new entry on the list is sorted |
| Transcript.MergeHolds | apps/console/src/pages/SessionsPage.tsx:66-71 | the list holds exactly what it held and what arrived |
| Transcript.MergeDropsNothing | apps/console/src/pages/SessionsPage.tsx:66-71 | an entry on the list stays as it is, also when another one arrives with its id |
| Transcript.MergeIsOneSort | apps/console/src/pages/SessionsPage.tsx:66-71 | the merged list is the old one while nothing new has arrived, and then the old list and the new entries, sorted once |
| Transcript.ArrivalOrderShowsAmongTiesOnly | apps/console/src/pages/SessionsPage.tsx:66-71 | into whatever list they are merged, two orders of arrival, with repetitions, give lists that differ among entries of equal time only |
| Transcript.ArrivalOrderDoesNotShowIff | apps/console/src/pages/SessionsPage.tsx:66-71 | all orders of arrival give the same list if and only if no two of the new entries have the same time |
| Transcript.TwoOrdersDiffer | apps/console/src/pages/SessionsPage.tsx:66-71 | two entries of one time, whose two orders of arrival give two lists |

## Left out

- Strictness.StrictnessNarrows: the condition on hints is sufficient and not necessary where a hint rewrites the options of an `anyOf`, because an option beside the loosened one can hide it (`OptionHidesLoosening`), or where nothing satisfies an object; where no `anyOf` is rewritten, `StrictnessExact.TableNarrowsIff` is exact for whole tables.
- Lanes.Workspace.MoveItem: items given as a direct path to a file (lines 62 to 66 of the tool), for which the from-lane is not checked.
- LaneCrash.RetryAtStep: requests by such a path.
- Lanes.Workspace.UpdateLaneReadme: the returned path, which tells whether the text has changed; as lines the model does not have the line feed at the end of the file, on which that depends.
- WorkflowCheck.Checker.CollectListed: the relative paths that are listed beside the names; an item's own path is among them only if its name is.
- WorkflowCheck.Checker.ValidateItems: the header, file-name, priority and handoff checks of the same call, and failures for lanes that the configuration does not name or that have no directory.
- WorkflowCheck.Checker.ValidateItemFile: the same checks of the item.
- ItemFrontmatter.FrontmatterReadsBackIff: frontmatters that state a status more than once; one that is indented is the subject of `IndentedFieldIsNotReadBack`, which leaves out an overwritten closing fence.
- LaneHistory.RunKeeps: moves of files in a lane that are not `.md` files, and of a README itself, are outside of it.
- The order in which keys of a JavaScript object are visited: the validator's loops take keys in any order, and their contracts hold for all.
- The prototype chain behind `in` and behind reading a key, and a `__proto__` key.
- `Date` parsing and the case folding of Unicode: parameters; `slugify` is proved for every way to lower letters, and its idempotence for those that leave small letters, digits and dashes alone. `localeCompare` is any total preorder.
- Floating point in the factors 0.55 and 0.35: integer division, which can only differ by rounding at a whole number.
- Line separators other than line feed inside an item's text, where `splitlines` and the patterns split differently; decimal digits outside of ASCII in queue numbers.
- `update_lane_readme` writes a README only if its text changes; as the written text is the unchanged one otherwise, the model always assigns it.
- The fallback of `update_lane_readme` for a section that is not found again after it was added to: it is always found.
- The rename of the temporary file is taken as one step; file modes, missing directories and unreadable files are not modelled.
- The checker's metadata header, file-name and priority rules, handoff and verdict sections, backlog references and root backlog summary. Moves do not maintain the last two.
- Paths in a queue that are not plain file names: whether they lead to a file is a parameter. The sorted listing of a directory is a parameter too.
- `allocateDirectoryName`, the generated manifests and files, and their validation.
- `createAgentArtifact`, envelopes and the running of handlers.
- The stream's reconnecting, backoff and resume position; parsing of stream events.
- HTTP server and clients, command line, telemetry, React pages other than the merge, the literal route and schema tables, and the non-functional parts of everything above.
