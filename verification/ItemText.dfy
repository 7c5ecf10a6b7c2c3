/** The text of a work item: `flywheel_state.py` rewrites its status and appends to its history, and
    `validate_workflow_state.py` reads it back with other code.

    A text is its list of lines, what `text.split("\n")` gives; joining with "\n" is the inverse. */
module ItemText {
  import opened Options
  import opened Strings

  type Text = seq<string>

  /** White space as `str.strip` and the `\s` of Python see it. */
  predicate Blank(c: char) {
    || '\t' <= c <= '\r'
    || '\U{001C}' <= c <= ' '
    || c == '\U{0085}' || c == '\U{00A0}' || c == '\U{1680}'
    || '\U{2000}' <= c <= '\U{200A}'
    || c == '\U{2028}' || c == '\U{2029}' || c == '\U{202F}' || c == '\U{205F}' || c == '\U{3000}'
  }

  /** How many blanks `s` has from position `i` on, counted as a position: the first non-blank one. */
  function SkipBlanks(s: string, i: nat): (j: nat)
    requires i <= |s|
    ensures i <= j <= |s|
    decreases |s| - i
  {
    if i < |s| && Blank(s[i]) then SkipBlanks(s, i + 1) else i
  }

  function Strip(s: string): string {
    Trim(Blank, s)
  }

  /** `token` stands in `s` at position `i`. */
  predicate HasAt(s: string, i: nat, token: string) {
    i + |token| <= |s| && s[i..i + |token|] == token
  }

  // ---------------------------------------------------------------- finding a value

  datatype Spot = Spot(row: nat, col: nat)

  predicate InText(lines: Text, spot: Spot) {
    spot.row < |lines| && spot.col <= |lines[spot.row]|
  }

  /** Where `\s*` ends when it starts at `spot`: it also takes line ends. */
  function AfterBlanks(lines: Text, spot: Spot): (after: Spot)
    requires InText(lines, spot)
    ensures InText(lines, after)
    decreases |lines| - spot.row
  {
    var j := SkipBlanks(lines[spot.row], spot.col);
    if j < |lines[spot.row]| || spot.row + 1 == |lines| then Spot(spot.row, j)
    else AfterBlanks(lines, Spot(spot.row + 1, 0))
  }

  /** The position of the next backtick, or the end. */
  function NextTick(s: string, i: nat): (j: nat)
    requires i <= |s|
    ensures i <= j <= |s|
    ensures j < |s| ==> s[j] == '`'
    decreases |s| - i
  {
    if i < |s| && s[i] != '`' then NextTick(s, i + 1) else i
  }

  datatype Span = Span(start: nat, end: nat)

  /** From `start` on: a non-empty run up to a backtick that a colon follows. */
  function SpanFrom(line: string, start: nat): (span: Option<Span>)
    requires start <= |line|
    ensures span.Some? ==> span.value.start == start < span.value.end && span.value.end + 2 <= |line|
  {
    var end := NextTick(line, start);
    if start < end && end + 1 < |line| && line[end + 1] == ':' then Some(Span(start, end)) else None
  }

  predicate SpanIs(line: string, span: Option<Span>, key: string)
    requires span.Some? ==> span.value.start <= span.value.end <= |line|
  {
    span.Some? && line[span.value.start..span.value.end] == key
  }

  /** "`key`:" stands in `line` at position `tick`. */
  predicate HasKeyAt(line: string, tick: nat, key: string) {
    tick < |line| && line[tick] == '`' && SpanIs(line, SpanFrom(line, tick + 1), key)
  }

  /** The position of the first non-blank character behind a leading dash. */
  function BehindDash(line: string): (tick: Option<nat>)
    ensures tick.Some? ==> tick.value <= |line|
  {
    var dash := SkipBlanks(line, 0);
    if dash < |line| && line[dash] == '-' then Some(SkipBlanks(line, dash + 1)) else None
  }

  /** A match of `^\s*-\s*\`key\`:\s*(.*)$` whose dash is the first character on line `row`: where its
      value starts. Blank lines that the pattern may also take in front do not change that. */
  function ValueSpot(lines: Text, key: string, row: nat): (spot: Option<Spot>)
    requires row < |lines|
    ensures spot.Some? ==> InText(lines, spot.value)
  {
    if BehindDash(lines[row]).None? then None
    else
      var tick := AfterBlanks(lines, Spot(row, BehindDash(lines[row]).value));
      if HasKeyAt(lines[tick.row], tick.col, key) then
        Some(AfterBlanks(lines, Spot(tick.row, SpanFrom(lines[tick.row], tick.col + 1).value.end + 2)))
      else None
  }

  /** The row of the first match from `row` on. */
  function FindRow(lines: Text, key: string, row: nat): (found: Option<nat>)
    requires row <= |lines|
    ensures found.Some? ==> row <= found.value < |lines| && ValueSpot(lines, key, found.value).Some?
    decreases |lines| - row
  {
    if row == |lines| then None
    else if ValueSpot(lines, key, row).Some? then Some(row)
    else FindRow(lines, key, row + 1)
  }

  /** The value of the first match, as the state tool reads an item's id. */
  function ItemId(lines: Text): string {
    var row := FindRow(lines, "id", 0);
    if row.None? then "" else
      var spot := ValueSpot(lines, "id", row.value).value;
      Strip(lines[spot.row][spot.col..])
  }

  // ---------------------------------------------------------------- frontmatter

  const FENCE := "---"

  function FenceFrom(lines: Text, j: nat): (found: Option<nat>)
    requires j <= |lines|
    ensures found.Some? ==> j <= found.value < |lines| - 1 && lines[found.value] == FENCE
    ensures found.Some? ==> forall i | j <= i < found.value :: lines[i] != FENCE
    decreases |lines| - j
  {
    if j >= |lines| - 1 then None
    else if lines[j] == FENCE then Some(j)
    else FenceFrom(lines, j + 1)
  }

  /** The row of the closing fence; the body lies on the rows from 1 up to it, and there is at least one. */
  function ClosingFence(lines: Text): (found: Option<nat>)
    ensures found.Some? ==> 2 <= found.value < |lines| - 1
  {
    if |lines| >= 2 && lines[0] == FENCE then FenceFrom(lines, 2) else None
  }

  const STATUS_KEY := "status:"

  /** The first row of the body that starts with the status key, at its very first column. */
  function KeyRow(lines: Text, row: nat, end: nat): (found: Option<nat>)
    requires row <= end <= |lines|
    ensures found.Some? ==> row <= found.value < end && STATUS_KEY <= lines[found.value]
    ensures found.Some? ==> forall i | row <= i < found.value :: !(STATUS_KEY <= lines[i])
    ensures found.None? ==> forall i | row <= i < end :: !(STATUS_KEY <= lines[i])
    decreases end - row
  {
    if row == end then None
    else if STATUS_KEY <= lines[row] then Some(row)
    else KeyRow(lines, row + 1, end)
  }

  // ---------------------------------------------------------------- the state tool

  function PutAt(lines: Text, spot: Spot, value: string): Text
    requires InText(lines, spot)
  {
    lines[spot.row := lines[spot.row][..spot.col] + value]
  }

  function UpdateFrontmatter(lines: Text, lane: string): Text {
    var end := ClosingFence(lines);
    if end.None? then lines
    else
      var row := KeyRow(lines, 1, end.value);
      if row.None? then lines
      else PutAt(lines, AfterBlanks(lines[..end.value], Spot(row.value, |STATUS_KEY|)), lane)
  }

  /** The first substitution: the value behind the first status key. Without one the tool raises an error. */
  function RewriteStatus(lines: Text, lane: string): Option<Text> {
    var row := FindRow(lines, "status", 0);
    if row.None? then None else Some(PutAt(lines, ValueSpot(lines, "status", row.value).value, lane))
  }

  function UpdateStatus(lines: Text, lane: string): Option<Text> {
    var rewritten := RewriteStatus(lines, lane);
    if rewritten.None? then None else Some(UpdateFrontmatter(rewritten.value, lane))
  }

  /** `text.rstrip()` on lines: no trailing blank lines, and no trailing blanks on the last one. */
  function RStrip(lines: Text): Text {
    if lines == [] then [""]
    else
      var last := TrimEnd(Blank, lines[|lines| - 1]);
      if last == "" then RStrip(lines[..|lines| - 1]) else lines[..|lines| - 1] + [last]
  }

  /** A line and what is left of it without its trailing blanks. */
  ghost predicate IsTrimmed(line: string, t: string) {
    t <= line && AllIn(Blank, line[|t|..])
  }

  lemma TrimmedLine(line: string)
    ensures IsTrimmed(line, TrimEnd(Blank, line))
  {
    TrimEndSplits(Blank, line);
  }

  /** Rows up to one that is not blank stay; the last row may lose its trailing blanks. */
  lemma {:induction false} RStripRows(lines: Text)
    requires lines != []
    ensures 1 <= |RStrip(lines)| <= |lines|
    ensures forall i | 0 <= i < |RStrip(lines)| - 1 :: RStrip(lines)[i] == lines[i]
    ensures IsTrimmed(lines[|RStrip(lines)| - 1], RStrip(lines)[|RStrip(lines)| - 1])
    ensures forall i | |RStrip(lines)| <= i < |lines| :: TrimEnd(Blank, lines[i]) == ""
  {
    var front, line := lines[..|lines| - 1], lines[|lines| - 1];
    TrimmedLine(line);
    if TrimEnd(Blank, line) == "" && front != [] {
      RStripRows(front);
    }
  }

  const HISTORY := "## Transition History"

  function Contains(s: string, token: string, i: nat): bool
    requires i <= |s|
    decreases |s| - i
  {
    HasAt(s, i, token) || (i < |s| && Contains(s, token, i + 1))
  }

  predicate Mentions(lines: Text, token: string) {
    exists i | 0 <= i < |lines| :: Contains(lines[i], token, 0)
  }

  function Note(now: string, fromLane: string, toLane: string, actor: string, reason: string): string {
    "- `" + now + "`: `" + fromLane + "` -> `" + toLane + "`"
    + (if actor != "" then " by `" + actor + "`" else "")
    + (if reason != "" then "; " + reason else "")
  }

  /** A note with line ends in it becomes several lines. */
  function AppendNote(lines: Text, note: string): Text {
    RStrip(lines) + (if Mentions(lines, HISTORY) then [] else ["", HISTORY]) + Split(note, '\n') + [""]
  }

  // ---------------------------------------------------------------- the checker

  datatype Entry = Entry(key: string, value: string)

  /** The key of a line that matches "- `key`: value". */
  function KeySpan(line: string): (span: Option<Span>)
    ensures span.Some? ==> span.value.start < span.value.end && span.value.end + 2 <= |line|
  {
    var tick := BehindDash(line);
    if tick.Some? && tick.value < |line| && line[tick.value] == '`' then SpanFrom(line, tick.value + 1) else None
  }

  function MetaEntry(line: string): Option<Entry> {
    var span := KeySpan(line);
    if span.None? then None
    else Some(Entry(line[span.value.start..span.value.end], Strip(line[span.value.end + 2..])))
  }

  predicate IsKeyLine(line: string, key: string) {
    SpanIs(line, KeySpan(line), key)
  }

  /** The entries of `lines` under a way of reading one; later lines override earlier ones. */
  function Collect(read: string -> Option<Entry>, lines: Text): map<string, string> {
    if lines == [] then map[]
    else
      var front := Collect(read, lines[..|lines| - 1]);
      var entry := read(lines[|lines| - 1]);
      if entry.Some? then front[entry.value.key := entry.value.value] else front
  }

  function Metadata(lines: Text): map<string, string> {
    Collect(MetaEntry, lines)
  }

  /** The position of the first colon, or the end. */
  function NextColon(s: string, i: nat): (j: nat)
    requires i <= |s|
    ensures i <= j <= |s|
    ensures j < |s| ==> s[j] == ':'
    decreases |s| - i
  {
    if i < |s| && s[i] != ':' then NextColon(s, i + 1) else i
  }

  function FieldEntry(line: string): Option<Entry> {
    var colon := NextColon(line, 0);
    if colon == |line| then None else Some(Entry(Strip(line[..colon]), Strip(line[colon + 1..])))
  }

  function Frontmatter(lines: Text): map<string, string> {
    var end := ClosingFence(lines);
    if end.None? then map[] else Collect(FieldEntry, lines[1..end.value])
  }

  // ---------------------------------------------------------------- collecting

  function One(entry: Option<Entry>): map<string, string> {
    if entry.Some? then map[entry.value.key := entry.value.value] else map[]
  }

  lemma {:induction false} CollectConcat(read: string -> Option<Entry>, a: Text, b: Text)
    ensures Collect(read, a + b) == Collect(read, a) + Collect(read, b)
  {
    if b == [] {
      assert a + b == a;
    } else {
      var n := |b| - 1;
      assert (a + b)[..|a + b| - 1] == a + b[..n];
      CollectConcat(read, a, b[..n]);
    }
  }

  lemma CollectOne(read: string -> Option<Entry>, line: string)
    ensures Collect(read, [line]) == One(read(line))
  {
    assert [line][..0] == [];
  }

  lemma {:induction false} CollectKey(read: string -> Option<Entry>, lines: Text, key: string)
    requires forall i | 0 <= i < |lines| :: read(lines[i]).Some? ==> read(lines[i]).value.key != key
    ensures key !in Collect(read, lines)
  {
    if lines != [] {
      CollectKey(read, lines[..|lines| - 1], key);
    }
  }

  lemma CollectSplit(read: string -> Option<Entry>, a: Text, line: string, b: Text)
    ensures Collect(read, a + [line] + b) == Collect(read, a) + One(read(line)) + Collect(read, b)
  {
    CollectConcat(read, a + [line], b);
    CollectConcat(read, a, [line]);
    CollectOne(read, line);
  }

  lemma AroundRow(lines: Text, row: nat, line: string)
    requires row < |lines|
    ensures lines == lines[..row] + [lines[row]] + lines[row + 1..]
    ensures lines[row := line] == lines[..row] + [line] + lines[row + 1..]
  {
  }

  /** No line from `row` on has the key. */
  ghost predicate NoKeyFrom(read: string -> Option<Entry>, lines: Text, row: nat, key: string) {
    forall i | row <= i < |lines| :: read(lines[i]).Some? ==> read(lines[i]).value.key != key
  }

  /** The value of a key is the one of the last line that states it. */
  lemma CollectOnly(read: string -> Option<Entry>, lines: Text, row: nat)
    requires row < |lines| && read(lines[row]).Some?
    requires NoKeyFrom(read, lines, row + 1, read(lines[row]).value.key)
    ensures Get(Collect(read, lines), read(lines[row]).value.key) == Some(read(lines[row]).value.value)
  {
    var b := lines[row + 1..];
    AroundRow(lines, row, lines[row]);
    CollectSplit(read, lines[..row], lines[row], b);
    forall i | 0 <= i < |b| ensures read(b[i]).Some? ==> read(b[i]).value.key != read(lines[row]).value.key {
      assert b[i] == lines[row + 1 + i];
    }
    CollectKey(read, b, read(lines[row]).value.key);
  }

  /** Rewriting a line so that it keeps its key sets the value of that key, if no later line has it. */
  lemma CollectPut(read: string -> Option<Entry>, lines: Text, row: nat, line: string)
    requires row < |lines| && read(line).Some? && read(lines[row]).Some?
    requires read(line).value.key == read(lines[row]).value.key
    requires NoKeyFrom(read, lines, row + 1, read(line).value.key)
    ensures Collect(read, lines[row := line]) == Collect(read, lines)[read(line).value.key := read(line).value.value]
  {
    var b := lines[row + 1..];
    AroundRow(lines, row, line);
    CollectSplit(read, lines[..row], lines[row], b);
    CollectSplit(read, lines[..row], line, b);
    forall i | 0 <= i < |b| ensures read(b[i]).Some? ==> read(b[i]).value.key != read(line).value.key {
      assert b[i] == lines[row + 1 + i];
    }
    CollectKey(read, b, read(line).value.key);
  }

  /** Rewriting a line that reads as before changes nothing. */
  lemma CollectKeep(read: string -> Option<Entry>, lines: Text, row: nat, line: string)
    requires row < |lines| && read(line) == read(lines[row])
    ensures Collect(read, lines[row := line]) == Collect(read, lines)
  {
    AroundRow(lines, row, line);
    CollectSplit(read, lines[..row], lines[row], lines[row + 1..]);
    CollectSplit(read, lines[..row], line, lines[row + 1..]);
  }

  // ---------------------------------------------------------------- blanks and prefixes

  /** Positions are found by looking at what comes before them only. */
  lemma {:induction false} SkipBlanksSame(s: string, t: string, i: nat, n: nat)
    requires i <= n <= |s| && n <= |t| && s[..n] == t[..n]
    ensures SkipBlanks(s, i) < n || SkipBlanks(t, i) < n ==> SkipBlanks(s, i) == SkipBlanks(t, i)
    decreases n - i
  {
    if i < n {
      assert s[i] == s[..n][i] == t[..n][i] == t[i];
      SkipBlanksSame(s, t, i + 1, n);
    }
  }

  lemma {:induction false} NextTickSame(s: string, t: string, i: nat, n: nat)
    requires i <= n <= |s| && n <= |t| && s[..n] == t[..n]
    ensures NextTick(s, i) < n || NextTick(t, i) < n ==> NextTick(s, i) == NextTick(t, i)
    decreases n - i
  {
    if i < n {
      assert s[i] == s[..n][i] == t[..n][i] == t[i];
      NextTickSame(s, t, i + 1, n);
    }
  }

  lemma {:induction false} SkipBlanksPassed(s: string, i: nat)
    requires i <= |s|
    ensures forall k | i <= k < SkipBlanks(s, i) :: Blank(s[k])
    ensures SkipBlanks(s, i) < |s| ==> !Blank(s[SkipBlanks(s, i)])
    decreases |s| - i
  {
    if i < |s| && Blank(s[i]) {
      SkipBlanksPassed(s, i + 1);
    }
  }

  lemma {:induction false} SkipBlanksTo(s: string, i: nat, j: nat)
    requires i <= j <= |s|
    requires forall k | i <= k < j :: Blank(s[k])
    requires j < |s| ==> !Blank(s[j])
    ensures SkipBlanks(s, i) == j
    decreases j - i
  {
    if i < j {
      SkipBlanksTo(s, i + 1, j);
    }
  }

  /** A word that survives stripping and cannot be taken for the start of a line of its own. */
  predicate IsWord(s: string) {
    s != "" && !Blank(s[0]) && !Blank(s[|s| - 1]) && s[0] != '-' && s[0] != '`'
  }

  lemma {:induction false} StripPadded(pad: string, s: string)
    requires AllIn(Blank, pad)
    requires s != "" && !Blank(s[0]) && !Blank(s[|s| - 1])
    ensures Strip(pad + s) == s
  {
    if pad == "" {
      assert pad + s == s;
    } else {
      assert (pad + s)[1..] == pad[1..] + s;
      StripPadded(pad[1..], s);
    }
  }

  lemma StripWord(s: string)
    requires s != "" && !Blank(s[0]) && !Blank(s[|s| - 1])
    ensures Strip(s) == s
  {
    assert "" + s == s;
    StripPadded("", s);
  }

  /** The value of a line that has `key` in front of column `c` and blanks between it and the value. */
  lemma PaddedValue(line: string, from: nat, c: nat, word: string)
    requires from <= c <= |line|
    requires forall k | from <= k < c :: Blank(line[k])
    requires IsWord(word)
    ensures Strip((line[..c] + word)[from..]) == word
  {
    assert (line[..c] + word)[from..] == line[from..c] + word;
    StripPadded(line[from..c], word);
  }

  // ---------------------------------------------------------------- metadata lines

  /** The column behind the key and its colon. */
  function KeyEnd(line: string): (end: nat)
    requires KeySpan(line).Some?
    ensures end <= |line|
  {
    KeySpan(line).value.end + 2
  }

  /** A blank line end is crossed only when the line has nothing left. */
  lemma AfterBlanksOnLine(lines: Text, spot: Spot)
    requires InText(lines, spot) && SkipBlanks(lines[spot.row], spot.col) < |lines[spot.row]|
    ensures AfterBlanks(lines, spot) == Spot(spot.row, SkipBlanks(lines[spot.row], spot.col))
  {
  }

  lemma SkipBlanksTwice(s: string, i: nat)
    requires i <= |s|
    ensures SkipBlanks(s, SkipBlanks(s, i)) == SkipBlanks(s, i)
  {
    SkipBlanksPassed(s, i);
  }

  /** Where the tool's pattern looks for the key when something follows the dash on its line. */
  lemma TickOnLine(lines: Text, row: nat)
    requires row < |lines| && BehindDash(lines[row]).Some? && BehindDash(lines[row]).value < |lines[row]|
    ensures AfterBlanks(lines, Spot(row, BehindDash(lines[row]).value)) == Spot(row, BehindDash(lines[row]).value)
  {
    SkipBlanksTwice(lines[row], SkipBlanks(lines[row], 0) + 1);
    AfterBlanksOnLine(lines, Spot(row, BehindDash(lines[row]).value));
  }

  lemma KeyLineHasKey(line: string, key: string)
    requires IsKeyLine(line, key)
    ensures BehindDash(line).Some? && BehindDash(line).value < |line|
    ensures HasKeyAt(line, BehindDash(line).value, key)
    ensures SpanFrom(line, BehindDash(line).value + 1) == KeySpan(line)
  {
  }

  /** On one line, the tool's pattern finds the value behind the checker's key. */
  lemma SpotOfKeyLine(lines: Text, row: nat, key: string)
    requires row < |lines|
    requires IsKeyLine(lines[row], key)
    ensures ValueSpot(lines, key, row) == Some(AfterBlanks(lines, Spot(row, KeyEnd(lines[row]))))
  {
    KeyLineHasKey(lines[row], key);
    TickOnLine(lines, row);
  }

  lemma {:induction false} StripBlank(s: string)
    requires AllIn(Blank, s)
    ensures Strip(s) == ""
  {
    if s != "" {
      StripBlank(s[1..]);
    }
  }

  /** A line whose value is not blank has the value on the line itself. */
  lemma SpotOnLine(lines: Text, row: nat, key: string)
    requires row < |lines|
    requires IsKeyLine(lines[row], key) && MetaEntry(lines[row]).value.value != ""
    ensures ValueSpot(lines, key, row) == Some(Spot(row, SkipBlanks(lines[row], KeyEnd(lines[row]))))
    ensures SkipBlanks(lines[row], KeyEnd(lines[row])) < |lines[row]|
  {
    SpotOfKeyLine(lines, row, key);
    var line := lines[row];
    SkipBlanksPassed(line, KeyEnd(line));
    if SkipBlanks(line, KeyEnd(line)) == |line| {
      StripBlank(line[KeyEnd(line)..]);
    }
  }

  lemma PrefixAt(s: string, t: string, n: nat, k: nat)
    requires k < n <= |s| && n <= |t| && s[..n] == t[..n]
    ensures s[k] == t[k]
  {
    assert s[k] == s[..n][k] && t[k] == t[..n][k];
  }

  lemma PrefixSlice(s: string, t: string, n: nat, i: nat, j: nat)
    requires i <= j <= n <= |s| && n <= |t| && s[..n] == t[..n]
    ensures s[i..j] == t[i..j]
  {
    assert s[i..j] == s[..n][i..j] && t[i..j] == t[..n][i..j];
  }

  lemma BehindDashSame(s: string, t: string, n: nat)
    requires BehindDash(s).Some? && BehindDash(s).value < n <= |s| && n <= |t| && s[..n] == t[..n]
    ensures BehindDash(t) == BehindDash(s)
  {
    var dash := SkipBlanks(s, 0);
    SkipBlanksSame(s, t, 0, n);
    SkipBlanksSame(s, t, dash + 1, n);
    PrefixAt(s, t, n, dash);
  }

  lemma RewrittenKey(line: string, next: string, c: nat)
    requires KeySpan(line).Some? && KeyEnd(line) <= c <= |line| && c <= |next| && next[..c] == line[..c]
    ensures KeySpan(next) == KeySpan(line)
  {
    var Span(start, end) := KeySpan(line).value;
    BehindDashSame(line, next, c);
    PrefixAt(line, next, c, start - 1);
    NextTickSame(line, next, start, c);
    PrefixAt(line, next, c, end + 1);
  }

  /** Rewriting the value of a key line keeps the key and sets the value. */
  lemma RewrittenLine(line: string, c: nat, word: string)
    requires KeySpan(line).Some? && IsWord(word)
    requires c == SkipBlanks(line, KeyEnd(line))
    ensures KeySpan(line[..c] + word) == KeySpan(line)
    ensures MetaEntry(line[..c] + word) == Some(Entry(MetaEntry(line).value.key, word))
  {
    var next := line[..c] + word;
    assert next[..c] == line[..c];
    RewrittenKey(line, next, c);
    PrefixSlice(line, next, c, KeySpan(line).value.start, KeySpan(line).value.end);
    RewrittenValue(line, KeyEnd(line), c, word);
  }

  lemma RewrittenValue(line: string, from: nat, c: nat, word: string)
    requires from <= |line| && c == SkipBlanks(line, from) && IsWord(word)
    ensures Strip((line[..c] + word)[from..]) == word
  {
    SkipBlanksPassed(line, from);
    PaddedValue(line, from, c, word);
  }
}
