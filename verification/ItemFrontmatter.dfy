/** When the frontmatter reads back the status that `update_status` was given: its first substitution can
    overwrite the frontmatter's status or closing fence before the second one looks for them. */
module ItemFrontmatter {
  import opened Options
  import opened Strings
  import opened ItemText
  import opened ItemRoundTrip
  import opened ItemSpills

  /** The row that the first substitution writes on. */
  function HitRow(lines: Text): (row: Option<nat>)
    ensures row.Some? ==> row.value < |lines|
  {
    var first := FindRow(lines, "status", 0);
    if first.None? then None else Some(ValueSpot(lines, "status", first.value).value.row)
  }

  function HitCol(lines: Text): nat
    requires HitRow(lines).Some?
  {
    ValueSpot(lines, "status", FindRow(lines, "status", 0).value).value.col
  }

  /** What the first substitution writes. */
  lemma RewrittenRow(lines: Text, lane: string)
    requires IsWord(lane) && HitRow(lines).Some?
    ensures var r, col := HitRow(lines).value, HitCol(lines);
            && IsWritten(lines[r], col) && col <= |lines[r]|
            && RewriteStatus(lines, lane) == Some(lines[r := lines[r][..col] + lane])
            && lines[r][..col] + lane != FENCE
    ensures HitRow(lines).value > 0 || lines[0] != FENCE
  {
    var first := FindRow(lines, "status", 0).value;
    WrittenSpot(lines, "status", first);
    WrittenIsNoFence(lines[HitRow(lines).value], HitCol(lines), lane);
    if lines[first] == FENCE {
      FenceMatchesNothing(lines, "status", first);
    }
  }

  /** The value of the status field is blank. */
  predicate IsBlankField(line: string) {
    |line| >= 7 && IsBlankFrom(line, 7)
  }

  /** The value stays on the field's line unless it is blank and there are more lines to run on to. */
  lemma FieldSpotIff(lines: Text, q: nat)
    requires FieldRow(lines) == Some(q)
    ensures FrontSpot(lines).value.row == q <==> !IsBlankField(lines[q]) || q + 1 == ClosingFence(lines).value
  {
    var body := lines[..ClosingFence(lines).value];
    if IsBlankField(lines[q]) && q + 1 < |body| {
      AfterBlanksSpills(body, Spot(q + 1, 0));
    }
  }

  // ---------------------------------------------------------------- elsewhere

  /** Written on another row, the first substitution leaves the frontmatter's status to the second. */
  lemma ElsewhereKeepsField(lines: Text, lane: string, q: nat)
    requires IsWord(lane) && ':' !in lane && OnlyField(lines, q) && HitRow(lines).Some?
    requires HitRow(lines).value != q && HitRow(lines).value != ClosingFence(lines).value
    ensures var next := RewriteStatus(lines, lane).value;
            && ClosingFence(next) == ClosingFence(lines) && OnlyField(next, q) && next[q] == lines[q]
  {
    var next, end, r := RewriteStatus(lines, lane).value, ClosingFence(lines).value, HitRow(lines).value;
    RewrittenRow(lines, lane);
    FenceFromStays(lines, next, 2, end);
    WrittenIsNoStatusKey(lines[r], HitCol(lines), lane);
    WrittenField(lines[r], HitCol(lines), lane, "status");
    assert forall i | 1 <= i < end && i != q :: !IsField(next[i], "status");
    KeyRowIs(next, 1, end, q);
  }

  lemma {:induction false} FenceFromStays(a: Text, b: Text, j: nat, end: nat)
    requires |a| == |b| && j <= |a| && FenceFrom(a, j) == Some(end)
    requires b[end] == FENCE && forall i | j <= i < end :: b[i] != FENCE
    ensures FenceFrom(b, j) == Some(end)
    decreases end - j
  {
    if j < end {
      FenceFromStays(a, b, j + 1, end);
    }
  }

  lemma {:induction false} KeyRowIs(lines: Text, row: nat, end: nat, q: nat)
    requires row <= q < end <= |lines| && STATUS_KEY <= lines[q]
    requires forall i | row <= i < q :: !(STATUS_KEY <= lines[i])
    ensures KeyRow(lines, row, end) == Some(q)
    decreases q - row
  {
    if row < q {
      KeyRowIs(lines, row + 1, end, q);
    }
  }

  // ---------------------------------------------------------------- on the field itself

  lemma KeyRowIsField(lines: Text, q: nat)
    requires OnlyField(lines, q)
    ensures forall i | 1 <= i < ClosingFence(lines).value && i != q :: !(STATUS_KEY <= lines[i])
  {
    forall i | 1 <= i < ClosingFence(lines).value && i != q ensures !(STATUS_KEY <= lines[i]) {
      if STATUS_KEY <= lines[i] {
        KeyLineIsField(lines[i]);
      }
    }
  }

  lemma FieldIsWrittenWhole(line: string, col: nat)
    requires STATUS_KEY <= line && IsWritten(line, col)
    ensures col == SkipBlanks(line, 0) == 0
  {
    assert line[0] == STATUS_KEY[0];
    assert SkipBlanks(line, 0) == 0;
  }

  /** Written on the field, it leaves no status in the frontmatter. */
  lemma OnFieldLosesIt(lines: Text, lane: string, q: nat)
    requires IsWord(lane) && ':' !in lane && OnlyField(lines, q) && HitRow(lines) == Some(q)
    ensures UpdateStatus(lines, lane).Some? && "status" !in Frontmatter(UpdateStatus(lines, lane).value)
  {
    var next, end := RewriteStatus(lines, lane).value, ClosingFence(lines).value;
    RewrittenRow(lines, lane);
    FieldIsWrittenWhole(lines[q], HitCol(lines));
    FieldLineIsNoEntry(lines[q]);
    FenceFromStays(lines, next, 2, end);
    WrittenIsNoStatusKey(lines[q], HitCol(lines), lane);
    KeyRowIsField(lines, q);
    assert KeyRow(next, 1, end).None?;
    WordIsNoField(lines[q], lane);
    assert forall i | 1 <= i < end && i != q :: next[i] == lines[i];
    NoFieldNoStatus(next, end);
  }

  // ---------------------------------------------------------------- on the closing fence

  /** The fence that closes the frontmatter once its first closing fence is overwritten. */
  function LaterFence(lines: Text): Option<nat> {
    if ClosingFence(lines).None? then None else FenceFrom(lines, ClosingFence(lines).value + 1)
  }

  /** The status that is read between two fences: the last one that a field behind the row `end` states, or that of
      `line`, rewritten, which stays blank if it was blank. */
  function StatusBehind(lines: Text, line: string, lane: string, end: nat, later: nat): Option<string>
    requires end < later <= |lines|
  {
    var behind := Get(Collect(FieldEntry, lines[end + 1..later]), "status");
    if behind.Some? then behind else Some(if IsBlankField(line) then "" else lane)
  }

  /** The status that is read once the closing fence is overwritten. */
  function LaterStatus(lines: Text, lane: string, q: nat): Option<string>
    requires q < |lines|
  {
    if LaterFence(lines).None? then None
    else StatusBehind(lines, lines[q], lane, ClosingFence(lines).value, LaterFence(lines).value)
  }

  /** The old fence, overwritten: one line of the word, neither fence nor field. */
  lemma OnFenceText(lines: Text, lane: string)
    requires IsWord(lane) && ':' !in lane && ClosingFence(lines).Some? && HitRow(lines) == ClosingFence(lines)
    ensures RewriteStatus(lines, lane) == Some(lines[ClosingFence(lines).value := lane])
    ensures ClosingFence(RewriteStatus(lines, lane).value) == LaterFence(lines)
  {
    var next, end := RewriteStatus(lines, lane).value, ClosingFence(lines).value;
    RewrittenRow(lines, lane);
    FenceIsWrittenWhole(lines[end], HitCol(lines));
    assert lines[end][..0] + lane == lane;
    FenceFromPast(lines, next, 2, end);
  }

  lemma FenceIsWrittenWhole(line: string, col: nat)
    requires line == FENCE && IsWritten(line, col)
    ensures col == 0
  {
    assert forall i | 0 <= i < |FENCE| :: FENCE[i] == '-';
    assert SkipBlanks(FENCE, 0) == 0;
  }

  lemma {:induction false} FenceFromPast(a: Text, b: Text, j: nat, end: nat)
    requires |a| == |b| && j <= end < |a| - 1
    requires forall i | j <= i <= end :: b[i] != FENCE
    requires forall i | end < i < |a| :: a[i] == b[i]
    ensures FenceFrom(b, j) == FenceFrom(a, end + 1)
    decreases end - j
  {
    if j < end {
      FenceFromPast(a, b, j + 1, end);
    } else {
      assert FenceFrom(b, end) == FenceFrom(b, end + 1);
      FenceFromTail(a, b, end + 1);
    }
  }

  lemma {:induction false} FenceFromTail(a: Text, b: Text, j: nat)
    requires |a| == |b| && j <= |a|
    requires forall i | j <= i < |a| :: a[i] == b[i]
    ensures FenceFrom(a, j) == FenceFrom(b, j)
    decreases |a| - j
  {
    if j < |a| {
      FenceFromTail(a, b, j + 1);
    }
  }

  /** The field's line, and the lines up to the old fence, once the second substitution is done as well. */
  lemma OnFenceField(next: Text, lane: string, q: nat, end: nat, later: nat)
    requires IsWord(lane) && ':' !in lane && 1 <= q < end < later
    requires ClosingFence(next) == Some(later) && FieldRow(next) == Some(q) && next[end] == lane
    requires forall i | q < i < end :: !IsField(next[i], "status")
    ensures var updated := UpdateFrontmatter(next, lane);
            && ClosingFence(updated) == Some(later) && |updated| == |next|
            && FieldEntry(updated[q]) == Some(Entry("status", if IsBlankField(next[q]) then "" else lane))
            && (forall i | q < i < end :: !IsField(updated[i], "status"))
            && updated[end] == lane
            && forall i | end < i < |next| :: updated[i] == next[i]
  {
    var Spot(row, col) := FrontSpot(next).value;
    FieldSpotIff(next, q);
    FrontRow(next, lane);
    FrontSpotIs(next, lane);
    FrontKeepsFence(next, lane);
    if row == q {
      RewrittenField(next[q], col, lane);
    } else {
      BlankFieldReads(next[q]);
      WordIsNoField(next[row], lane);
      SpillStopsAt(next[..later], Spot(q, 7), end);
      WordHead(lane);
      assert row == end ==> col == 0 && next[end][..0] + lane == lane;
    }
  }

  lemma WordHead(word: string)
    requires IsWord(word)
    ensures SkipBlanks(word, 0) == 0 < |word|
  {
  }

  /** Blanks are not skipped past a line that has none in front. */
  lemma {:induction false} SpillStopsAt(lines: Text, spot: Spot, end: nat)
    requires InText(lines, spot) && spot.row < end < |lines| && lines[end] != "" && !Blank(lines[end][0])
    ensures AfterBlanks(lines, spot).row <= end
    decreases end - spot.row
  {
    if SkipBlanks(lines[spot.row], spot.col) == |lines[spot.row]| && spot.row + 1 < end {
      SpillStopsAt(lines, Spot(spot.row + 1, 0), end);
    } else if SkipBlanks(lines[spot.row], spot.col) == |lines[spot.row]| {
      AfterBlanksOnLine(lines, Spot(end, 0));
    }
  }

  /** The status of a frontmatter in three parts: up to the field's block, one line that is no field, and the rest. */
  lemma StatusInParts(updated: Text, end: nat, later: nat)
    requires 1 <= end < later <= |updated| && FieldEntry(updated[end]).None?
    ensures var front, behind := Collect(FieldEntry, updated[1..end]), Collect(FieldEntry, updated[end + 1..later]);
            Get(Collect(FieldEntry, updated[1..later]), "status") ==
            if Get(behind, "status").Some? then Get(behind, "status") else Get(front, "status")
  {
    assert updated[1..later] == updated[1..end] + [updated[end]] + updated[end + 1..later];
    CollectSplit(FieldEntry, updated[1..end], updated[end], updated[end + 1..later]);
  }

  /** What is read behind the overwritten fence, from the text between the two substitutions. */
  lemma OnFenceNext(next: Text, lane: string, q: nat, end: nat, later: nat)
    requires IsWord(lane) && ':' !in lane && 1 <= q < end < later
    requires ClosingFence(next) == Some(later) && FieldRow(next) == Some(q) && next[end] == lane
    requires forall i | q < i < end :: !IsField(next[i], "status")
    ensures Get(Frontmatter(UpdateFrontmatter(next, lane)), "status") == StatusBehind(next, next[q], lane, end, later)
  {
    var updated := UpdateFrontmatter(next, lane);
    OnFenceField(next, lane, q, end, later);
    FieldOfRow(updated, end, q);
    LaneIsNoField(lane);
    StatusInParts(updated, end, later);
    SameSlice(next, updated, end + 1, later);
  }

  lemma SameSlice(a: Text, b: Text, from: nat, to: nat)
    requires from <= to <= |a| && |a| == |b| && forall i | from <= i < to :: a[i] == b[i]
    ensures a[from..to] == b[from..to]
  {
  }

  lemma LaneIsNoField(lane: string)
    requires ':' !in lane && IsWord(lane)
    ensures FieldEntry(lane).None?
  {
    WordHead(lane);
    assert lane[..0] + lane == lane;
    WordIsNoField(lane, lane);
  }

  lemma SameBehind(lines: Text, next: Text, line: string, lane: string, end: nat, later: nat)
    requires end < later <= |lines| && next == lines[end := lane]
    ensures StatusBehind(next, line, lane, end, later) == StatusBehind(lines, line, lane, end, later)
  {
    SameSlice(next, lines, end + 1, later);
  }

  /** The text between the two substitutions. */
  lemma OnFenceShape(lines: Text, next: Text, lane: string, q: nat, end: nat, later: nat)
    requires OnlyField(lines, q) && ClosingFence(lines) == Some(end)
    requires next == lines[end := lane] && ClosingFence(next) == Some(later) && end < later
    ensures FieldRow(next) == Some(q) && next[q] == lines[q] && next[end] == lane
    ensures forall i | q < i < end :: !IsField(next[i], "status")
  {
    KeyRowIs(next, 1, later, q);
  }

  lemma OnFenceReadsLater(lines: Text, next: Text, lane: string, q: nat, end: nat, later: nat)
    requires IsWord(lane) && ':' !in lane && OnlyField(lines, q) && ClosingFence(lines) == Some(end) && end < later
    requires next == lines[end := lane] && ClosingFence(next) == Some(later)
    ensures Get(Frontmatter(UpdateFrontmatter(next, lane)), "status") == StatusBehind(lines, lines[q], lane, end, later)
  {
    OnFenceShape(lines, next, lane, q, end, later);
    OnFenceNext(next, lane, q, end, later);
    SameBehind(lines, next, lines[q], lane, end, later);
  }

  /** Written on the closing fence, the status is read from all that a later fence then closes off. */
  lemma OnFenceReads(lines: Text, lane: string, q: nat)
    requires IsWord(lane) && ':' !in lane && OnlyField(lines, q) && HitRow(lines) == ClosingFence(lines)
    ensures UpdateStatus(lines, lane).Some?
    ensures Get(Frontmatter(UpdateStatus(lines, lane).value), "status") == LaterStatus(lines, lane, q)
  {
    OnFenceText(lines, lane);
    if LaterFence(lines).Some? {
      OnFenceReadsLater(
        lines, RewriteStatus(lines, lane).value, lane, q, ClosingFence(lines).value, LaterFence(lines).value);
    }
  }

  // ---------------------------------------------------------------- the whole update

  /** After the whole of `update_status`: the frontmatter reads back the new status if and only if the first
      substitution does not write on its status, and
      - where it leaves the closing fence alone, the value of that status stands on the line of its key;
      - where it overwrites the closing fence, a later line closes the frontmatter, and the status that is then
        the last one in it is the new one. */
  lemma FrontmatterReadsBackIff(lines: Text, lane: string, q: nat)
    requires IsWord(lane) && ':' !in lane && OnlyField(lines, q) && UpdateStatus(lines, lane).Some?
    ensures Get(Frontmatter(UpdateStatus(lines, lane).value), "status") == Some(lane) <==>
            && HitRow(lines) != Some(q)
            && if HitRow(lines) == ClosingFence(lines) then LaterStatus(lines, lane, q) == Some(lane)
               else FrontSpot(lines).value.row == q
  {
    if HitRow(lines) == Some(q) {
      OnFieldLosesIt(lines, lane, q);
    } else if HitRow(lines) == ClosingFence(lines) {
      OnFenceReads(lines, lane, q);
    } else {
      var next := RewriteStatus(lines, lane).value;
      ElsewhereKeepsField(lines, lane, q);
      FieldReadsBackIff(next, lane, q);
      FieldSpotIff(lines, q);
      FieldSpotIff(next, q);
    }
  }

  /** The frontmatter's one status field does not start with the key, as an indented one does not. */
  ghost predicate OnlyIndentedField(lines: Text, q: nat) {
    && ClosingFence(lines).Some? && 1 <= q < ClosingFence(lines).value
    && IsField(lines[q], "status") && !(STATUS_KEY <= lines[q])
    && forall i | 1 <= i < ClosingFence(lines).value && i != q :: !IsField(lines[i], "status")
  }

  lemma FieldHead(line: string)
    requires IsField(line, "status")
    ensures SkipBlanks(line, 0) < |line| && line[SkipBlanks(line, 0)] != '-' && line[SkipBlanks(line, 0)] != '`'
  {
    var name := line[..NextColon(line, 0)];
    SkipBlanksPassed(name, 0);
    if SkipBlanks(name, 0) == |name| {
      StripBlank(name);
    } else {
      StripStart(name, SkipBlanks(name, 0));
      SkipBlanksSame(line, name, 0, |name|);
      assert Strip(name)[0] == "status"[0];
    }
  }

  /** Stripping starts at the first character that is not blank. */
  lemma {:induction false} StripStart(s: string, i: nat)
    requires i < |s| && !Blank(s[i]) && forall k | 0 <= k < i :: Blank(s[k])
    ensures Strip(s) != "" ==> Strip(s)[0] == s[i]
  {
    if i == 0 {
      TrimEndSplits(Blank, s);
    } else {
      StripStart(s[1..], i - 1);
    }
  }

  /** Written on the field or elsewhere, the first substitution leaves no key for the second. */
  lemma IndentedHasNoKey(lines: Text, lane: string, q: nat)
    requires IsWord(lane) && ':' !in lane && OnlyIndentedField(lines, q)
    requires HitRow(lines).Some? && HitRow(lines) != ClosingFence(lines)
    ensures var next := RewriteStatus(lines, lane).value;
            ClosingFence(next) == ClosingFence(lines) && KeyRow(next, 1, ClosingFence(lines).value).None?
  {
    var next, end, r := RewriteStatus(lines, lane).value, ClosingFence(lines).value, HitRow(lines).value;
    RewrittenRow(lines, lane);
    FenceFromStays(lines, next, 2, end);
    WrittenIsNoStatusKey(lines[r], HitCol(lines), lane);
    forall i | 1 <= i < end ensures !(STATUS_KEY <= next[i]) {
      if STATUS_KEY <= lines[i] {
        KeyLineIsField(lines[i]);
      }
    }
  }

  lemma IndentedKeepsFields(lines: Text, lane: string, q: nat)
    requires IsWord(lane) && ':' !in lane && OnlyIndentedField(lines, q)
    requires HitRow(lines).Some? && HitRow(lines) != ClosingFence(lines)
    ensures var next := RewriteStatus(lines, lane).value;
            && (forall i | 1 <= i < ClosingFence(lines).value && i != q :: !IsField(next[i], "status"))
            && (if HitRow(lines) == Some(q) then !IsField(next[q], "status") else next[q] == lines[q])
  {
    var r := HitRow(lines).value;
    RewrittenRow(lines, lane);
    WrittenField(lines[r], HitCol(lines), lane, "status");
    if r == q {
      FieldHead(lines[q]);
      WordIsNoField(lines[q], lane);
    }
  }

  /** An indented status is not rewritten: it stays, or the first substitution overwrites it. */
  lemma IndentedFieldIsNotReadBack(lines: Text, lane: string, q: nat)
    requires IsWord(lane) && ':' !in lane && OnlyIndentedField(lines, q) && FieldEntry(lines[q]).value.value != lane
    requires HitRow(lines).Some? && HitRow(lines) != ClosingFence(lines)
    ensures UpdateStatus(lines, lane).Some?
    ensures Get(Frontmatter(UpdateStatus(lines, lane).value), "status") != Some(lane)
  {
    var next, end := RewriteStatus(lines, lane).value, ClosingFence(lines).value;
    IndentedHasNoKey(lines, lane, q);
    IndentedKeepsFields(lines, lane, q);
    if HitRow(lines) == Some(q) {
      NoFieldNoStatus(next, end);
    } else {
      FieldOfRow(next, end, q);
    }
  }

  lemma NoFieldNoStatus(lines: Text, end: nat)
    requires 1 <= end <= |lines| && forall i | 1 <= i < end :: !IsField(lines[i], "status")
    ensures "status" !in Collect(FieldEntry, lines[1..end])
  {
    var body := lines[1..end];
    forall i | 0 <= i < |body| ensures FieldEntry(body[i]).Some? ==> FieldEntry(body[i]).value.key != "status" {
      assert body[i] == lines[i + 1] && !IsField(lines[i + 1], "status");
    }
    CollectKey(FieldEntry, body, "status");
  }

  // ---------------------------------------------------------------- witnesses

  /** A blank frontmatter status above another field, which is overwritten. */
  lemma FieldIsNotReadBack(text: Text, status: string, lane: string)
    requires IsFenced(text, "ready: true") && text[4] == KeyLine("status", status)
    requires IsWord(status) && IsWord(lane) && ':' !in lane
    ensures UpdateStatus(text, lane).Some?
    ensures Get(Frontmatter(UpdateStatus(text, lane).value), "status") != Some(lane)
  {
    ReadyReads(text[2]);
    FramedParts(text, text[2]);
    FramedSpot(text, text[2]);
    KeyLineReads("status", status);
    SpotOfKeyLine(text, 4, "status");
    MatchIsFound(text, "status", 0, 4);
    assert LaterFence(text).None?;
    FrontmatterReadsBackIff(text, lane, 1);
  }

  lemma BlankKeyIsNoField(line: string)
    requires line == "- `status`:"
    ensures !IsField(line, "status")
  {
    assert line[10] == ':' && forall k | 0 <= k < 10 :: line[k] != ':';
    NextColonAt(line, 0, 10);
    StripWordLine(line[..10]);
  }

  lemma StripWordLine(s: string)
    requires s == "- `status`"
    ensures Strip(s) == s
  {
    assert s[0] == '-' && s[9] == '`';
    StripWord(s);
  }

  /** A blank metadata status inside the frontmatter: what stands below it is overwritten. */
  lemma BlankKeyHits(text: Text, row: nat)
    requires row + 1 < |text| && text[row] == "- `status`:" && SkipBlanks(text[row + 1], 0) < |text[row + 1]|
    requires forall i | 0 <= i < row :: ValueSpot(text, "status", i).None?
    ensures HitRow(text) == Some(row + 1)
  {
    BlankKeyLine(text[row]);
    SpotOfKeyLine(text, row, "status");
    BlankSpills(text, Spot(row, KeyEnd(text[row])));
    FindRowHit(text, "status", 0, row);
  }

  lemma StatusField(line: string)
    requires line == "status: qa"
    ensures STATUS_KEY <= line && line != FENCE && SkipBlanks(line, 0) < |line|
  {
    assert line[..7] == STATUS_KEY;
    FieldLineIsNoEntry(line);
  }

  lemma FieldBelowParts(text: Text)
    requires |text| == 5 && text[0] == FENCE && text[2] == "status: qa" && text[3] == FENCE
    requires !IsField(text[1], "status") && !(STATUS_KEY <= text[1])
    ensures OnlyField(text, 2)
  {
    StatusField(text[2]);
    assert FenceFrom(text, 3) == Some(3);
    assert FenceFrom(text, 2) == Some(3);
    assert KeyRow(text, 2, 3) == Some(2);
  }

  lemma FieldBelow(text: Text)
    requires |text| == 5 && text[0] == FENCE && text[1] == "- `status`:" && text[2] == "status: qa" && text[3] == FENCE
    ensures OnlyField(text, 2) && HitRow(text) == Some(2)
  {
    StatusField(text[2]);
    BlankKeyIsNoField(text[1]);
    BlankKeyLine(text[1]);
    KeyLineHead(text[1]);
    FieldBelowParts(text);
    FenceMatchesNothing(text, "status", 0);
    BlankKeyHits(text, 1);
  }

  /** A blank metadata status right above the frontmatter's, which is overwritten. */
  lemma OverwrittenFieldIsNotReadBack(text: Text, lane: string)
    requires |text| == 5 && text[0] == FENCE && text[1] == "- `status`:" && text[2] == "status: qa" && text[3] == FENCE
    requires IsWord(lane) && ':' !in lane
    ensures UpdateStatus(text, lane).Some?
    ensures Get(Frontmatter(UpdateStatus(text, lane).value), "status") != Some(lane)
  {
    FieldBelow(text);
    FrontmatterReadsBackIff(text, lane, 2);
  }

  lemma FenceBelowParts(text: Text)
    requires |text| == 5 && text[0] == FENCE && text[1] == "status: qa" && text[3] == FENCE
    requires !IsField(text[2], "status") && text[2] != FENCE
    ensures OnlyField(text, 1) && ClosingFence(text) == Some(3)
  {
    StatusField(text[1]);
    assert FenceFrom(text, 3) == Some(3);
    assert FenceFrom(text, 2) == Some(3);
  }

  lemma FenceBelow(text: Text)
    requires |text| == 5 && text[0] == FENCE && text[1] == "status: qa" && text[2] == "- `status`:" && text[3] == FENCE
    ensures OnlyField(text, 1) && HitRow(text) == Some(3) == ClosingFence(text)
  {
    StatusField(text[1]);
    BlankKeyIsNoField(text[2]);
    BlankKeyLine(text[2]);
    KeyLineHead(text[2]);
    FenceBelowParts(text);
    assert SkipBlanks(FENCE, 0) == 0;
    FenceMatchesNothing(text, "status", 0);
    FieldMatchesNothing(text, "status", 1);
    BlankKeyHits(text, 2);
  }

  /** A blank metadata status right above the closing fence, which is overwritten. */
  lemma OverwrittenFenceIsNotReadBack(text: Text, lane: string)
    requires |text| == 5 && text[0] == FENCE && text[1] == "status: qa" && text[2] == "- `status`:" && text[3] == FENCE
    requires IsWord(lane) && ':' !in lane
    ensures UpdateStatus(text, lane).Some?
    ensures Get(Frontmatter(UpdateStatus(text, lane).value), "status") != Some(lane)
  {
    FenceBelow(text);
    assert LaterFence(text).None?;
    FrontmatterReadsBackIff(text, lane, 1);
  }
}
