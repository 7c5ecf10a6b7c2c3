/** Writing a status with the state tool and reading it back with the checker. */
module ItemRoundTrip {
  import opened Options
  import opened ItemText

  // ---------------------------------------------------------------- the status alone

  /** `row` is the one metadata line with this key. */
  ghost predicate OnlyKeyRow(lines: Text, key: string, row: nat) {
    && row < |lines|
    && IsKeyLine(lines[row], key)
    && forall i | 0 <= i < |lines| && i != row :: !IsKeyLine(lines[i], key)
  }

  lemma {:induction false} AfterBlanksSpills(lines: Text, spot: Spot)
    requires InText(lines, spot)
    ensures var after := AfterBlanks(lines, spot);
            && spot.row <= after.row
            && (after.row == spot.row ==> after.col == SkipBlanks(lines[spot.row], spot.col))
            && (after.row > spot.row ==>
                  && SkipBlanks(lines[spot.row], spot.col) == |lines[spot.row]|
                  && after.col == SkipBlanks(lines[after.row], 0))
    decreases |lines| - spot.row
  {
    if SkipBlanks(lines[spot.row], spot.col) == |lines[spot.row]| && spot.row + 1 < |lines| {
      AfterBlanksSpills(lines, Spot(spot.row + 1, 0));
    }
  }

  lemma BlankValue(line: string)
    requires KeySpan(line).Some? && SkipBlanks(line, KeyEnd(line)) == |line|
    ensures MetaEntry(line).value.value == ""
  {
    SkipBlanksPassed(line, KeyEnd(line));
    StripBlank(line[KeyEnd(line)..]);
  }

  /** A word behind nothing but blanks is no metadata line. */
  lemma WordIsNoEntry(line: string, word: string)
    requires IsWord(word)
    ensures MetaEntry(line[..SkipBlanks(line, 0)] + word).None?
  {
    var c := SkipBlanks(line, 0);
    SkipBlanksPassed(line, 0);
    SkipBlanksTo(line[..c] + word, 0, c);
  }

  lemma RewriteOnLine(lines: Text, lane: string, row: nat)
    requires IsWord(lane)
    requires OnlyKeyRow(lines, "status", row)
    requires FindRow(lines, "status", 0) == Some(row)
    requires ValueSpot(lines, "status", row).value.row == row
    ensures var c := SkipBlanks(lines[row], KeyEnd(lines[row]));
            && RewriteStatus(lines, lane) == Some(lines[row := lines[row][..c] + lane])
            && MetaEntry(lines[row][..c] + lane) == Some(Entry("status", lane))
  {
    SpotOfKeyLine(lines, row, "status");
    AfterBlanksSpills(lines, Spot(row, KeyEnd(lines[row])));
    RewrittenLine(lines[row], SkipBlanks(lines[row], KeyEnd(lines[row])), lane);
  }

  /** Where the tool's first match is the checker's status line: the new status is read back if and only if
      the old value starts on that line. Where the value is left blank, the pattern runs on into the next
      line that is not blank, overwrites that one, and the checker reads an empty status. */
  lemma MatchReadsBackIff(lines: Text, lane: string, row: nat)
    requires IsWord(lane)
    requires OnlyKeyRow(lines, "status", row)
    requires FindRow(lines, "status", 0) == Some(row)
    ensures RewriteStatus(lines, lane).Some?
    ensures Get(Metadata(RewriteStatus(lines, lane).value), "status") == Some(lane) <==>
            ValueSpot(lines, "status", row).value.row == row
  {
    var line := lines[row];
    SpotOfKeyLine(lines, row, "status");
    var spot := AfterBlanks(lines, Spot(row, KeyEnd(line)));
    AfterBlanksSpills(lines, Spot(row, KeyEnd(line)));
    var updated := RewriteStatus(lines, lane).value;
    if spot.row == row {
      RewriteOnLine(lines, lane, row);
      CollectPut(MetaEntry, lines, row, updated[row]);
      CollectOnly(MetaEntry, updated, row);
    } else {
      BlankValue(line);
      WordIsNoEntry(lines[spot.row], lane);
      assert updated[row] == line;
      CollectOnly(MetaEntry, updated, row);
    }
  }

  // ---------------------------------------------------------------- clean items

  predicate IsField(line: string, key: string) {
    FieldEntry(line).Some? && FieldEntry(line).value.key == key
  }

  /** Either the text has no frontmatter at all, or it is closed and states a status at most once: on
      a line that starts with the key and has the value on it. */
  ghost predicate CleanFrontmatter(lines: Text) {
    lines != [] && lines[0] == FENCE ==>
      && ClosingFence(lines).Some?
      && var end := ClosingFence(lines).value;
         && (forall i | 1 <= i < end && IsField(lines[i], "status") :: KeyRow(lines, 1, end) == Some(i))
         && (KeyRow(lines, 1, end).Some? ==> !IsBlankFrom(lines[KeyRow(lines, 1, end).value], |STATUS_KEY|))
  }

  predicate IsBlankFrom(line: string, i: nat)
    requires i <= |line|
  {
    SkipBlanks(line, i) == |line|
  }

  /** The first status key that the tool finds is the only one, its value is on its line, and it stands
      below the frontmatter. */
  ghost predicate CleanAt(lines: Text, row: nat) {
    && OnlyKeyRow(lines, "status", row)
    && FindRow(lines, "status", 0) == Some(row)
    && MetaEntry(lines[row]).value.value != ""
    && CleanFrontmatter(lines)
    && (ClosingFence(lines).Some? ==> ClosingFence(lines).value < row)
  }

  ghost predicate Clean(lines: Text) {
    exists row :: CleanAt(lines, row)
  }

  lemma CleanStatus(lines: Text, row: nat)
    requires CleanAt(lines, row)
    ensures Get(Metadata(lines), "status") == Some(MetaEntry(lines[row]).value.value)
  {
    CollectOnly(MetaEntry, lines, row);
  }

  // ---------------------------------------------------------------- fields of the frontmatter

  lemma {:induction false} NextColonAt(s: string, i: nat, j: nat)
    requires i <= j < |s| && s[j] == ':'
    requires forall k | i <= k < j :: s[k] != ':'
    ensures NextColon(s, i) == j
    decreases j - i
  {
    if i < j {
      NextColonAt(s, i + 1, j);
    }
  }

  /** A line that starts with the status key is a field of that name. */
  lemma KeyLineIsField(line: string)
    requires STATUS_KEY <= line
    ensures FieldEntry(line) == Some(Entry("status", Strip(line[7..])))
  {
    var word := line[..6];
    assert word == "status";
    forall k | 0 <= k < 6 ensures line[k] != ':' {
      assert line[k] == word[k];
    }
    assert line[6] == STATUS_KEY[6];
    NextColonAt(line, 0, 6);
    StripWord(word);
  }

  lemma RewrittenField(line: string, c: nat, word: string)
    requires STATUS_KEY <= line && IsWord(word)
    requires c == SkipBlanks(line, 7)
    ensures STATUS_KEY <= line[..c] + word
    ensures FieldEntry(line[..c] + word) == Some(Entry("status", word))
    ensures SkipBlanks(line[..c] + word, 7) == c
  {
    var next := line[..c] + word;
    assert STATUS_KEY == line[..7] == next[..7];
    KeyLineIsField(next);
    SkipBlanksPassed(line, 7);
    PaddedValue(line, 7, c, word);
    SkipBlanksTo(next, 7, c);
  }

  // ---------------------------------------------------------------- what rewriting a row leaves alone

  lemma {:induction false} FenceFromSame(a: Text, b: Text, j: nat)
    requires |a| == |b| && j <= |a|
    requires forall i | 0 <= i < |a| :: a[i] == FENCE <==> b[i] == FENCE
    ensures FenceFrom(a, j) == FenceFrom(b, j)
    decreases |a| - j
  {
    if j < |a| {
      FenceFromSame(a, b, j + 1);
    }
  }

  lemma {:induction false} KeyRowSame(a: Text, b: Text, row: nat, end: nat)
    requires row <= end <= |a| && end <= |b|
    requires forall i | row <= i < end :: STATUS_KEY <= a[i] <==> STATUS_KEY <= b[i]
    ensures KeyRow(a, row, end) == KeyRow(b, row, end)
    decreases end - row
  {
    if row < end {
      KeyRowSame(a, b, row + 1, end);
    }
  }

  lemma FieldLineIsNoEntry(line: string)
    requires STATUS_KEY <= line
    ensures MetaEntry(line).None? && BehindDash(line).None?
    ensures line != FENCE
  {
    assert line[0] == STATUS_KEY[0];
    assert SkipBlanks(line, 0) == 0;
  }

  lemma DashLineHead(line: string)
    requires BehindDash(line).Some?
    ensures SkipBlanks(line, 0) < |line| && line[SkipBlanks(line, 0)] == '-'
    ensures !(STATUS_KEY <= line)
  {
    if STATUS_KEY <= line {
      FieldLineIsNoEntry(line);
    }
  }

  lemma FenceIsNoKeyLine()
    ensures KeySpan(FENCE).None?
  {
    assert SkipBlanks(FENCE, 0) == 0;
    assert SkipBlanks(FENCE, 1) == 1;
  }

  // ---------------------------------------------------------------- the first match stays the first

  lemma {:induction false} FindRowFirst(lines: Text, key: string, from: nat, row: nat, i: nat)
    requires from <= i < row < |lines|
    requires FindRow(lines, key, from) == Some(row)
    ensures ValueSpot(lines, key, i).None?
    decreases row - from
  {
    if from < i {
      FindRowFirst(lines, key, from + 1, row, i);
    }
  }

  lemma {:induction false} FindRowHit(lines: Text, key: string, from: nat, row: nat)
    requires from <= row < |lines| && ValueSpot(lines, key, row).Some?
    requires forall i | from <= i < row :: ValueSpot(lines, key, i).None?
    ensures FindRow(lines, key, from) == Some(row)
    decreases row - from
  {
    if from < row {
      assert ValueSpot(lines, key, from).None?;
      FindRowHit(lines, key, from + 1, row);
    }
  }

  /** Above `row` the texts agree, but for lines that start with the frontmatter's status key; both
      have a dash on `row`. */
  ghost predicate SameAbove(a: Text, b: Text, row: nat) {
    && row < |a| && row < |b|
    && BehindDash(a[row]).Some? && BehindDash(b[row]).Some?
    && forall i | 0 <= i < row :: a[i] == b[i] || (STATUS_KEY <= a[i] && STATUS_KEY <= b[i])
  }

  lemma {:induction false} KeyAheadSame(a: Text, b: Text, key: string, spot: Spot, row: nat)
    requires SameAbove(a, b, row)
    requires spot.row < row && spot.col <= |a[spot.row]| && a[spot.row] == b[spot.row]
    ensures var x, y := AfterBlanks(a, spot), AfterBlanks(b, spot);
            HasKeyAt(a[x.row], x.col, key) <==> HasKeyAt(b[y.row], y.col, key)
    decreases row - spot.row
  {
    var next := spot.row + 1;
    if SkipBlanks(a[spot.row], spot.col) == |a[spot.row]| {
      if next == row {
        DashLineHead(a[row]);
        DashLineHead(b[row]);
        AfterBlanksOnLine(a, Spot(row, 0));
        AfterBlanksOnLine(b, Spot(row, 0));
      } else if a[next] == b[next] {
        KeyAheadSame(a, b, key, Spot(next, 0), row);
      } else {
        FieldAhead(a, key, next);
        FieldAhead(b, key, next);
      }
    }
  }

  lemma FieldAhead(lines: Text, key: string, row: nat)
    requires row < |lines| && STATUS_KEY <= lines[row]
    ensures AfterBlanks(lines, Spot(row, 0)) == Spot(row, 0)
    ensures !HasKeyAt(lines[row], 0, key)
  {
    assert lines[row][0] == STATUS_KEY[0];
    assert SkipBlanks(lines[row], 0) == 0;
  }

  lemma FirstMatchStays(a: Text, b: Text, key: string, row: nat)
    requires SameAbove(a, b, row)
    requires FindRow(a, key, 0) == Some(row)
    requires IsKeyLine(b[row], key)
    ensures FindRow(b, key, 0) == Some(row)
  {
    SpotOfKeyLine(b, row, key);
    forall i | 0 <= i < row ensures ValueSpot(b, key, i).None? {
      FindRowFirst(a, key, 0, row, i);
      NoMatchStays(a, b, key, i, row);
    }
    FindRowHit(b, key, 0, row);
  }

  lemma NoMatchStays(a: Text, b: Text, key: string, i: nat, row: nat)
    requires SameAbove(a, b, row) && i < row
    requires ValueSpot(a, key, i).None?
    ensures ValueSpot(b, key, i).None?
  {
    if a[i] != b[i] {
      FieldLineIsNoEntry(b[i]);
    } else if BehindDash(a[i]).Some? {
      KeyAheadSame(a, b, key, Spot(i, BehindDash(a[i]).value), row);
    }
  }

  // ---------------------------------------------------------------- updating a clean item

  /** The first step: only the status line changes, and it states the new lane. */
  lemma RewriteClean(lines: Text, lane: string, row: nat)
    requires CleanAt(lines, row) && IsWord(lane)
    ensures RewriteStatus(lines, lane).Some?
    ensures var next := RewriteStatus(lines, lane).value;
            && |next| == |lines| && next == lines[row := next[row]]
            && IsKeyLine(next[row], "status") && MetaEntry(next[row]) == Some(Entry("status", lane))
            && ClosingFence(next) == ClosingFence(lines)
  {
    SpotOnLine(lines, row, "status");
    RewriteOnLine(lines, lane, row);
    var next := RewriteStatus(lines, lane).value;
    FenceIsNoKeyLine();
    if |lines| >= 2 {
      FenceFromSame(lines, next, 2);
    }
  }

  /** The second step: at most the frontmatter's status line changes. */
  lemma UpdateFrontmatterClean(lines: Text, next: Text, lane: string, row: nat)
    requires CleanAt(lines, row) && IsWord(lane)
    requires |next| == |lines| && next == lines[row := next[row]]
    requires ClosingFence(next) == ClosingFence(lines)
    ensures var end := ClosingFence(lines);
            var q := if end.None? then None else KeyRow(lines, 1, end.value);
            var updated := UpdateFrontmatter(next, lane);
            if q.None? then updated == next
            else
              && updated == next[q.value := updated[q.value]] && |updated| == |next|
              && q.value < end.value
              && STATUS_KEY <= updated[q.value]
              && FieldEntry(updated[q.value]) == Some(Entry("status", lane))
              && !IsBlankFrom(updated[q.value], |STATUS_KEY|)
  {
    var end := ClosingFence(lines);
    if end.Some? {
      KeyRowSame(lines, next, 1, end.value);
      var q := KeyRow(lines, 1, end.value);
      if q.Some? {
        var c := SkipBlanks(lines[q.value], 7);
        AfterBlanksOnLine(next[..end.value], Spot(q.value, 7));
        RewrittenField(lines[q.value], c, lane);
      }
    }
  }

  /** The row of the frontmatter's status, if it states one. */
  function FieldRow(lines: Text): (row: Option<nat>)
    ensures row.Some? ==>
              ClosingFence(lines).Some? && 1 <= row.value < ClosingFence(lines).value && STATUS_KEY <= lines[row.value]
  {
    if ClosingFence(lines).None? then None else KeyRow(lines, 1, ClosingFence(lines).value)
  }

  lemma FieldRowStatesStatus(lines: Text)
    requires CleanFrontmatter(lines)
    ensures "status" in Frontmatter(lines) <==> FieldRow(lines).Some?
  {
    if ClosingFence(lines).Some? {
      var end := ClosingFence(lines).value;
      var body := lines[1..end];
      if FieldRow(lines).Some? {
        var q := FieldRow(lines).value;
        KeyLineIsField(lines[q]);
        NoStatusBehind(lines, q);
        CollectOnly(FieldEntry, body, q - 1);
      } else {
        forall i | 0 <= i < |body| ensures FieldEntry(body[i]).Some? ==> FieldEntry(body[i]).value.key != "status" {
          assert body[i] == lines[i + 1];
          assert !IsField(lines[i + 1], "status");
        }
        CollectKey(FieldEntry, body, "status");
      }
    }
  }

  lemma NoStatusBehind(lines: Text, q: nat)
    requires CleanFrontmatter(lines) && FieldRow(lines) == Some(q)
    ensures NoKeyFrom(FieldEntry, lines[1..ClosingFence(lines).value], q, "status")
  {
    var body := lines[1..ClosingFence(lines).value];
    forall i | q <= i < |body| ensures FieldEntry(body[i]).Some? ==> FieldEntry(body[i]).value.key != "status" {
      assert body[i] == lines[i + 1];
      assert !IsField(lines[i + 1], "status");
    }
  }

  /** `updated` is `lines` with the status line and at most the frontmatter's status line rewritten. */
  ghost predicate IsUpdated(lines: Text, updated: Text, lane: string, row: nat) {
    && row < |lines| && |updated| == |lines|
    && IsKeyLine(updated[row], "status") && MetaEntry(updated[row]) == Some(Entry("status", lane))
    && (FieldRow(lines).Some? ==>
          && STATUS_KEY <= updated[FieldRow(lines).value]
          && FieldEntry(updated[FieldRow(lines).value]) == Some(Entry("status", lane))
          && !IsBlankFrom(updated[FieldRow(lines).value], |STATUS_KEY|))
    && forall i | 0 <= i < |lines| && i != row && FieldRow(lines) != Some(i) :: updated[i] == lines[i]
  }

  lemma UpdateIsUpdated(lines: Text, lane: string, row: nat)
    requires CleanAt(lines, row) && IsWord(lane)
    ensures UpdateStatus(lines, lane).Some?
    ensures IsUpdated(lines, UpdateStatus(lines, lane).value, lane, row)
  {
    RewriteClean(lines, lane, row);
    UpdateFrontmatterClean(lines, RewriteStatus(lines, lane).value, lane, row);
  }

  lemma UpdatedFence(lines: Text, updated: Text, lane: string, row: nat)
    requires CleanAt(lines, row) && IsUpdated(lines, updated, lane, row)
    ensures forall i | 0 <= i < |lines| :: lines[i] == FENCE <==> updated[i] == FENCE
    ensures ClosingFence(updated) == ClosingFence(lines)
    ensures FieldRow(updated) == FieldRow(lines)
  {
    FenceIsNoKeyLine();
    forall i | 0 <= i < |lines| ensures lines[i] == FENCE <==> updated[i] == FENCE {
      if FieldRow(lines) == Some(i) {
        FieldLineIsNoEntry(lines[i]);
        FieldLineIsNoEntry(updated[i]);
      }
    }
    if |lines| >= 2 {
      FenceFromSame(lines, updated, 2);
    }
    if ClosingFence(lines).Some? {
      KeyRowSame(lines, updated, 1, ClosingFence(lines).value);
    }
  }

  /** Two rows rewritten: one keeps its key, the other is no entry before or after. */
  lemma TwoRows(read: string -> Option<Entry>, lines: Text, row: nat, line: string, q: nat, other: string)
    requires row < |lines| && q < |lines| && q != row
    requires read(line).Some? && read(lines[row]).Some? && read(line).value.key == read(lines[row]).value.key
    requires NoKeyFrom(read, lines, row + 1, read(line).value.key)
    requires read(lines[q]).None? && read(other).None?
    ensures Collect(read, lines[row := line][q := other]) ==
            Collect(read, lines)[read(line).value.key := read(line).value.value]
  {
    CollectPut(read, lines, row, line);
    CollectKeep(read, lines[row := line], q, other);
  }

  lemma NoStatusKeyBehind(lines: Text, row: nat)
    requires OnlyKeyRow(lines, "status", row)
    ensures NoKeyFrom(MetaEntry, lines, row + 1, "status")
  {
    assert forall i | row < i < |lines| :: !IsKeyLine(lines[i], "status");
  }

  lemma UpdatedRows(lines: Text, updated: Text, lane: string, row: nat)
    requires IsUpdated(lines, updated, lane, row)
    ensures FieldRow(lines).None? ==> updated == lines[row := updated[row]]
    ensures FieldRow(lines).Some? ==>
              updated == lines[row := updated[row]][FieldRow(lines).value := updated[FieldRow(lines).value]]
  {
  }

  lemma UpdatedMetadata(lines: Text, updated: Text, lane: string, row: nat)
    requires CleanAt(lines, row) && IsUpdated(lines, updated, lane, row)
    ensures Metadata(updated) == Metadata(lines)["status" := lane]
  {
    NoStatusKeyBehind(lines, row);
    UpdatedRows(lines, updated, lane, row);
    if FieldRow(lines).Some? {
      var q := FieldRow(lines).value;
      FieldLineIsNoEntry(lines[q]);
      FieldLineIsNoEntry(updated[q]);
      TwoRows(MetaEntry, lines, row, updated[row], q, updated[q]);
    } else {
      CollectPut(MetaEntry, lines, row, updated[row]);
    }
  }

  /** A slice in which at most one row differs. */
  lemma SliceOneRow(a: Text, b: Text, end: nat, q: Option<nat>)
    requires 1 <= end <= |a| && |a| == |b|
    requires q.Some? ==> 1 <= q.value < end
    requires forall i | 1 <= i < end && q != Some(i) :: a[i] == b[i]
    ensures b[1..end] == if q.None? then a[1..end] else a[1..end][q.value - 1 := b[q.value]]
  {
  }

  lemma UpdatedField(lines: Text, updated: Text, lane: string, q: nat)
    requires CleanFrontmatter(lines) && FieldRow(lines) == Some(q) && q < |updated|
    requires FieldEntry(updated[q]) == Some(Entry("status", lane))
    ensures Collect(FieldEntry, lines[1..ClosingFence(lines).value][q - 1 := updated[q]]) == Frontmatter(lines)["status" := lane]
  {
    KeyLineIsField(lines[q]);
    NoStatusBehind(lines, q);
    CollectPut(FieldEntry, lines[1..ClosingFence(lines).value], q - 1, updated[q]);
  }

  lemma UpdatedFrontmatter(lines: Text, updated: Text, lane: string, row: nat)
    requires CleanAt(lines, row) && IsUpdated(lines, updated, lane, row)
    ensures Frontmatter(updated) ==
            if FieldRow(lines).Some? then Frontmatter(lines)["status" := lane] else Frontmatter(lines)
  {
    UpdatedFence(lines, updated, lane, row);
    if ClosingFence(lines).Some? {
      SliceOneRow(lines, updated, ClosingFence(lines).value, FieldRow(lines));
      if FieldRow(lines).Some? {
        UpdatedField(lines, updated, lane, FieldRow(lines).value);
      }
    }
  }

  lemma UpdatedOnlyKeyRow(lines: Text, updated: Text, lane: string, row: nat)
    requires CleanAt(lines, row) && IsUpdated(lines, updated, lane, row)
    ensures OnlyKeyRow(updated, "status", row)
  {
    forall i | 0 <= i < |updated| && i != row ensures !IsKeyLine(updated[i], "status") {
      if FieldRow(lines) == Some(i) {
        FieldLineIsNoEntry(updated[i]);
      }
    }
  }

  lemma UpdatedCleanFrontmatter(lines: Text, updated: Text, lane: string, row: nat)
    requires CleanAt(lines, row) && IsUpdated(lines, updated, lane, row)
    ensures CleanFrontmatter(updated)
  {
    UpdatedFence(lines, updated, lane, row);
  }

  /** Writing a clean item and reading it back: the metadata and the frontmatter state the new lane,
      every other key keeps its value, and the item is clean again. */
  lemma UpdateReadsBack(lines: Text, lane: string, row: nat)
    requires CleanAt(lines, row) && IsWord(lane)
    ensures UpdateStatus(lines, lane).Some?
    ensures var updated := UpdateStatus(lines, lane).value;
            && CleanAt(updated, row)
            && Metadata(updated) == Metadata(lines)["status" := lane]
            && Frontmatter(updated) ==
               if "status" in Frontmatter(lines) then Frontmatter(lines)["status" := lane] else Frontmatter(lines)
  {
    UpdateIsUpdated(lines, lane, row);
    var updated := UpdateStatus(lines, lane).value;
    UpdatedMetadata(lines, updated, lane, row);
    FieldRowStatesStatus(lines);
    UpdatedFrontmatter(lines, updated, lane, row);
    UpdatedOnlyKeyRow(lines, updated, lane, row);
    UpdatedCleanFrontmatter(lines, updated, lane, row);
    UpdatedFence(lines, updated, lane, row);
    assert SameAbove(lines, updated, row);
    FirstMatchStays(lines, updated, "status", row);
  }
}
