/** When a rewritten status is read back: the two substitutions of `update_status` run on to a later line
    when the value they replace is blank, and then they overwrite what stands there. */
module ItemSpills {
  import opened Options
  import opened ItemText
  import opened ItemRoundTrip
  import opened ItemHistory

  // ---------------------------------------------------------------- where the frontmatter's value goes

  /** Where the second substitution writes, if the frontmatter has a status key. */
  function FrontSpot(lines: Text): (spot: Option<Spot>)
    ensures spot.Some? ==> InText(lines, spot.value)
  {
    if FieldRow(lines).None? then None
    else Some(AfterBlanks(lines[..ClosingFence(lines).value], Spot(FieldRow(lines).value, |STATUS_KEY|)))
  }

  lemma FrontSpotIs(lines: Text, lane: string)
    ensures UpdateFrontmatter(lines, lane) ==
            if FrontSpot(lines).None? then lines else PutAt(lines, FrontSpot(lines).value, lane)
  {
  }

  /** The rewritten line, and the one that was there. */
  lemma FrontRow(lines: Text, lane: string)
    requires IsWord(lane) && FrontSpot(lines).Some?
    ensures var Spot(row, col), q := FrontSpot(lines).value, FieldRow(lines).value;
            && q <= row < ClosingFence(lines).value
            && (row > q ==> SkipBlanks(lines[q], 7) == |lines[q]|)
            && (row == q ==> col == SkipBlanks(lines[q], 7))
            && (row > q ==> col == SkipBlanks(lines[row], 0))
  {
    var end, q := ClosingFence(lines).value, FieldRow(lines).value;
    AfterBlanksSpills(lines[..end], Spot(q, 7));
  }

  lemma WordIsNoFence(line: string, word: string)
    requires IsWord(word)
    ensures line[..SkipBlanks(line, 0)] + word != FENCE
  {
    var c := SkipBlanks(line, 0);
    var next := line[..c] + word;
    SkipBlanksPassed(line, 0);
    assert next[c] == word[0];
    SkipBlanksTo(next, 0, c);
    assert SkipBlanks(FENCE, 0) == 0;
  }

  // ---------------------------------------------------------------- the checker's status

  /** The second substitution writes on the metadata line `row`. */
  predicate FrontHits(lines: Text, row: nat) {
    FrontSpot(lines).Some? && FrontSpot(lines).value.row == row
  }

  lemma FrontWritesNoEntry(lines: Text, lane: string)
    requires IsWord(lane) && FrontSpot(lines).Some?
    ensures var Spot(row, col) := FrontSpot(lines).value; MetaEntry(lines[row][..col] + lane).None?
  {
    var Spot(row, col) := FrontSpot(lines).value;
    var q := FieldRow(lines).value;
    FrontRow(lines, lane);
    if row == q {
      RewrittenField(lines[q], col, lane);
      FieldLineIsNoEntry(lines[q][..col] + lane);
    } else {
      WordIsNoEntry(lines[row], lane);
    }
  }

  /** What the second substitution does to the checker's status. */
  lemma FrontEffect(lines: Text, lane: string, row: nat)
    requires IsWord(lane) && OnlyKeyRow(lines, "status", row)
    ensures Get(Metadata(UpdateFrontmatter(lines, lane)), "status") ==
            if FrontHits(lines, row) then None else Get(Metadata(lines), "status")
  {
    FrontSpotIs(lines, lane);
    if FrontSpot(lines).Some? {
      var Spot(r, col) := FrontSpot(lines).value;
      var updated := UpdateFrontmatter(lines, lane);
      FrontWritesNoEntry(lines, lane);
      if r == row {
        NoKeyWithoutRow(updated, row);
      } else {
        assert updated[row] == lines[row];
        NoKeyBehind(lines, row);
        NoKeyBehind(updated, row);
        CollectOnly(MetaEntry, lines, row);
        CollectOnly(MetaEntry, updated, row);
      }
    }
  }

  lemma NoKeyBehind(lines: Text, row: nat)
    requires forall i | row < i < |lines| :: !IsKeyLine(lines[i], "status")
    ensures NoKeyFrom(MetaEntry, lines, row + 1, "status")
  {
  }

  lemma NoKeyWithoutRow(lines: Text, row: nat)
    requires row < |lines| && MetaEntry(lines[row]).None?
    requires forall i | 0 <= i < |lines| && i != row :: !IsKeyLine(lines[i], "status")
    ensures "status" !in Metadata(lines)
  {
    forall i | 0 <= i < |lines| ensures MetaEntry(lines[i]).Some? ==> MetaEntry(lines[i]).value.key != "status" {
      assert i != row ==> !IsKeyLine(lines[i], "status");
    }
    CollectKey(MetaEntry, lines, "status");
  }

  /** The first substitution leaves the one status line in its place. */
  lemma RewriteKeepsRow(lines: Text, lane: string, row: nat)
    requires IsWord(lane) && OnlyKeyRow(lines, "status", row) && FindRow(lines, "status", 0) == Some(row)
    ensures RewriteStatus(lines, lane).Some?
    ensures OnlyKeyRow(RewriteStatus(lines, lane).value, "status", row)
  {
    var line := lines[row];
    SpotOfKeyLine(lines, row, "status");
    AfterBlanksSpills(lines, Spot(row, KeyEnd(line)));
    var spot := AfterBlanks(lines, Spot(row, KeyEnd(line)));
    if spot.row == row {
      RewriteOnLine(lines, lane, row);
    } else {
      WordIsNoEntry(lines[spot.row], lane);
    }
  }

  lemma MatchedUpdateReadsBackIff(lines: Text, lane: string, row: nat)
    requires IsWord(lane) && OnlyKeyRow(lines, "status", row) && FindRow(lines, "status", 0) == Some(row)
    ensures UpdateStatus(lines, lane).Some?
    ensures Get(Metadata(UpdateStatus(lines, lane).value), "status") == Some(lane) <==>
            ValueSpot(lines, "status", row).value.row == row && !FrontHits(lines, row)
  {
    var next := RewriteStatus(lines, lane).value;
    RewriteKeepsRow(lines, lane, row);
    MatchReadsBackIff(lines, lane, row);
    FrontEffect(next, lane, row);
    if ValueSpot(lines, "status", row).value.row == row {
      RewriteKeepsFront(lines, lane, row);
    }
  }

  // ---------------------------------------------------------------- where the first substitution writes

  /** A key in backticks and its colon stand in front of column `col`, behind nothing but blanks and a dash. */
  predicate BehindKey(line: string, tick: nat, colon: nat, col: nat) {
    && tick < colon < col <= |line| && line[tick] == '`' && line[colon] == ':'
    && SkipBlanks(line, 0) <= tick && (line[SkipBlanks(line, 0)] == '-' || line[SkipBlanks(line, 0)] == '`')
  }

  /** A column at which the pattern can end: behind a key, or at the start of a later line. */
  ghost predicate IsWritten(line: string, col: nat) {
    col == SkipBlanks(line, 0) || exists tick: nat, colon: nat :: BehindKey(line, tick, colon, col)
  }

  /** Where the key is looked for behind the dash of a row. */
  function TickSpot(lines: Text, row: nat): (tick: Spot)
    requires row < |lines| && BehindDash(lines[row]).Some?
    ensures InText(lines, tick)
  {
    AfterBlanks(lines, Spot(row, BehindDash(lines[row]).value))
  }

  function KeyEndAt(line: string, tick: nat): (end: nat)
    requires tick < |line| && SpanFrom(line, tick + 1).Some?
    ensures tick + 3 < end <= |line|
  {
    SpanFrom(line, tick + 1).value.end + 2
  }

  lemma MatchParts(lines: Text, key: string, row: nat)
    requires row < |lines| && ValueSpot(lines, key, row).Some?
    ensures BehindDash(lines[row]).Some?
    ensures var tick := TickSpot(lines, row);
            && HasKeyAt(lines[tick.row], tick.col, key)
            && ValueSpot(lines, key, row) ==
               Some(AfterBlanks(lines, Spot(tick.row, KeyEndAt(lines[tick.row], tick.col))))
  {
  }

  lemma TickShape(lines: Text, row: nat)
    requires row < |lines| && BehindDash(lines[row]).Some?
    ensures var tick := TickSpot(lines, row);
            && row <= tick.row
            && (tick.row == row ==> tick.col == BehindDash(lines[row]).value)
            && (tick.row > row ==> tick.col == SkipBlanks(lines[tick.row], 0))
  {
    AfterBlanksSpills(lines, Spot(row, BehindDash(lines[row]).value));
    SkipBlanksTwice(lines[row], SkipBlanks(lines[row], 0) + 1);
  }

  lemma KeyIsBehind(line: string, tick: nat, col: nat, key: string)
    requires HasKeyAt(line, tick, key) && KeyEndAt(line, tick) <= col <= |line|
    requires SkipBlanks(line, 0) <= tick && (line[SkipBlanks(line, 0)] == '-' || line[SkipBlanks(line, 0)] == '`')
    ensures BehindKey(line, tick, KeyEndAt(line, tick) - 1, col)
  {
  }

  lemma DashHead(line: string)
    requires BehindDash(line).Some?
    ensures SkipBlanks(line, 0) < BehindDash(line).value && line[SkipBlanks(line, 0)] == '-'
  {
  }

  lemma WrittenSpot(lines: Text, key: string, row: nat)
    requires row < |lines| && ValueSpot(lines, key, row).Some?
    ensures var Spot(r, col) := ValueSpot(lines, key, row).value; row <= r < |lines| && IsWritten(lines[r], col)
  {
    MatchParts(lines, key, row);
    TickShape(lines, row);
    DashHead(lines[row]);
    var tick := TickSpot(lines, row);
    AfterBlanksSpills(lines, Spot(tick.row, KeyEndAt(lines[tick.row], tick.col)));
    var spot := ValueSpot(lines, key, row).value;
    if spot.row == tick.row {
      KeyIsBehind(lines[tick.row], tick.col, spot.col, key);
    }
  }

  lemma WrittenPrefix(line: string, col: nat, word: string, i: nat)
    requires i < col <= |line|
    ensures (line[..col] + word)[i] == line[i]
  {
  }

  lemma WrittenIsNoFence(line: string, col: nat, word: string)
    requires IsWritten(line, col) && IsWord(word)
    ensures line[..col] + word != FENCE
  {
    if col == SkipBlanks(line, 0) {
      WordIsNoFence(line, word);
    } else {
      var tick: nat, colon: nat :| BehindKey(line, tick, colon, col);
      WrittenPrefix(line, col, word, tick);
      assert forall i | 0 <= i < |FENCE| :: FENCE[i] == '-';
    }
  }

  lemma WrittenIsNoStatusKey(line: string, col: nat, word: string)
    requires IsWritten(line, col) && ':' !in word
    ensures !(STATUS_KEY <= line[..col] + word)
  {
    var next := line[..col] + word;
    assert STATUS_KEY[0] == 's' && STATUS_KEY[6] == ':';
    if col == SkipBlanks(line, 0) {
      SkipBlanksPassed(line, 0);
      if |next| > 6 {
        assert next[6] == if 6 < col then line[6] else word[6 - col];
        assert 6 >= col ==> word[6 - col] in word;
      }
    } else {
      var tick: nat, colon: nat :| BehindKey(line, tick, colon, col);
      WrittenPrefix(line, col, word, 0);
      SkipBlanksPassed(line, 0);
    }
  }

  lemma {:induction false} NextColonSame(s: string, t: string, i: nat, n: nat)
    requires i <= n <= |s| && n <= |t| && s[..n] == t[..n]
    ensures NextColon(s, i) < n || NextColon(t, i) < n ==> NextColon(s, i) == NextColon(t, i)
    decreases n - i
  {
    if i < n {
      PrefixAt(s, t, n, i);
      NextColonSame(s, t, i + 1, n);
    }
  }

  lemma {:induction false} NextColonAhead(s: string, i: nat, j: nat)
    requires i <= j < |s| && s[j] == ':'
    ensures NextColon(s, i) <= j
    decreases j - i
  {
    if i < j && s[i] != ':' {
      NextColonAhead(s, i + 1, j);
    }
  }

  /** A rewritten line states a field only if it did before, and then the same one. */
  lemma WrittenField(line: string, col: nat, word: string, key: string)
    requires IsWritten(line, col) && ':' !in word
    ensures IsField(line[..col] + word, key) ==> IsField(line, key)
  {
    var next := line[..col] + word;
    if col == SkipBlanks(line, 0) {
      WordIsNoField(line, word);
    } else {
      var tick: nat, colon: nat :| BehindKey(line, tick, colon, col);
      assert next[..col] == line[..col];
      NextColonAhead(line, 0, colon);
      NextColonSame(line, next, 0, col);
      PrefixSlice(line, next, col, 0, NextColon(line, 0));
      assert line[0..NextColon(line, 0)] == line[..NextColon(line, 0)];
      assert next[0..NextColon(line, 0)] == next[..NextColon(line, 0)];
    }
  }

  // ---------------------------------------------------------------- another match before the status line

  /** A match before the checker's status line runs on to a line without a dash, and what it writes is no entry. */
  lemma OtherMatchWritesNoEntry(lines: Text, word: string, row: nat)
    requires row < |lines| && ValueSpot(lines, "status", row).Some? && !IsKeyLine(lines[row], "status")
    requires IsWord(word)
    ensures var Spot(r, col) := ValueSpot(lines, "status", row).value;
            MetaEntry(lines[r][..col] + word).None?
  {
    OtherMatchRow(lines, row);
    var Spot(r, col) := ValueSpot(lines, "status", row).value;
    if col == SkipBlanks(lines[r], 0) {
      WordIsNoEntry(lines[r], word);
    } else {
      TickLineIsNoEntry(lines[r], col, word);
    }
  }

  lemma OtherTick(lines: Text, key: string, row: nat)
    requires row < |lines| && ValueSpot(lines, key, row).Some? && !IsKeyLine(lines[row], key)
    ensures BehindDash(lines[row]).Some? && TickSpot(lines, row).row > row
  {
    MatchParts(lines, key, row);
    TickShape(lines, row);
  }

  lemma OtherMatchRow(lines: Text, row: nat)
    requires row < |lines| && ValueSpot(lines, "status", row).Some? && !IsKeyLine(lines[row], "status")
    ensures var Spot(r, col) := ValueSpot(lines, "status", row).value;
            var head := SkipBlanks(lines[r], 0);
            col == head || (head < col <= |lines[r]| && lines[r][head] == '`')
  {
    MatchParts(lines, "status", row);
    TickShape(lines, row);
    OtherTick(lines, "status", row);
    var tick := TickSpot(lines, row);
    AfterBlanksSpills(lines, Spot(tick.row, KeyEndAt(lines[tick.row], tick.col)));
  }

  lemma TickLineIsNoEntry(line: string, col: nat, word: string)
    requires SkipBlanks(line, 0) < col <= |line| && line[SkipBlanks(line, 0)] == '`'
    ensures MetaEntry(line[..col] + word).None?
  {
    var next := line[..col] + word;
    assert next[..col] == line[..col];
    SkipBlanksSame(line, next, 0, col);
    WrittenPrefix(line, col, word, SkipBlanks(line, 0));
  }

  lemma {:induction false} MatchIsFound(lines: Text, key: string, from: nat, row: nat)
    requires from <= row < |lines| && ValueSpot(lines, key, row).Some?
    ensures FindRow(lines, key, from).Some? && FindRow(lines, key, from).value <= row
    decreases row - from
  {
    if from < row && ValueSpot(lines, key, from).None? {
      MatchIsFound(lines, key, from + 1, row);
    }
  }

  ghost predicate NoKeyLine(lines: Text) {
    forall i | 0 <= i < |lines| :: !IsKeyLine(lines[i], "status")
  }

  lemma NoKeyNoStatus(lines: Text)
    requires NoKeyLine(lines)
    ensures "status" !in Metadata(lines)
  {
    CollectKey(MetaEntry, lines, "status");
  }

  lemma FrontAddsNoKey(lines: Text, lane: string)
    requires IsWord(lane) && NoKeyLine(lines)
    ensures NoKeyLine(UpdateFrontmatter(lines, lane))
  {
    FrontSpotIs(lines, lane);
    if FrontSpot(lines).Some? {
      FrontWritesNoEntry(lines, lane);
    }
  }

  /** With another match in front, the old status stays or is overwritten. */
  lemma OtherMatchIsNotReadBack(lines: Text, lane: string, row: nat)
    requires IsWord(lane) && OnlyKeyRow(lines, "status", row) && MetaEntry(lines[row]).value.value != lane
    requires FindRow(lines, "status", 0).Some? && FindRow(lines, "status", 0) != Some(row)
    ensures Get(Metadata(RewriteStatus(lines, lane).value), "status") != Some(lane)
    ensures Get(Metadata(UpdateStatus(lines, lane).value), "status") != Some(lane)
  {
    var first := FindRow(lines, "status", 0).value;
    var Spot(r, col) := ValueSpot(lines, "status", first).value;
    var next := RewriteStatus(lines, lane).value;
    OtherMatchWritesNoEntry(lines, lane, first);
    if r == row {
      assert NoKeyLine(next);
      NoKeyNoStatus(next);
      FrontAddsNoKey(next, lane);
      NoKeyNoStatus(UpdateFrontmatter(next, lane));
    } else {
      assert next[row] == lines[row] && OnlyKeyRow(next, "status", row);
      NoKeyBehind(next, row);
      CollectOnly(MetaEntry, next, row);
      FrontEffect(next, lane, row);
    }
  }

  /** The first substitution: the checker reads the new status if and only if the tool's first match is the
      checker's status line, and the old value stands on it. */
  lemma StatusReadsBackIff(lines: Text, lane: string, row: nat)
    requires IsWord(lane) && OnlyKeyRow(lines, "status", row) && MetaEntry(lines[row]).value.value != lane
    ensures RewriteStatus(lines, lane).Some?
    ensures Get(Metadata(RewriteStatus(lines, lane).value), "status") == Some(lane) <==>
            FindRow(lines, "status", 0) == Some(row) && ValueSpot(lines, "status", row).value.row == row
  {
    SpotOfKeyLine(lines, row, "status");
    MatchIsFound(lines, "status", 0, row);
    if FindRow(lines, "status", 0) == Some(row) {
      MatchReadsBackIff(lines, lane, row);
    } else {
      OtherMatchIsNotReadBack(lines, lane, row);
    }
  }

  /** The whole of `update_status`: the checker reads the new status if and only if the tool's first match is
      the checker's status line, the old value stands on it, and the frontmatter's own value does not run on
      into that line. */
  lemma UpdateReadsBackIff(lines: Text, lane: string, row: nat)
    requires IsWord(lane) && OnlyKeyRow(lines, "status", row) && MetaEntry(lines[row]).value.value != lane
    ensures UpdateStatus(lines, lane).Some?
    ensures Get(Metadata(UpdateStatus(lines, lane).value), "status") == Some(lane) <==>
            && FindRow(lines, "status", 0) == Some(row)
            && ValueSpot(lines, "status", row).value.row == row
            && !FrontHits(lines, row)
  {
    SpotOfKeyLine(lines, row, "status");
    MatchIsFound(lines, "status", 0, row);
    if FindRow(lines, "status", 0) == Some(row) {
      MatchedUpdateReadsBackIff(lines, lane, row);
    } else {
      OtherMatchIsNotReadBack(lines, lane, row);
    }
  }

  // ---------------------------------------------------------------- the first substitution and the frontmatter

  /** Rows agree, but for one whose first characters stay, the first that is not blank among them. */
  ghost predicate SameHeads(a: Text, b: Text, row: nat) {
    && |a| == |b| && row < |a|
    && (forall i | 0 <= i < |a| && i != row :: a[i] == b[i])
    && SkipBlanks(a[row], 0) == SkipBlanks(b[row], 0) < |a[row]| && SkipBlanks(b[row], 0) < |b[row]|
  }

  lemma {:induction false} AfterBlanksSame(a: Text, b: Text, row: nat, spot: Spot)
    requires SameHeads(a, b, row) && InText(a, spot) && InText(b, spot)
    requires spot.row == row ==> spot.col == 0
    ensures AfterBlanks(a, spot) == AfterBlanks(b, spot)
    decreases |a| - spot.row
  {
    var j := SkipBlanks(a[spot.row], spot.col);
    if j == |a[spot.row]| && spot.row + 1 < |a| && spot.row != row {
      AfterBlanksSame(a, b, row, Spot(spot.row + 1, 0));
    }
  }

  lemma KeyLineHead(line: string)
    requires KeySpan(line).Some?
    ensures SkipBlanks(line, 0) < KeyEnd(line) && line[SkipBlanks(line, 0)] == '-'
    ensures !(STATUS_KEY <= line) && line != FENCE
  {
    FenceIsNoKeyLine();
    DashLineHead(line);
  }

  /** The rewritten status line: its head is as before, and it is neither a fence nor a field. */
  lemma RewriteKeepsHeads(lines: Text, lane: string, row: nat)
    requires IsWord(lane) && OnlyKeyRow(lines, "status", row) && FindRow(lines, "status", 0) == Some(row)
    requires ValueSpot(lines, "status", row).value.row == row
    ensures RewriteStatus(lines, lane).Some?
    ensures SameHeads(lines, RewriteStatus(lines, lane).value, row)
    ensures KeySpan(RewriteStatus(lines, lane).value[row]).Some?
  {
    RewriteOnLine(lines, lane, row);
    var next := RewriteStatus(lines, lane).value;
    var c := SkipBlanks(lines[row], KeyEnd(lines[row]));
    KeyLineHead(lines[row]);
    KeyLineHead(next[row]);
    assert next[row][..c] == lines[row][..c];
    SkipBlanksSame(lines[row], next[row], 0, c);
  }

  lemma RewriteKeepsFront(lines: Text, lane: string, row: nat)
    requires IsWord(lane) && OnlyKeyRow(lines, "status", row) && FindRow(lines, "status", 0) == Some(row)
    requires ValueSpot(lines, "status", row).value.row == row
    ensures RewriteStatus(lines, lane).Some?
    ensures FrontSpot(RewriteStatus(lines, lane).value) == FrontSpot(lines)
  {
    RewriteKeepsHeads(lines, lane, row);
    var next := RewriteStatus(lines, lane).value;
    KeyLineHead(lines[row]);
    KeyLineHead(next[row]);
    SameFront(lines, next, row);
  }

  lemma SameFront(a: Text, b: Text, row: nat)
    requires SameHeads(a, b, row)
    requires a[row] != FENCE && b[row] != FENCE && !(STATUS_KEY <= a[row]) && !(STATUS_KEY <= b[row])
    ensures FrontSpot(a) == FrontSpot(b)
  {
    if |a| >= 2 {
      FenceFromSame(a, b, 2);
    }
    if ClosingFence(a).Some? {
      var end := ClosingFence(a).value;
      KeyRowSame(a, b, 1, end);
      if FieldRow(a).Some? {
        SameFrontSpot(a, b, row, end, FieldRow(a).value);
      }
    }
  }

  lemma SameFrontSpot(a: Text, b: Text, row: nat, end: nat, q: nat)
    requires SameHeads(a, b, row) && q < end <= |a| && q != row && 7 <= |a[q]|
    ensures AfterBlanks(a[..end], Spot(q, 7)) == AfterBlanks(b[..end], Spot(q, 7))
  {
    if row < end {
      AfterBlanksSame(a[..end], b[..end], row, Spot(q, 7));
    } else {
      assert a[..end] == b[..end];
    }
  }

  // ---------------------------------------------------------------- the frontmatter's status

  /** The frontmatter states a status on one line only, and that line starts with the key. */
  ghost predicate OnlyField(lines: Text, q: nat) {
    && FieldRow(lines) == Some(q)
    && forall i | 1 <= i < ClosingFence(lines).value && i != q :: !IsField(lines[i], "status")
  }

  lemma {:induction false} NoColon(s: string, i: nat)
    requires i <= |s| && ':' !in s[i..]
    ensures NextColon(s, i) == |s|
    decreases |s| - i
  {
    if i < |s| {
      assert s[i] == s[i..][0] && s[i] in s[i..];
      assert forall c | c in s[i + 1..] :: c in s[i..];
      NoColon(s, i + 1);
    }
  }

  /** A word behind nothing but blanks is no field either. */
  lemma WordIsNoField(line: string, word: string)
    requires ':' !in word
    ensures FieldEntry(line[..SkipBlanks(line, 0)] + word).None?
  {
    var c := SkipBlanks(line, 0);
    var next := line[..c] + word;
    SkipBlanksPassed(line, 0);
    forall k | 0 <= k < |next| ensures next[k] != ':' {
      assert next[k] == if k < c then line[k] else word[k - c];
      assert k >= c ==> word[k - c] in word;
    }
    assert next[0..] == next;
    NoColon(next, 0);
  }

  /** The rewritten line is no fence, as the one before was none: the frontmatter ends where it did. */
  lemma FrontKeepsFence(lines: Text, lane: string)
    requires IsWord(lane) && FrontSpot(lines).Some?
    ensures ClosingFence(UpdateFrontmatter(lines, lane)) == ClosingFence(lines)
  {
    var Spot(row, col) := FrontSpot(lines).value;
    var q := FieldRow(lines).value;
    var updated := UpdateFrontmatter(lines, lane);
    FrontRow(lines, lane);
    FrontSpotIs(lines, lane);
    if row == q {
      RewrittenField(lines[q], col, lane);
      FieldLineIsNoEntry(updated[q]);
      FieldLineIsNoEntry(lines[q]);
    } else {
      WordIsNoFence(lines[row], lane);
    }
    FenceFromSame(lines, updated, 2);
  }

  lemma BlankFieldReads(line: string)
    requires STATUS_KEY <= line && SkipBlanks(line, 7) == |line|
    ensures FieldEntry(line) == Some(Entry("status", ""))
  {
    KeyLineIsField(line);
    SkipBlanksPassed(line, 7);
    StripBlank(line[7..]);
  }

  lemma FieldOfRow(lines: Text, end: nat, q: nat)
    requires 1 <= q < end <= |lines| && FieldEntry(lines[q]).Some? && FieldEntry(lines[q]).value.key == "status"
    requires forall i | q < i < end :: !IsField(lines[i], "status")
    ensures Get(Collect(FieldEntry, lines[1..end]), "status") == Some(FieldEntry(lines[q]).value.value)
  {
    var body := lines[1..end];
    forall i | q <= i < |body| ensures FieldEntry(body[i]).Some? ==> FieldEntry(body[i]).value.key != "status" {
      assert body[i] == lines[i + 1];
      assert !IsField(lines[i + 1], "status");
    }
    CollectOnly(FieldEntry, body, q - 1);
  }

  /** After the second substitution alone, the frontmatter reads back the new status if and only if its old value
      stands on the line of its key. */
  lemma FieldReadsBackIff(lines: Text, lane: string, q: nat)
    requires IsWord(lane) && ':' !in lane && OnlyField(lines, q)
    ensures Get(Frontmatter(UpdateFrontmatter(lines, lane)), "status") == Some(lane) <==>
            FrontSpot(lines).value.row == q
  {
    var Spot(row, col) := FrontSpot(lines).value;
    var end := ClosingFence(lines).value;
    var updated := UpdateFrontmatter(lines, lane);
    FrontRow(lines, lane);
    FrontSpotIs(lines, lane);
    FrontKeepsFence(lines, lane);
    if row == q {
      RewrittenField(lines[q], col, lane);
    } else {
      BlankFieldReads(lines[q]);
      WordIsNoField(lines[row], lane);
    }
    forall i | q < i < end ensures !IsField(updated[i], "status") {
      assert i != row ==> updated[i] == lines[i];
    }
    FieldOfRow(updated, end, q);
  }

  // ---------------------------------------------------------------- witnesses

  function KeyLine(key: string, value: string): string {
    "- `" + key + "`:" + (" " + value)
  }

  lemma KeyLineReads(key: string, value: string)
    requires key != "" && '`' !in key && IsWord(value)
    ensures IsKeyLine(KeyLine(key, value), key)
    ensures MetaEntry(KeyLine(key, value)) == Some(Entry(key, value))
  {
    var line := KeyLine(key, value);
    NoteIsEntry(key, " " + value);
    assert line[|key| + 5..] == " " + value;
    StripPadded(" ", value);
  }

  lemma OtherKey(line: string, key: string, other: string)
    requires IsKeyLine(line, key) && key != other
    ensures !IsKeyLine(line, other)
  {
  }

  /** A frontmatter whose status is blank, with one more line in it, and one behind it. */
  ghost predicate IsFenced(text: Text, line: string) {
    |text| == 5 && text[0] == FENCE && text[1] == STATUS_KEY && text[2] == line && text[3] == FENCE
  }

  ghost predicate IsFramed(text: Text, line: string) {
    IsFenced(text, line) && text[4] == ""
  }

  lemma FramedParts(text: Text, line: string)
    requires IsFenced(text, line) && line != FENCE && !(STATUS_KEY <= line)
    ensures ClosingFence(text) == Some(3) && FieldRow(text) == Some(1)
  {
    assert FenceFrom(text, 3) == Some(3);
    assert FenceFrom(text, 2) == Some(3);
    assert KeyRow(text, 1, 3) == Some(1);
  }

  lemma BlankSpills(lines: Text, spot: Spot)
    requires InText(lines, spot) && spot.row + 1 < |lines|
    requires SkipBlanks(lines[spot.row], spot.col) == |lines[spot.row]|
    requires SkipBlanks(lines[spot.row + 1], 0) < |lines[spot.row + 1]|
    ensures AfterBlanks(lines, spot) == Spot(spot.row + 1, SkipBlanks(lines[spot.row + 1], 0))
  {
    AfterBlanksOnLine(lines, Spot(spot.row + 1, 0));
  }

  lemma BlankKey()
    ensures SkipBlanks(STATUS_KEY, 7) == |STATUS_KEY| == 7
  {
  }

  lemma FramedSpot(text: Text, line: string)
    requires IsFenced(text, line) && line != FENCE && !(STATUS_KEY <= line) && SkipBlanks(line, 0) < |line|
    ensures FrontSpot(text) == Some(Spot(2, SkipBlanks(line, 0)))
  {
    FramedParts(text, line);
    BlankKey();
    BlankSpills(text[..3], Spot(1, 7));
  }

  lemma FenceMatchesNothing(lines: Text, key: string, row: nat)
    requires row < |lines| && lines[row] == FENCE
    ensures ValueSpot(lines, key, row).None?
  {
    assert SkipBlanks(FENCE, 0) == 0 && SkipBlanks(FENCE, 1) == 1;
    AfterBlanksOnLine(lines, Spot(row, 1));
  }

  lemma FieldMatchesNothing(lines: Text, key: string, row: nat)
    requires row < |lines| && STATUS_KEY <= lines[row]
    ensures ValueSpot(lines, key, row).None?
  {
    FieldLineIsNoEntry(lines[row]);
  }

  lemma FramedKey(text: Text, line: string)
    requires IsFramed(text, line) && IsKeyLine(line, "status")
    ensures OnlyKeyRow(text, "status", 2)
  {
    FenceIsNoKeyLine();
    EmptyLineIsNoEntry();
    FieldLineIsNoEntry(STATUS_KEY);
  }

  lemma TwoRowsBefore(text: Text, key: string)
    requires |text| > 2 && text[0] == FENCE && STATUS_KEY <= text[1] && ValueSpot(text, key, 2).Some?
    ensures FindRow(text, key, 0) == Some(2)
  {
    FenceMatchesNothing(text, key, 0);
    FieldMatchesNothing(text, key, 1);
    FindRowHit(text, key, 0, 2);
  }

  lemma FramedRows(text: Text, line: string)
    requires IsFramed(text, line) && IsKeyLine(line, "status") && MetaEntry(line).value.value != ""
    ensures FindRow(text, "status", 0) == Some(2) && ValueSpot(text, "status", 2).value.row == 2
  {
    SpotOnLine(text, 2, "status");
    TwoRowsBefore(text, "status");
  }

  /** A metadata status right below a blank frontmatter status is lost, though its value stands on its line. */
  lemma BlankFrontmatterOverwritesStatus(text: Text, line: string, lane: string)
    requires IsFramed(text, line) && IsKeyLine(line, "status") && MetaEntry(line).value.value != "" && IsWord(lane)
    ensures ValueSpot(text, "status", 2).Some? && ValueSpot(text, "status", 2).value.row == 2
    ensures UpdateStatus(text, lane).Some?
    ensures Get(Metadata(UpdateStatus(text, lane).value), "status") != Some(lane)
  {
    KeyLineHead(line);
    FramedKey(text, line);
    FramedRows(text, line);
    FramedSpot(text, line);
    MatchedUpdateReadsBackIff(text, lane, 2);
  }

  /** The same in letters. */
  lemma StatusIsNotReadBack(text: Text, status: string, lane: string)
    requires IsWord(status) && IsWord(lane) && IsFramed(text, KeyLine("status", status))
    ensures UpdateStatus(text, lane).Some?
    ensures Get(Metadata(UpdateStatus(text, lane).value), "status") != Some(lane)
  {
    KeyLineReads("status", status);
    BlankFrontmatterOverwritesStatus(text, KeyLine("status", status), lane);
  }

  lemma ReadyReads(line: string)
    requires line == "ready: true"
    ensures !IsField(line, "status") && !(STATUS_KEY <= line) && line != FENCE && SkipBlanks(line, 0) < |line|
  {
    assert line[0] == 'r' && STATUS_KEY[0] == 's' && line[5] == ':';
    NextColonAt(line, 0, 5);
    assert line[..5] == "ready";
    StripWord(line[..5]);
  }

  lemma BlankKeyLine(blank: string)
    requires blank == "- `status`:"
    ensures IsKeyLine(blank, "status") && KeyEnd(blank) == |blank|
  {
    NoteIsEntry("status", "");
    assert "- `" + "status" + "`:" + "" == blank;
  }

  /** A blank status above another metadata line is not read back. */
  lemma BlankStatusOverwritesEntry(text: Text, lane: string)
    requires |text| == 2 && IsKeyLine(text[0], "status") && KeyEnd(text[0]) == |text[0]|
    requires KeySpan(text[1]).Some? && !IsKeyLine(text[1], "status") && IsWord(lane)
    ensures UpdateStatus(text, lane).Some?
    ensures Get(Metadata(UpdateStatus(text, lane).value), "status") != Some(lane)
  {
    KeyLineHead(text[1]);
    SpotOfKeyLine(text, 0, "status");
    BlankSpills(text, Spot(0, KeyEnd(text[0])));
    MatchedUpdateReadsBackIff(text, lane, 0);
  }

  lemma EntryIsNotReadBack(text: Text, id: string, lane: string)
    requires |text| == 2 && text[0] == "- `status`:" && text[1] == KeyLine("id", id) && IsWord(id) && IsWord(lane)
    ensures UpdateStatus(text, lane).Some?
    ensures Get(Metadata(UpdateStatus(text, lane).value), "status") != Some(lane)
  {
    BlankKeyLine(text[0]);
    KeyLineReads("id", id);
    OtherKey(text[1], "id", "status");
    BlankStatusOverwritesEntry(text, lane);
  }

  lemma DashThenKey(text: Text)
    requires |text| > 1 && BehindDash(text[0]) == Some(1) && SkipBlanks(text[0], 1) == |text[0]| == 1
    requires SkipBlanks(text[1], 0) == 0 < |text[1]| && HasKeyAt(text[1], 0, "status")
    ensures FindRow(text, "status", 0) == Some(0)
  {
    BlankSpills(text, Spot(0, 1));
  }

  lemma LoneDashReads(dash: string, key: string)
    requires dash == "-" && key == "`status`: qa"
    ensures KeySpan(dash).None? && KeySpan(key).None?
    ensures BehindDash(dash) == Some(1) && SkipBlanks(dash, 1) == |dash| && SkipBlanks(key, 0) == 0
    ensures HasKeyAt(key, 0, "status")
  {
    assert SkipBlanks(dash, 0) == 0 && SkipBlanks(dash, 1) == 1;
    assert key[0] == '`' && key[7] == '`' && key[8] == ':' && key[1..7] == "status";
    NextTickAt(key, 1, 7);
  }

  lemma ThirdKeyLine(text: Text)
    requires |text| == 3 && KeySpan(text[0]).None? && KeySpan(text[1]).None? && IsKeyLine(text[2], "status")
    ensures OnlyKeyRow(text, "status", 2)
  {
  }

  /** A lone dash above a key without one: the tool takes them for the status line, and the checker does not. */
  lemma EarlierMatchIsNotReadBack(text: Text, status: string, lane: string)
    requires |text| == 3 && text[0] == "-" && text[1] == "`status`: qa" && text[2] == KeyLine("status", status)
    requires IsWord(status) && IsWord(lane) && lane != status
    ensures UpdateStatus(text, lane).Some?
    ensures Get(Metadata(UpdateStatus(text, lane).value), "status") != Some(lane)
  {
    KeyLineReads("status", status);
    LoneDashReads(text[0], text[1]);
    ThirdKeyLine(text);
    DashThenKey(text);
    UpdateReadsBackIff(text, lane, 2);
  }
}
