/** Appending a transition note leaves everything that the checker reads as it was, but for the note. */
module ItemHistory {
  import opened Options
  import opened Strings
  import opened ItemText
  import opened ItemRoundTrip

  // ---------------------------------------------------------------- trailing blanks

  lemma {:induction false} TrimEndDrops(s: string, b: string)
    requires AllIn(Blank, b)
    ensures TrimEnd(Blank, s + b) == TrimEnd(Blank, s)
  {
    if b == "" {
      assert s + b == s;
    } else {
      var whole := s + b;
      assert whole[|whole| - 1] == b[|b| - 1];
      assert whole[..|whole| - 1] == s + b[..|b| - 1];
      TrimEndDrops(s, b[..|b| - 1]);
    }
  }

  lemma {:induction false} TrimStartDrops(s: string, b: string)
    requires AllIn(Blank, b)
    ensures TrimEnd(Blank, TrimStart(Blank, s + b)) == TrimEnd(Blank, TrimStart(Blank, s))
  {
    if s == "" {
      assert s + b == b;
      StripBlank(b);
    } else if Blank(s[0]) {
      assert (s + b)[1..] == s[1..] + b;
      TrimStartDrops(s[1..], b);
    } else {
      TrimEndDrops(s, b);
    }
  }

  lemma TrimmedTail(line: string, t: string)
    requires IsTrimmed(line, t)
    ensures forall k | |t| <= k < |line| :: Blank(line[k]) && line[k] != '`' && line[k] != ':'
    ensures forall k | 0 <= k < |t| :: line[k] == t[k]
  {
    forall k | |t| <= k < |line| ensures Blank(line[k]) {
      assert line[k] == line[|t|..][k - |t|];
    }
  }

  lemma {:induction false} SkipBlanksToEnd(s: string, i: nat)
    requires i <= |s|
    requires forall k | i <= k < |s| :: Blank(s[k])
    ensures SkipBlanks(s, i) == |s|
    decreases |s| - i
  {
    if i < |s| {
      SkipBlanksToEnd(s, i + 1);
    }
  }

  lemma SkipBlanksTrimmed(line: string, t: string, i: nat)
    requires IsTrimmed(line, t) && i <= |t|
    ensures SkipBlanks(line, i) == if SkipBlanks(t, i) < |t| then SkipBlanks(t, i) else |line|
  {
    assert line[..|t|] == t == t[..|t|];
    SkipBlanksSame(line, t, i, |t|);
    if SkipBlanks(t, i) == |t| {
      SkipBlanksPassed(t, i);
      TrimmedTail(line, t);
      SkipBlanksToEnd(line, i);
    }
  }

  lemma {:induction false} NextTickToEnd(s: string, i: nat)
    requires i <= |s|
    requires forall k | i <= k < |s| :: s[k] != '`'
    ensures NextTick(s, i) == |s|
    decreases |s| - i
  {
    if i < |s| {
      NextTickToEnd(s, i + 1);
    }
  }

  lemma {:induction false} NextTickPassed(s: string, i: nat)
    requires i <= |s|
    ensures forall k | i <= k < NextTick(s, i) :: s[k] != '`'
    decreases |s| - i
  {
    if i < |s| && s[i] != '`' {
      NextTickPassed(s, i + 1);
    }
  }

  lemma NextTickTrimmed(line: string, t: string, i: nat)
    requires IsTrimmed(line, t) && i <= |t|
    ensures NextTick(line, i) == if NextTick(t, i) < |t| then NextTick(t, i) else |line|
  {
    assert line[..|t|] == t == t[..|t|];
    NextTickSame(line, t, i, |t|);
    if NextTick(t, i) == |t| {
      NextTickPassed(t, i);
      TrimmedTail(line, t);
      NextTickToEnd(line, i);
    }
  }

  lemma SpanTrimmed(line: string, t: string, start: nat)
    requires IsTrimmed(line, t) && start <= |t|
    ensures SpanFrom(line, start) == SpanFrom(t, start)
  {
    NextTickTrimmed(line, t, start);
    TrimmedTail(line, t);
  }

  /** A dash is found in both or in neither, and what follows it at the same place if anything does. */
  lemma BehindDashTrimmed(line: string, t: string)
    requires IsTrimmed(line, t)
    ensures BehindDash(line) ==
            if BehindDash(t).Some? && BehindDash(t).value == |t| then Some(|line|) else BehindDash(t)
  {
    SkipBlanksTrimmed(line, t, 0);
    var dash := SkipBlanks(t, 0);
    if dash < |t| && t[dash] == '-' {
      SkipBlanksTrimmed(line, t, dash + 1);
    }
  }

  lemma KeySpanTrimmed(line: string, t: string)
    requires IsTrimmed(line, t)
    ensures KeySpan(line) == KeySpan(t)
  {
    BehindDashTrimmed(line, t);
    if BehindDash(t).Some? && BehindDash(t).value < |t| {
      SpanTrimmed(line, t, BehindDash(t).value + 1);
    }
  }

  /** Trailing blanks are never part of what the checker reads from a line. */
  lemma KeyTrimmed(line: string, t: string, start: nat, end: nat)
    requires IsTrimmed(line, t) && start <= end <= |t|
    ensures line[start..end] == t[start..end]
  {
    assert line[..|t|] == t == t[..|t|];
    PrefixSlice(line, t, |t|, start, end);
  }

  lemma ValueTrimmed(line: string, t: string, from: nat)
    requires IsTrimmed(line, t) && from <= |t|
    ensures Strip(line[from..]) == Strip(t[from..])
  {
    assert line[from..] == t[from..] + line[|t|..];
    TrimStartDrops(t[from..], line[|t|..]);
  }

  lemma EntryTrimmed(line: string, t: string)
    requires IsTrimmed(line, t)
    ensures KeySpan(line) == KeySpan(t)
    ensures MetaEntry(line) == MetaEntry(t)
  {
    KeySpanTrimmed(line, t);
    if KeySpan(t).Some? {
      KeyTrimmed(line, t, KeySpan(t).value.start, KeySpan(t).value.end);
      ValueTrimmed(line, t, KeySpan(t).value.end + 2);
    }
  }

  // ---------------------------------------------------------------- stripping the text

  lemma EmptyLineIsNoEntry()
    ensures KeySpan("").None?
  {
  }

  lemma {:induction false} MetadataRStrip(lines: Text)
    ensures Metadata(RStrip(lines)) == Metadata(lines)
  {
    if lines == [] {
      EmptyLineIsNoEntry();
      CollectOne(MetaEntry, "");
    } else {
      var front, line := lines[..|lines| - 1], lines[|lines| - 1];
      var t := TrimEnd(Blank, line);
      TrimmedLine(line);
      EntryTrimmed(line, t);
      if t == "" {
        EmptyLineIsNoEntry();
        MetadataRStrip(front);
      } else {
        assert lines == front + [line];
        CollectConcat(MetaEntry, front, [t]);
        CollectConcat(MetaEntry, front, [line]);
        CollectOne(MetaEntry, t);
        CollectOne(MetaEntry, line);
      }
    }
  }

  // ---------------------------------------------------------------- the note

  /** A time stamp as the tool writes it: not empty, and no backtick in it. */
  predicate IsStamp(now: string) {
    now != "" && '`' !in now && now != "status"
  }

  lemma {:induction false} NextTickAt(s: string, i: nat, j: nat)
    requires i <= j < |s| && s[j] == '`'
    requires forall k | i <= k < j :: s[k] != '`'
    ensures NextTick(s, i) == j
    decreases j - i
  {
    if i < j {
      NextTickAt(s, i + 1, j);
    }
  }

  /** A note reads as a metadata line whose key is the time stamp. */
  lemma NoteIsEntry(now: string, rest: string)
    requires now != "" && '`' !in now
    ensures var note := "- `" + now + "`:" + rest;
            KeySpan(note) == Some(Span(3, 3 + |now|)) && IsKeyLine(note, now)
  {
    var note := "- `" + now + "`:" + rest;
    assert note[0] == '-' && note[1] == ' ' && note[2] == '`';
    assert SkipBlanks(note, 0) == 0;
    assert SkipBlanks(note, 2) == 2;
    assert SkipBlanks(note, 1) == 2;
    assert note[3..3 + |now|] == now;
    assert note[3 + |now|] == '`' && note[4 + |now|] == ':';
    forall k | 3 <= k < 3 + |now| ensures note[k] != '`' {
      assert note[k] == now[k - 3];
    }
    NextTickAt(note, 3, 3 + |now|);
  }

  lemma NoteShape(now: string, fromLane: string, toLane: string, actor: string, reason: string) returns (rest: string)
    ensures Note(now, fromLane, toLane, actor, reason) == "- `" + now + "`:" + rest
  {
    rest := " `" + fromLane + "` -> `" + toLane + "`"
            + (if actor != "" then " by `" + actor + "`" else "")
            + (if reason != "" then "; " + reason else "");
    var head := "- `" + now;
    assert head + "`: `" == head + "`:" + " `";
  }

  lemma HeadingIsNoEntry()
    ensures KeySpan(HISTORY).None?
  {
    assert SkipBlanks(HISTORY, 0) == 0;
  }

  /** What is put behind the stripped text. */
  function Added(lines: Text, note: string): Text {
    (if Mentions(lines, HISTORY) then [] else ["", HISTORY]) + [note] + [""]
  }

  lemma AppendedShape(lines: Text, note: string)
    requires '\n' !in note
    ensures AppendNote(lines, note) == RStrip(lines) + Added(lines, note)
  {
    SplitWhole(note, '\n');
  }

  lemma AddedMetadata(lines: Text, note: string, now: string)
    requires IsKeyLine(note, now)
    ensures Metadata(Added(lines, note)) == map[now := MetaEntry(note).value.value]
    ensures forall i | 0 <= i < |Added(lines, note)| :: Added(lines, note)[i] == note || KeySpan(Added(lines, note)[i]).None?
  {
    EmptyLineIsNoEntry();
    HeadingIsNoEntry();
    CollectOne(MetaEntry, "");
    CollectOne(MetaEntry, note);
    CollectConcat(MetaEntry, [note], [""]);
    if !Mentions(lines, HISTORY) {
      CollectOne(MetaEntry, HISTORY);
      CollectConcat(MetaEntry, [""], [HISTORY]);
      assert [""] + [HISTORY] == ["", HISTORY];
      CollectConcat(MetaEntry, ["", HISTORY], [note] + [""]);
      assert Added(lines, note) == ["", HISTORY] + ([note] + [""]);
    } else {
      assert Added(lines, note) == [note] + [""];
    }
  }

  // ---------------------------------------------------------------- appending to a clean item

  lemma {:induction false} FenceFromPrefix(a: Text, b: Text, j: nat, end: nat)
    requires j <= end < |a| - 1 && end < |b| - 1
    requires forall i | j <= i <= end :: a[i] == b[i]
    requires FenceFrom(a, j) == Some(end)
    ensures FenceFrom(b, j) == Some(end)
    decreases end - j
  {
    if j < end {
      FenceFromPrefix(a, b, j + 1, end);
    }
  }

  /** `next` has the rows of `lines` up to `row`, which may lose trailing blanks itself; what follows
      does not hold the key, and is at least one line. */
  ghost predicate Extends(lines: Text, next: Text, key: string, row: nat) {
    && row < |lines| && row + 1 < |next|
    && (forall i | 0 <= i < row :: next[i] == lines[i])
    && IsTrimmed(lines[row], next[row])
    && forall i | row < i < |next| :: !IsKeyLine(next[i], key)
  }

  lemma ExtendsFence(lines: Text, next: Text, row: nat)
    requires CleanAt(lines, row) && Extends(lines, next, "status", row)
    ensures ClosingFence(next) == ClosingFence(lines)
  {
    if ClosingFence(lines).Some? {
      FenceFromPrefix(lines, next, 2, ClosingFence(lines).value);
    } else {
      EntryTrimmed(lines[row], next[row]);
      FenceIsNoKeyLine();
      assert row > 0 ==> next[0] == lines[0];
    }
  }

  lemma ExtendsFrontmatter(lines: Text, next: Text, row: nat)
    requires CleanAt(lines, row) && Extends(lines, next, "status", row)
    ensures CleanFrontmatter(next)
    ensures Frontmatter(next) == Frontmatter(lines)
  {
    ExtendsFence(lines, next, row);
    if ClosingFence(lines).Some? {
      SameFrontmatter(lines, next, ClosingFence(lines).value);
    } else {
      EntryTrimmed(lines[row], next[row]);
      FenceIsNoKeyLine();
      assert row > 0 ==> next[0] == lines[0];
    }
  }

  lemma SameFrontmatter(lines: Text, next: Text, end: nat)
    requires CleanFrontmatter(lines) && ClosingFence(lines) == Some(end) && ClosingFence(next) == Some(end)
    requires forall i | 0 <= i <= end :: next[i] == lines[i]
    ensures CleanFrontmatter(next) && Frontmatter(next) == Frontmatter(lines)
  {
    assert next[1..end] == lines[1..end];
    KeyRowSame(lines, next, 1, end);
  }

  lemma ExtendsKeyRow(lines: Text, next: Text, key: string, row: nat)
    requires OnlyKeyRow(lines, key, row) && FindRow(lines, key, 0) == Some(row) && Extends(lines, next, key, row)
    ensures OnlyKeyRow(next, key, row)
    ensures FindRow(next, key, 0) == Some(row)
  {
    IsKeyLineTrimmed(lines[row], next[row], key);
    assert SameAbove(lines, next, row);
    FirstMatchStays(lines, next, key, row);
  }

  lemma ExtendsClean(lines: Text, next: Text, row: nat)
    requires CleanAt(lines, row) && Extends(lines, next, "status", row)
    ensures CleanAt(next, row)
    ensures Frontmatter(next) == Frontmatter(lines)
  {
    ExtendsFence(lines, next, row);
    ExtendsFrontmatter(lines, next, row);
    ExtendsKeyRow(lines, next, "status", row);
    EntryTrimmed(lines[row], next[row]);
  }

  lemma IsKeyLineTrimmed(line: string, t: string, key: string)
    requires IsTrimmed(line, t)
    ensures IsKeyLine(t, key) <==> IsKeyLine(line, key)
  {
    KeySpanTrimmed(line, t);
    if KeySpan(t).Some? {
      KeyTrimmed(line, t, KeySpan(t).value.start, KeySpan(t).value.end);
    }
  }

  lemma StrippedRows(lines: Text, key: string, row: nat)
    requires OnlyKeyRow(lines, key, row)
    ensures row < |RStrip(lines)| <= |lines|
    ensures forall i | 0 <= i < row :: RStrip(lines)[i] == lines[i]
    ensures IsTrimmed(lines[row], RStrip(lines)[row])
    ensures forall i | row < i < |RStrip(lines)| :: !IsKeyLine(RStrip(lines)[i], key)
  {
    RStripRows(lines);
    var kept := RStrip(lines);
    if row >= |kept| {
      TrimmedLine(lines[row]);
      KeySpanTrimmed(lines[row], "");
      EmptyLineIsNoEntry();
    }
    assert IsTrimmed(lines[row], lines[row]);
    forall i | row < i < |kept| ensures !IsKeyLine(kept[i], key) {
      if i == |kept| - 1 {
        IsKeyLineTrimmed(lines[i], kept[i], key);
      }
    }
  }

  lemma AppendedExtends(lines: Text, note: string, now: string, key: string, row: nat)
    requires OnlyKeyRow(lines, key, row) && key != now
    requires '\n' !in note && IsKeyLine(note, now)
    ensures Extends(lines, AppendNote(lines, note), key, row)
  {
    AppendedShape(lines, note);
    AddedMetadata(lines, note, now);
    StrippedRows(lines, key, row);
    var kept, added, next := RStrip(lines), Added(lines, note), AppendNote(lines, note);
    forall i | row < i < |next| ensures !IsKeyLine(next[i], key) {
      if i >= |kept| {
        assert next[i] == added[i - |kept|];
      }
    }
  }

  lemma AppendedMetadata(lines: Text, now: string, note: string)
    requires '\n' !in note && IsKeyLine(note, now)
    ensures Metadata(AppendNote(lines, note)) == Metadata(lines)[now := MetaEntry(note).value.value]
  {
    AppendedShape(lines, note);
    AddedMetadata(lines, note, now);
    MetadataRStrip(lines);
    CollectConcat(MetaEntry, RStrip(lines), Added(lines, note));
  }

  /** A one-line note adds its own entry and changes nothing else that the checker reads; the item stays
      clean, so the next move finds it as this one did. */
  lemma AppendReadsBack(lines: Text, now: string, note: string, row: nat)
    requires CleanAt(lines, row)
    requires '\n' !in note && IsStamp(now) && IsKeyLine(note, now)
    ensures CleanAt(AppendNote(lines, note), row)
    ensures Metadata(AppendNote(lines, note)) == Metadata(lines)[now := MetaEntry(note).value.value]
    ensures Frontmatter(AppendNote(lines, note)) == Frontmatter(lines)
  {
    AppendedMetadata(lines, now, note);
    AppendedExtends(lines, note, now, "status", row);
    ExtendsClean(lines, AppendNote(lines, note), row);
  }
}
