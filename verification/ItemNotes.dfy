/** The transition history of an item as text: what a move appends, and what it then says. */
module ItemNotes {
  import opened Options
  import opened Strings
  import opened ItemText
  import opened ItemRoundTrip
  import opened ItemHistory
  import opened QueueFormat
  import opened Lanes
  import opened LaneRuns

  // ---------------------------------------------------------------- lines and the text they make

  lemma {:induction false} JoinConcat(a: Text, b: Text)
    requires a != [] && b != []
    ensures Join(a + b, "\n") == Join(a, "\n") + "\n" + Join(b, "\n")
  {
    if |a| == 1 {
      assert a + b == [a[0]] + b;
      JoinFront(a[0], b, "\n");
    } else {
      var rest := a[1..];
      assert a == [a[0]] + rest && a + b == [a[0]] + (rest + b);
      JoinFront(a[0], rest, "\n");
      JoinFront(a[0], rest + b, "\n");
      JoinConcat(rest, b);
      assert a[0] + "\n" + (Join(rest, "\n") + "\n" + Join(b, "\n")) == a[0] + "\n" + Join(rest, "\n") + "\n" + Join(b, "\n");
    }
  }

  lemma JoinLast(front: Text, line: string)
    ensures Join(front + [line], "\n") == if front == [] then line else Join(front, "\n") + "\n" + line
  {
    if front == [] {
      assert front + [line] == [line];
    } else {
      JoinConcat(front, [line]);
    }
  }

  lemma {:induction false} JoinSplit(s: string)
    ensures Join(Split(s, '\n'), "\n") == s
  {
    if s != "" {
      var rest := Split(s[1..], '\n');
      JoinSplit(s[1..]);
      if s[0] == '\n' {
        JoinFront("", rest, "\n");
        assert "" + "\n" + s[1..] == s;
      } else {
        assert rest == [rest[0]] + rest[1..];
        JoinFront(rest[0], rest[1..], "\n");
        JoinFront([s[0]] + rest[0], rest[1..], "\n");
        assert [s[0]] + s[1..] == s;
      }
    }
  }

  lemma TrimEndWhole(s: string)
    requires s != "" && !Blank(s[|s| - 1])
    ensures TrimEnd(Blank, s) == s
  {
  }

  lemma BlankLineDrops(front: Text, line: string)
    requires front != [] && AllIn(Blank, line)
    ensures TrimEnd(Blank, Join(front + [line], "\n")) == TrimEnd(Blank, Join(front, "\n"))
  {
    JoinLast(front, line);
    var top := Join(front, "\n");
    assert top + "\n" + line == top + ("\n" + line);
    TrimEndDrops(top, "\n" + line);
  }

  lemma TextEnds(top: string, t: string, blanks: string)
    requires AllIn(Blank, blanks) && t != "" && !Blank(t[|t| - 1])
    ensures TrimEnd(Blank, top + (t + blanks)) == top + t
  {
    assert top + (t + blanks) == top + t + blanks;
    TrimEndDrops(top + t, blanks);
    TrimEndWhole(top + t);
  }

  lemma TextLineEnds(front: Text, line: string, t: string)
    requires IsTrimmed(line, t) && t != "" && !Blank(t[|t| - 1])
    ensures TrimEnd(Blank, Join(front + [line], "\n")) == Join(front + [t], "\n")
  {
    JoinLast(front, line);
    JoinLast(front, t);
    assert line == t + line[|t|..];
    TextEnds(if front == [] then "" else Join(front, "\n") + "\n", t, line[|t|..]);
    assert "" + line == line && "" + t == t;
  }

  /** Stripping the lines is stripping the text. */
  lemma {:induction false} RStripText(lines: Text)
    ensures Join(RStrip(lines), "\n") == TrimEnd(Blank, Join(lines, "\n"))
  {
    if lines != [] {
      var front, line := lines[..|lines| - 1], lines[|lines| - 1];
      assert lines == front + [line];
      TrimEndSplits(Blank, line);
      if TrimEnd(Blank, line) != "" {
        TextLineEnds(front, line, TrimEnd(Blank, line));
      } else if front != [] {
        RStripText(front);
        BlankLineDrops(front, line);
      } else {
        JoinLast([], line);
      }
    }
  }

  /** `token` is a part of `s`. */
  ghost predicate IsPartOf(token: string, s: string) {
    exists j :: 0 <= j <= |s| && token <= s[j..]
  }

  lemma PartAt(token: string, s: string, a: string, b: string)
    requires s == a + token + b
    ensures IsPartOf(token, s)
  {
    assert s[|a|..] == token + b;
  }

  lemma PartSplits(token: string, s: string) returns (a: string, b: string)
    requires IsPartOf(token, s)
    ensures s == a + token + b
  {
    var j :| 0 <= j <= |s| && token <= s[j..];
    a, b := s[..j], s[j..][|token|..];
  }

  lemma HasAtIff(s: string, j: nat, token: string)
    requires j <= |s|
    ensures HasAt(s, j, token) <==> token <= s[j..]
  {
    if j + |token| <= |s| {
      assert s[j..][..|token|] == s[j..j + |token|];
    }
  }

  lemma {:induction false} ContainsIff(s: string, token: string, i: nat)
    requires i <= |s|
    ensures Contains(s, token, i) <==> exists j :: i <= j <= |s| && token <= s[j..]
    decreases |s| - i
  {
    HasAtIff(s, i, token);
    if i < |s| {
      ContainsIff(s, token, i + 1);
    }
  }

  lemma PartExtends(token: string, s: string, front: string, back: string)
    requires IsPartOf(token, s)
    ensures IsPartOf(token, front + s + back)
  {
    var a, b := PartSplits(token, s);
    assert front + s + back == (front + a) + token + (b + back);
    PartAt(token, front + s + back, front + a, b + back);
  }

  lemma CharOfPart(a: string, token: string, b: string, n: int)
    requires |a| <= n < |a| + |token|
    ensures (a + token + b)[n] in token
  {
    assert (a + token + b)[n] == token[n - |a|];
  }

  /** A token without line end that stands in a text with one stands on one side of it. */
  lemma PartOnOneSide(token: string, line: string, rest: string, a: string, b: string)
    requires '\n' !in token && line + "\n" + rest == a + token + b
    ensures IsPartOf(token, line) || IsPartOf(token, rest)
  {
    var s, n, m := line + "\n" + rest, |line|, |a| + |token|;
    assert s[n] == '\n' && s[..n] == line && s[n + 1..] == rest;
    if m <= n {
      assert s[..n] == a + token + s[m..n];
      PartAt(token, line, a, s[m..n]);
    } else if |a| > n {
      assert s[n + 1..] == a[n + 1..] + token + b;
      PartAt(token, rest, a[n + 1..], b);
    } else {
      CharOfPart(a, token, b, n);
    }
  }

  lemma PartOfEither(token: string, line: string, rest: string)
    requires '\n' !in token
    ensures IsPartOf(token, line + "\n" + rest) <==> IsPartOf(token, line) || IsPartOf(token, rest)
  {
    var s := line + "\n" + rest;
    if IsPartOf(token, line) {
      PartExtends(token, line, "", "\n" + rest);
      assert "" + line + ("\n" + rest) == s;
    }
    if IsPartOf(token, rest) {
      PartExtends(token, rest, line + "\n", "");
      assert line + "\n" + rest + "" == s;
    }
    if IsPartOf(token, s) {
      var a, b := PartSplits(token, s);
      PartOnOneSide(token, line, rest, a, b);
    }
  }

  lemma {:induction false} MentionsText(lines: Text, token: string)
    requires token != "" && '\n' !in token
    ensures Mentions(lines, token) <==> IsPartOf(token, Join(lines, "\n"))
  {
    if lines == [] {
      assert !IsPartOf(token, "");
    } else {
      var line, rest := lines[0], lines[1..];
      assert lines == [line] + rest;
      JoinFront(line, rest, "\n");
      MentionsText(rest, token);
      ContainsIff(line, token, 0);
      MentionsFront(line, rest, token);
      if rest != [] {
        PartOfEither(token, line, Join(rest, "\n"));
      }
    }
  }

  lemma MentionsFront(line: string, rest: Text, token: string)
    ensures Mentions([line] + rest, token) <==> Contains(line, token, 0) || Mentions(rest, token)
  {
    var lines := [line] + rest;
    assert lines[0] == line;
    assert forall i | 0 <= i < |rest| :: lines[i + 1] == rest[i];
    if Mentions(lines, token) && !Contains(line, token, 0) {
      var i :| 0 <= i < |lines| && Contains(lines[i], token, 0);
      assert rest[i - 1] == lines[i];
    }
  }

  // ---------------------------------------------------------------- what is appended

  lemma AppendedIs(lines: Text, note: string, heading: string)
    requires heading == "## Transition History"
    ensures AppendNote(lines, note) ==
            RStrip(lines) + (if Mentions(lines, heading) then [] else ["", heading]) + Split(note, '\n') + [""]
  {
  }

  /** The text loses its trailing blanks and gains the note on lines of its own; the heading comes in between if the
      text does not hold it anywhere. */
  lemma AppendedText(lines: Text, note: string, heading: string)
    requires heading == "## Transition History"
    ensures var text := Join(lines, "\n");
            Join(AppendNote(lines, note), "\n") ==
            TrimEnd(Blank, text)
            + (if exists j :: 0 <= j <= |text| && heading <= text[j..] then "\n" else "\n\n" + heading + "\n")
            + note + "\n"
  {
    AppendedIs(lines, note, heading);
    HeadingIsOneLine(heading);
    AppendedTextOf(lines, note, heading);
  }

  lemma HeadingIsOneLine(heading: string)
    requires heading == "## Transition History"
    ensures heading != "" && '\n' !in heading
  {
  }

  lemma AppendedTextOf(lines: Text, note: string, heading: string)
    requires heading != "" && '\n' !in heading
    ensures var text := Join(lines, "\n");
            Join(RStrip(lines) + (if Mentions(lines, heading) then [] else ["", heading]) + Split(note, '\n') + [""], "\n") ==
            TrimEnd(Blank, text)
            + (if IsPartOf(heading, text) then "\n" else "\n\n" + heading + "\n")
            + note + "\n"
  {
    RStripText(lines);
    RStripNotEmpty(lines);
    JoinSplit(note);
    MentionsText(lines, heading);
    AppendedLines(RStrip(lines), if Mentions(lines, heading) then [] else ["", heading], Split(note, '\n'));
    HeadingBetween(heading);
  }

  lemma AppendedLines(kept: Text, heading: Text, pieces: Text)
    requires kept != [] && pieces != []
    ensures Join(kept + heading + pieces + [""], "\n") ==
            Join(kept, "\n") + "\n" + (if heading == [] then "" else Join(heading, "\n") + "\n") + Join(pieces, "\n") + "\n"
  {
    JoinLast(kept + heading + pieces, "");
    JoinConcat(kept + heading, pieces);
    if heading == [] {
      assert kept + heading == kept;
    } else {
      JoinConcat(kept, heading);
    }
  }

  lemma HeadingBetween(heading: string)
    ensures "\n" + (Join(["", heading], "\n") + "\n") == "\n\n" + heading + "\n"
  {
    JoinLast([""], heading);
    assert [""] + [heading] == ["", heading];
  }

  lemma {:induction false} RStripNotEmpty(lines: Text)
    ensures RStrip(lines) != []
  {
    if lines != [] {
      RStripNotEmpty(lines[..|lines| - 1]);
    }
  }

  // ---------------------------------------------------------------- what the note says

  /** From one lane to the other, who did it if that is known, and why if that is known. */
  function Move(from: string, to: string, actor: string, reason: string): string {
    "`" + from + "` -> `" + to + "`"
    + (if actor == "" then "" else " by `" + actor + "`")
    + (if reason == "" then "" else "; " + reason)
  }

  lemma NoteIs(now: string, from: string, to: string, actor: string, reason: string)
    ensures Note(now, from, to, actor, reason) == "- `" + now + "`:" + (" " + Move(from, to, actor, reason))
  {
    var who, why := if actor == "" then "" else " by `" + actor + "`", if reason == "" then "" else "; " + reason;
    NotePieces("- `" + now, from, "` -> `" + to + "`", who, why);
  }

  lemma NotePieces(head: string, from: string, lanes: string, who: string, why: string)
    ensures head + "`: `" + from + lanes + who + why == head + "`:" + (" " + ("`" + from + lanes + who + why))
  {
    assert "`: `" == "`:" + " " + "`";
  }

  lemma ValueBehind(head: string, text: string)
    requires text != "" && !Blank(text[0])
    ensures Strip((head + (" " + text))[|head|..]) == TrimEnd(Blank, text)
  {
    assert (head + (" " + text))[|head|..] == " " + text;
    assert (" " + text)[1..] == text;
    assert TrimStart(Blank, " " + text) == text;
  }

  /** The checker reads the note as the entry of its time stamp. */
  lemma NoteReads(now: string, from: string, to: string, actor: string, reason: string)
    requires now != "" && '`' !in now
    ensures MetaEntry(Note(now, from, to, actor, reason)) == Some(Entry(now, TrimEnd(Blank, Move(from, to, actor, reason))))
  {
    var text := Move(from, to, actor, reason);
    var note := "- `" + now + "`:" + (" " + text);
    NoteIs(now, from, to, actor, reason);
    NoteIsEntry(now, " " + text);
    assert text[0] == '`';
    ValueBehind("- `" + now + "`:", text);
    assert note[3..3 + |now|] == now;
  }

  lemma BlankBehind(s: string, n: int, i: int)
    requires 0 <= n <= i < |s| && AllIn(Blank, s[n..])
    ensures Blank(s[i])
  {
    assert s[n..][i - n] == s[i];
  }

  lemma TrimKeepsFront(front: string, back: string)
    requires front != "" && !Blank(front[|front| - 1])
    ensures front <= TrimEnd(Blank, front + back)
  {
    var s, kept := front + back, TrimEnd(Blank, front + back);
    TrimEndSplits(Blank, s);
    assert s[|front| - 1] == front[|front| - 1];
    if |kept| < |front| {
      BlankBehind(s, |kept|, |front| - 1);
    }
  }

  lemma MoveStarts(from: string, to: string, actor: string, reason: string)
    ensures "`" + from + "` -> `" + to + "`" <= TrimEnd(Blank, Move(from, to, actor, reason))
  {
    var lanes := "`" + from + "` -> `" + to + "`";
    var who, why := if actor == "" then "" else " by `" + actor + "`", if reason == "" then "" else "; " + reason;
    assert lanes[|lanes| - 1] == '`';
    TrimKeepsFront(lanes, who + why);
    assert lanes + who + why == lanes + (who + why);
  }

  /** A move with history adds one entry to the metadata of a good item and changes one: under its time stamp it
      says from which lane to which the item went, by whom, and why; the status is that of the new lane. */
  lemma MoveIsRecorded(text: Text, q: Request)
    requires GoodText(text, q.from) && IsPlain(q) && q.history
    ensures NewText(text, q).Some?
    ensures var recorded := TrimEnd(Blank,
              "`" + LaneName(q.from) + "` -> `" + LaneName(q.to) + "`"
              + (if q.actor == "" then "" else " by `" + q.actor + "`")
              + (if q.reason == "" then "" else "; " + q.reason));
            && Metadata(NewText(text, q).value) == Metadata(text)["status" := LaneName(q.to)][q.now := recorded]
            && "`" + LaneName(q.from) + "` -> `" + LaneName(q.to) + "`" <= recorded
  {
    var row :| CleanAt(text, row);
    LaneWords(q.to);
    UpdateReadsBack(text, LaneName(q.to), row);
    var updated, note := UpdateStatus(text, LaneName(q.to)).value, Note(q.now, LaneName(q.from), LaneName(q.to), q.actor, q.reason);
    NewTextIs(text, q);
    NoteIsOneLine(q);
    NoteReads(q.now, LaneName(q.from), LaneName(q.to), q.actor, q.reason);
    NoteIs(q.now, LaneName(q.from), LaneName(q.to), q.actor, q.reason);
    NoteIsEntry(q.now, " " + Move(LaneName(q.from), LaneName(q.to), q.actor, q.reason));
    AppendReadsBack(updated, q.now, note, row);
    MoveStarts(LaneName(q.from), LaneName(q.to), q.actor, q.reason);
  }

  // ---------------------------------------------------------------- the heading of the history

  /** Such a line mentions the heading. */
  lemma HeadingIsMentioned(line: string, heading: string)
    requires Strip(line) == heading
    ensures Contains(line, heading, 0)
  {
    var front := TrimStart(Blank, line);
    TrimStartSplits(Blank, line);
    TrimEndSplits(Blank, front);
    var a := line[..|line| - |front|];
    assert line == a + heading + front[|heading|..];
    PartAt(heading, line, a, front[|heading|..]);
    ContainsIff(line, heading, 0);
  }

  /** Line `i` of the text is a heading of that title. */
  predicate StandsAt(lines: Text, i: nat, heading: string) {
    i < |lines| && Strip(lines[i]) == heading
  }

  lemma {:induction false} StrippedHeadings(lines: Text, heading: string, i: nat)
    requires heading != ""
    ensures StandsAt(RStrip(lines), i, heading) <==> StandsAt(lines, i, heading)
  {
    if lines == [] {
      StripBlank("");
    } else {
      RStripRows(lines);
      var kept := RStrip(lines);
      if i == |kept| - 1 {
        StripTrimmed(lines[i], kept[i]);
      }
      if |kept| <= i < |lines| {
        BlankIff(lines[i]);
      }
    }
  }

  lemma AppendedHeadings(kept: Text, added: Text, note: string, heading: string, i: nat)
    requires heading != "" && Strip(note) != heading
    requires added == [] || (|added| == 2 && added[0] == "" && Strip(added[1]) == heading)
    ensures StandsAt(kept + added + [note] + [""], i, heading) <==>
            StandsAt(kept, i, heading) || (added != [] && i == |kept| + 1)
  {
    StripBlank("");
    var lines := kept + added + [note] + [""];
    if |kept| <= i < |kept| + |added| {
      assert lines[i] == added[i - |kept|];
    }
  }

  /** A one-line note stands on the last line but for the empty one behind the final line end. No heading is lost, and
      one is added exactly if the text did not mention any: it stands right above the note, and alone. */
  lemma HistoryHeading(lines: Text, note: string, heading: string, i: nat)
    requires heading == "## Transition History" && '\n' !in note && Strip(note) != heading
    ensures var next := AppendNote(lines, note);
            && |next| >= 2 && next[|next| - 2..] == [note, ""]
            && (Mentions(lines, heading) ==> (StandsAt(next, i, heading) <==> StandsAt(lines, i, heading)))
            && (!Mentions(lines, heading) ==> (StandsAt(next, i, heading) <==> i == |next| - 3))
  {
    var added := if Mentions(lines, heading) then [] else ["", heading];
    AppendedIs(lines, note, heading);
    HeadingIsOneLine(heading);
    SplitWhole(note, '\n');
    StrippedHeadings(lines, heading, i);
    StripsToItself(heading);
    AppendedHeadings(RStrip(lines), added, note, heading, i);
    if !Mentions(lines, heading) && StandsAt(lines, i, heading) {
      HeadingIsMentioned(lines[i], heading);
    }
  }

  lemma StripsToItself(heading: string)
    requires heading == "## Transition History"
    ensures Strip(heading) == heading
  {
    StripWord(heading);
  }

  /** A note of the tool is no heading. */
  lemma NoteIsNoHeading(now: string, from: string, to: string, actor: string, reason: string, heading: string)
    requires heading == "## Transition History"
    ensures Strip(Note(now, from, to, actor, reason)) != heading
  {
    NoteIs(now, from, to, actor, reason);
    DashFirst(Note(now, from, to, actor, reason), now, " " + Move(from, to, actor, reason));
    assert heading[0] == '#';
  }

  lemma DashFirst(note: string, now: string, rest: string)
    requires note == "- `" + now + "`:" + rest
    ensures Strip(note) != "" && Strip(note)[0] == '-'
  {
    assert note[0] == '-';
    StripHead(note, 0);
  }

  // ---------------------------------------------------------------- the other lines

  /** Changing the status of a clean item rewrites the value on its status line, and in the frontmatter at most lines
      that start with the status key; every other line stays. */
  lemma UpdatedLines(lines: Text, lane: string, row: nat, i: nat)
    requires CleanAt(lines, row) && IsWord(lane) && i < |lines|
    ensures UpdateStatus(lines, lane).Some?
    ensures var updated := UpdateStatus(lines, lane).value;
            && |updated| == |lines|
            && updated[row] == lines[row][..SkipBlanks(lines[row], KeyEnd(lines[row]))] + lane
            && (i != row && !(ClosingFence(lines).Some? && 1 <= i < ClosingFence(lines).value && "status:" <= lines[i]) ==>
                  updated[i] == lines[i])
  {
    var next := RewriteStatus(lines, lane).value;
    UpdateIsUpdated(lines, lane, row);
    RewriteClean(lines, lane, row);
    SpotOnLine(lines, row, "status");
    RewriteOnLine(lines, lane, row);
    UpdateFrontmatterClean(lines, next, lane, row);
  }
}
