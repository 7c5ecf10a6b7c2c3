/** The patterns by which the tools read a line, as texts put together from their parts. */
module LinePatterns {
  import opened Options
  import opened Strings
  import opened ItemText
  import opened ItemHistory
  import opened QueueFormat
  import opened LaneQueue

  lemma AllFrom(kind: CharClass, s: string, i: nat, j: nat)
    requires i <= j <= |s|
    ensures AllIn(kind, s[i..j]) <==> forall k | i <= k < j :: kind(s[k])
  {
    var t := s[i..j];
    assert forall k | 0 <= k < j - i :: t[k] == s[i + k];
    if AllIn(kind, t) {
      forall k | i <= k < j ensures kind(s[k]) {
        assert t[k - i] == s[k];
      }
    }
  }

  lemma NoneFrom(c: char, s: string, i: nat, j: nat)
    requires i <= j <= |s|
    ensures c !in s[i..j] <==> forall k | i <= k < j :: s[k] != c
  {
    if c !in s[i..j] {
      forall k | i <= k < j ensures s[k] != c {
        assert s[k] == s[i..j][k - i];
      }
    }
  }

  /** Blanks up to a character that is none. */
  lemma BlanksTo(s: string, i: nat, j: nat)
    requires i <= j < |s| && AllIn(Blank, s[i..j]) && !Blank(s[j])
    ensures SkipBlanks(s, i) == j
  {
    AllFrom(Blank, s, i, j);
    SkipBlanksTo(s, i, j);
  }

  lemma DigitsTo(s: string, i: nat, j: nat)
    requires i <= j < |s| && AllIn(IsDigit, s[i..j]) && !IsDigit(s[j])
    ensures SkipDigits(s, i) == j
  {
    AllFrom(IsDigit, s, i, j);
    SkipDigitsTo(s, i, j);
  }

  lemma TickTo(s: string, i: nat, j: nat)
    requires i <= j < |s| && '`' !in s[i..j] && s[j] == '`'
    ensures NextTick(s, i) == j
  {
    NoneFrom('`', s, i, j);
    NextTickAt(s, i, j);
  }

  // ---------------------------------------------------------------- queue items

  /** A queue item, cut at `m`: blanks, digits, a dot, blanks, a text in backticks, and the rest. */
  ghost predicate IsItemAt(line: string, m: Marks) {
    && m.digits < m.dot < m.tick && m.tick + 1 < m.end < |line|
    && AllIn(Blank, line[0..m.digits]) && AllIn(IsDigit, line[m.digits..m.dot]) && line[m.dot] == '.'
    && AllIn(Blank, line[m.dot + 1..m.tick]) && line[m.tick] == '`'
    && '`' !in line[m.tick + 1..m.end] && line[m.end] == '`'
  }

  lemma MarksMean(line: string, m: Marks)
    ensures FindMarks(line) == Some(m) <==> IsItemAt(line, m)
  {
    if FindMarks(line) == Some(m) {
      FoundAreMarks(line, m);
    }
    if IsItemAt(line, m) {
      MarksAreFound(line, m);
    }
  }

  lemma MarksAreFound(line: string, m: Marks)
    requires IsItemAt(line, m)
    ensures FindMarks(line) == Some(m)
  {
    AllFrom(IsDigit, line, m.digits, m.dot);
    BlanksTo(line, 0, m.digits);
    DigitsTo(line, m.digits, m.dot);
    BlanksTo(line, m.dot + 1, m.tick);
    TickTo(line, m.tick + 1, m.end);
  }

  lemma GapIsBlank(line: string, m: Marks)
    requires FindMarks(line) == Some(m)
    ensures AllIn(Blank, line[m.dot + 1..m.tick]) && line[m.tick] == '`' && line[m.dot] == '.'
  {
    SkipBlanksPassed(line, m.dot + 1);
    AllFrom(Blank, line, m.dot + 1, m.tick);
  }

  lemma FoundAreMarks(line: string, m: Marks)
    requires FindMarks(line) == Some(m)
    ensures IsItemAt(line, m)
  {
    GapIsBlank(line, m);
    PartsOfItem(line);
    assert line[0..m.digits] == Indent(line);
  }

  /** A line is an item exactly if it can be cut like that. */
  lemma ItemIff(line: string)
    ensures ItemOf(line).Some? <==> exists m :: IsItemAt(line, m)
  {
    if FindMarks(line).Some? {
      MarksMean(line, FindMarks(line).value);
    }
    if m :| IsItemAt(line, m) {
      MarksMean(line, m);
    }
  }

  /** It is read as its digits and the text between the backticks. */
  lemma ItemReadsAs(line: string, m: Marks, number: string, raw: string)
    requires IsItemAt(line, m) && number == line[m.digits..m.dot] && raw == line[m.tick + 1..m.end]
    ensures ItemOf(line) == Some(Item(number, raw, PathName(raw)))
  {
    MarksMean(line, m);
    assert Number(line) == number && Raw(line) == raw;
  }

  /** It is numbered anew with one blank behind the dot. */
  lemma NumberedAs(line: string, m: Marks, n: nat, indent: string, raw: string, rest: string)
    requires IsItemAt(line, m)
    requires indent == line[..m.digits] && raw == line[m.tick + 1..m.end] && rest == line[m.end + 1..]
    ensures Renumbered(line, n) == indent + Decimal(n) + ". `" + (raw + "`" + rest)
  {
    MarksMean(line, m);
    assert Indent(line) == indent && Raw(line) == raw && Rest(line) == rest;
  }

  /** The other marks of a line: a title on its own, two hashes and a blank, a message, and nothing but blanks. */
  lemma KindMeans(heading: string, line: string)
    ensures ReadLine(heading, line).item == ItemOf(line)
    ensures ReadLine(heading, line).heading <==> Strip(line) == heading
    ensures ReadLine(heading, line).section <==> |line| > 2 && line[0] == '#' && line[1] == '#' && Blank(line[2])
    ensures ReadLine(heading, line).message <==> ItemOf(line).None? && "No " <= Strip(line)
    ensures ReadLine(heading, line).blank <==> forall i | 0 <= i < |line| :: Blank(line[i])
  {
    if |line| > 2 {
      assert line[..2] == [line[0], line[1]];
      assert SectionMark() == ['#', '#'];
    }
    BlankIff(line);
    TrimEndBlanks(line);
  }

  // ---------------------------------------------------------------- paths

  lemma {:induction false} ComponentsConcat(a: seq<string>, b: seq<string>)
    ensures Components(a + b) == Components(a) + Components(b)
  {
    if a == [] {
      assert a + b == b;
    } else {
      assert (a + b)[1..] == a[1..] + b;
      ComponentsConcat(a[1..], b);
    }
  }

  /** The name of a path is the last piece between its slashes, but for empty pieces and single dots. */
  lemma PathNameMeans(front: string, piece: string)
    requires '/' !in piece
    ensures PathName(front + "/" + piece) == if piece == "" || piece == "." then PathName(front) else piece
    ensures PathName(piece) == if piece == "." then "" else piece
  {
    SplitAtSeparator(front, piece, '/');
    SplitWhole(piece, '/');
    ComponentsConcat(Split(front, '/'), [piece]);
    assert [piece][1..] == [];
    assert Components([piece]) == if piece == "" || piece == "." then [] else [piece];
  }

  // ---------------------------------------------------------------- metadata and frontmatter

  /** A metadata line, cut at its dash, at its backtick, and at the end of its key: a dash between blanks, a key in
      backticks, a colon, and the value. */
  ghost predicate IsMetaAt(line: string, dash: nat, tick: nat, end: nat) {
    && dash < tick && tick + 1 < end && end + 1 < |line|
    && AllIn(Blank, line[0..dash]) && line[dash] == '-' && AllIn(Blank, line[dash + 1..tick]) && line[tick] == '`'
    && '`' !in line[tick + 1..end] && line[end] == '`' && line[end + 1] == ':'
  }

  lemma MetaSpan(line: string, dash: nat, tick: nat, end: nat)
    requires IsMetaAt(line, dash, tick, end)
    ensures KeySpan(line) == Some(Span(tick + 1, end))
  {
    BlanksTo(line, 0, dash);
    BlanksTo(line, dash + 1, tick);
    TickTo(line, tick + 1, end);
  }

  /** It is read as its key and its stripped value. */
  lemma MetaLineReads(line: string, dash: nat, tick: nat, end: nat, key: string, value: string)
    requires IsMetaAt(line, dash, tick, end) && key == line[tick + 1..end] && value == line[end + 2..]
    ensures MetaEntry(line) == Some(Entry(key, Strip(value)))
  {
    MetaSpan(line, dash, tick, end);
  }

  /** No other line is read. */
  lemma MetaLineOnly(line: string) returns (dash: nat, tick: nat, end: nat)
    requires MetaEntry(line).Some?
    ensures IsMetaAt(line, dash, tick, end)
  {
    dash, tick, end := SkipBlanks(line, 0), KeySpan(line).value.start - 1, KeySpan(line).value.end;
    SkipBlanksPassed(line, 0);
    SkipBlanksPassed(line, dash + 1);
    NextTickPassed(line, tick + 1);
    AllFrom(Blank, line, 0, dash);
    AllFrom(Blank, line, dash + 1, tick);
    NoneFrom('`', line, tick + 1, end);
  }

  lemma {:induction false} ColonIn(a: string, s: string, i: nat)
    requires i <= |a| && |a| <= |s| && a == s[..|a|] && ':' !in a && (|a| < |s| ==> s[|a|] == ':')
    ensures NextColon(s, i) == |a|
    decreases |a| - i
  {
    if i < |a| {
      assert s[i] == a[i] && a[i] in a;
      ColonIn(a, s, i + 1);
    }
  }

  /** A frontmatter line is split at its first colon; without one it is not read. */
  lemma FieldReads(key: string, value: string)
    requires ':' !in key
    ensures FieldEntry(key + ":" + value) == Some(Entry(Strip(key), Strip(value)))
    ensures FieldEntry(key) == None
  {
    var line := key + ":" + value;
    assert line[..|key|] == key && line[|key| + 1..] == value;
    ColonIn(key, line, 0);
    ColonIn(key, key, 0);
  }

  lemma {:induction false} FenceMeans(lines: Text, j: nat, end: nat)
    requires j <= |lines|
    ensures FenceFrom(lines, j) == Some(end) <==>
            j <= end && end + 1 < |lines| && lines[end] == FENCE && forall i | j <= i < end :: lines[i] != FENCE
    decreases |lines| - j
  {
    if j + 1 < |lines| && lines[j] != FENCE {
      FenceMeans(lines, j + 1, end);
    }
  }

  /** Frontmatter opens on the first line and closes on the next line of three dashes that is neither the second nor
      the last one. */
  lemma ClosingFenceMeans(lines: Text, end: nat)
    ensures ClosingFence(lines) == Some(end) <==>
            && 2 <= end && end + 1 < |lines|
            && lines[0] == "---" && lines[end] == "---" && forall i | 2 <= i < end :: lines[i] != "---"
  {
    if |lines| >= 2 {
      FenceMeans(lines, 2, end);
    }
  }

  /** Under every key, what a text says is what its last line with that key says. */
  lemma MetadataMeans(lines: Text, row: nat, key: string)
    ensures key in Metadata(lines) <==> exists i :: 0 <= i < |lines| && MetaEntry(lines[i]).Some? && MetaEntry(lines[i]).value.key == key
    ensures row < |lines| && MetaEntry(lines[row]).Some? && NoKeyFrom(MetaEntry, lines, row + 1, MetaEntry(lines[row]).value.key) ==>
              Get(Metadata(lines), MetaEntry(lines[row]).value.key) == Some(MetaEntry(lines[row]).value.value)
  {
    CollectHas(MetaEntry, lines, key);
    if row < |lines| && MetaEntry(lines[row]).Some? && NoKeyFrom(MetaEntry, lines, row + 1, MetaEntry(lines[row]).value.key) {
      CollectOnly(MetaEntry, lines, row);
    }
  }

  lemma {:induction false} CollectHas(read: string -> Option<Entry>, lines: Text, key: string)
    ensures key in Collect(read, lines) <==> exists i :: 0 <= i < |lines| && read(lines[i]).Some? && read(lines[i]).value.key == key
  {
    if lines != [] {
      var front, last := lines[..|lines| - 1], lines[|lines| - 1];
      CollectHas(read, front, key);
      assert lines == front + [last];
      assert key in Collect(read, lines) <==>
             key in Collect(read, front) || (read(last).Some? && read(last).value.key == key);
    }
  }

  /** The frontmatter says what the lines between its fences say. */
  lemma FrontmatterKeys(lines: Text, end: nat, key: string)
    requires ClosingFence(lines) == Some(end)
    ensures key in Frontmatter(lines) <==>
            exists i :: 1 <= i < end && FieldEntry(lines[i]).Some? && FieldEntry(lines[i]).value.key == key
  {
    CollectHas(FieldEntry, lines[1..end], key);
    BodyHas(FieldEntry, lines, end, key);
  }

  lemma BodyHas(read: string -> Option<Entry>, lines: Text, end: nat, key: string)
    requires 1 <= end <= |lines|
    ensures var body := lines[1..end];
            (exists i :: 0 <= i < |body| && read(body[i]).Some? && read(body[i]).value.key == key) <==>
            exists i :: 1 <= i < end && read(lines[i]).Some? && read(lines[i]).value.key == key
  {
    var body := lines[1..end];
    if i :| 0 <= i < |body| && read(body[i]).Some? && read(body[i]).value.key == key {
      assert lines[i + 1] == body[i];
    }
    if i :| 1 <= i < end && read(lines[i]).Some? && read(lines[i]).value.key == key {
      assert body[i - 1] == lines[i];
    }
  }

  /** Under every key it says what the last of them with that key says. */
  lemma FrontmatterValue(lines: Text, end: nat, row: nat, entry: Entry)
    requires ClosingFence(lines) == Some(end) && 1 <= row < end && FieldEntry(lines[row]) == Some(entry)
    requires forall i | row < i < end && FieldEntry(lines[i]).Some? :: FieldEntry(lines[i]).value.key != entry.key
    ensures Get(Frontmatter(lines), entry.key) == Some(entry.value)
  {
    var body := lines[1..end];
    assert body[row - 1] == lines[row];
    forall i | row <= i < |body| ensures FieldEntry(body[i]).Some? ==> FieldEntry(body[i]).value.key != entry.key {
      assert body[i] == lines[i + 1];
    }
    CollectOnly(FieldEntry, body, row - 1);
  }
}
