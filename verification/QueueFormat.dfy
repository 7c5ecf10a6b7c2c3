/** How the lines of a lane's README read: queue items, headings, and the message of an empty lane. */
module QueueFormat {
  import opened Options
  import opened Strings
  import opened ItemText
  import opened ItemHistory
  import opened LaneQueue

  // ---------------------------------------------------------------- file names

  /** The components of a path that count: not empty and not ".". */
  function Components(pieces: seq<string>): seq<string> {
    if pieces == [] then []
    else (if pieces[0] == "" || pieces[0] == "." then [] else [pieces[0]]) + Components(pieces[1..])
  }

  /** `Path(s).name` */
  function PathName(s: string): string {
    var parts := Components(Split(s, '/'));
    if parts == [] then "" else parts[|parts| - 1]
  }

  /** Where `str.splitlines` breaks a text. */
  predicate LineBreak(c: char) {
    '\n' <= c <= '\r' || '\U{001C}' <= c <= '\U{001E}' || c == '\U{0085}' || c == '\U{2028}' || c == '\U{2029}'
  }

  /** A file name that a queue line can hold. */
  predicate SafeName(name: string) {
    name != "" && name != "." && '/' !in name && '`' !in name && forall i | 0 <= i < |name| :: !LineBreak(name[i])
  }

  lemma SafeNameIsItsPath(name: string)
    requires SafeName(name)
    ensures PathName(name) == name
  {
    SplitWhole(name, '/');
    assert [name][1..] == [] && Components([name]) == [name];
  }

  // ---------------------------------------------------------------- queue items

  function SkipDigits(s: string, i: nat): (j: nat)
    requires i <= |s|
    ensures i <= j <= |s|
    decreases |s| - i
  {
    if i < |s| && IsDigit(s[i]) then SkipDigits(s, i + 1) else i
  }

  /** The columns of a queue item: its first digit, the dot, and the two backticks. */
  datatype Marks = Marks(digits: nat, dot: nat, tick: nat, end: nat)

  /** The rest of a match, behind the dot. */
  function MarksBehind(line: string, digits: nat, dot: nat): (marks: Option<Marks>)
    requires digits < dot < |line|
    ensures marks.Some? ==>
              var m := marks.value;
              m.digits == digits && m.dot == dot && dot < m.tick && m.tick + 1 < m.end < |line| && line[m.end] == '`'
  {
    var tick := SkipBlanks(line, dot + 1);
    if tick < |line| && line[tick] == '`' && tick + 1 < NextTick(line, tick + 1) < |line| then
      Some(Marks(digits, dot, tick, NextTick(line, tick + 1)))
    else None
  }

  /** A match of `^(\s*)\d+\.\s*\`([^\`]+)\`(.*)$`. */
  function FindMarks(line: string): (marks: Option<Marks>)
    ensures marks.Some? ==>
              var m := marks.value;
              m.digits < m.dot < m.tick && m.tick + 1 < m.end < |line| && line[m.end] == '`'
  {
    var digits := SkipBlanks(line, 0);
    var dot := SkipDigits(line, digits);
    if digits < dot < |line| && line[dot] == '.' then MarksBehind(line, digits, dot) else None
  }

  function Indent(line: string): string
    requires FindMarks(line).Some?
  {
    line[..FindMarks(line).value.digits]
  }

  function Number(line: string): string
    requires FindMarks(line).Some?
  {
    line[FindMarks(line).value.digits..FindMarks(line).value.dot]
  }

  function Raw(line: string): string
    requires FindMarks(line).Some?
  {
    line[FindMarks(line).value.tick + 1..FindMarks(line).value.end]
  }

  function Rest(line: string): string
    requires FindMarks(line).Some?
  {
    line[FindMarks(line).value.end + 1..]
  }

  function ItemOf(line: string): Option<Item> {
    if FindMarks(line).None? then None else Some(Item(Number(line), Raw(line), PathName(Raw(line))))
  }

  function ItemLine(indent: string, number: string, tail: string): string {
    indent + number + ". `" + tail
  }

  /** The item with another number; the blanks behind the dot become one. */
  function Renumbered(line: string, n: nat): string {
    if FindMarks(line).None? then line else ItemLine(Indent(line), Decimal(n), Raw(line) + "`" + Rest(line))
  }

  function NewEntry(name: string): string {
    ItemLine("", "1", name + "`")
  }

  // ---------------------------------------------------------------- lines

  function SectionMark(): string { "##" }

  function MessageMark(): string { "No " }

  predicate IsSection(line: string) {
    |line| > 2 && line[..2] == SectionMark() && Blank(line[2])
  }

  function ReadLine(heading: string, line: string): Kind {
    Kind(
      ItemOf(line),
      Strip(line) == heading,
      IsSection(line),
      MessageMark() <= Strip(line) && FindMarks(line).None?,
      Strip(line) == "")
  }

  /** A title and a message of the forms the tool uses. */
  ghost predicate IsTitle(heading: string) {
    |heading| > 3 && heading[..3] == SectionMark() + " " && !Blank(heading[|heading| - 1])
  }

  ghost predicate IsMessage(message: string) {
    |message| > 3 && message[..3] == MessageMark() && !Blank(message[|message| - 1])
  }

  function SectionFormat(heading: string, message: string): Format {
    Format(line => ReadLine(heading, line), Renumbered, NewEntry, heading, message)
  }

  // ---------------------------------------------------------------- columns

  lemma {:induction false} SkipDigitsTo(s: string, i: nat, j: nat)
    requires i <= j <= |s|
    requires forall k | i <= k < j :: IsDigit(s[k])
    requires j < |s| ==> !IsDigit(s[j])
    ensures SkipDigits(s, i) == j
    decreases j - i
  {
    if i < j {
      SkipDigitsTo(s, i + 1, j);
    }
  }

  lemma {:induction false} SkipDigitsSame(s: string, t: string, i: nat, n: nat)
    requires i <= n <= |s| && n <= |t| && s[..n] == t[..n]
    ensures SkipDigits(s, i) < n || SkipDigits(t, i) < n ==> SkipDigits(s, i) == SkipDigits(t, i)
    decreases n - i
  {
    if i < n {
      PrefixAt(s, t, n, i);
      SkipDigitsSame(s, t, i + 1, n);
    }
  }

  lemma {:induction false} SkipDigitsPassed(s: string, i: nat)
    requires i <= |s|
    ensures forall k | i <= k < SkipDigits(s, i) :: IsDigit(s[k])
    decreases |s| - i
  {
    if i < |s| && IsDigit(s[i]) {
      SkipDigitsPassed(s, i + 1);
    }
  }

  lemma {:induction false} DecimalDigits(n: nat)
    ensures AllIn(IsDigit, Decimal(n))
  {
    assert forall k | 0 <= k < 10 :: IsDigit(DIGITS[k]);
    if n >= 10 {
      DecimalDigits(n / 10);
    }
  }

  lemma ItemLineAt(indent: string, number: string, tail: string)
    ensures var line, dot := ItemLine(indent, number, tail), |indent| + |number|;
            && |line| == dot + 3 + |tail|
            && line[..|indent|] == indent && line[|indent|..dot] == number
            && line[dot] == '.' && line[dot + 1] == ' ' && line[dot + 2] == '`'
            && line[dot + 3..] == tail
  {
  }

  lemma SliceAt(s: string, i: nat, j: nat, k: nat)
    requires i <= k < j <= |s|
    ensures s[k] == s[i..j][k - i]
  {
  }

  lemma AllInAt(kind: CharClass, s: string, i: nat, j: nat)
    requires i <= j <= |s| && AllIn(kind, s[i..j])
    ensures forall k | i <= k < j :: kind(s[k])
  {
    forall k | i <= k < j ensures kind(s[k]) {
      SliceAt(s, i, j, k);
    }
  }

  lemma IndentAndNumber(line: string, digits: nat, dot: nat)
    requires digits < dot < |line| && line[dot] == '.'
    requires AllIn(Blank, line[0..digits]) && AllIn(IsDigit, line[digits..dot])
    ensures SkipBlanks(line, 0) == digits && SkipDigits(line, digits) == dot
  {
    AllInAt(Blank, line, 0, digits);
    AllInAt(IsDigit, line, digits, dot);
    SkipBlanksTo(line, 0, digits);
    SkipDigitsTo(line, digits, dot);
  }

  lemma TicksOfTail(line: string, from: nat, k: nat)
    requires from + k < |line| && line[from + k] == '`' && '`' !in line[from..from + k]
    ensures NextTick(line, from) == from + k
  {
    forall i | from <= i < from + k ensures line[i] != '`' {
      SliceAt(line, from, from + k, i);
    }
    NextTickAt(line, from, from + k);
  }

  lemma SliceOfTail(line: string, from: nat, k: nat)
    requires from + k < |line|
    ensures line[from..][..k] == line[from..from + k] && line[from..][k] == line[from + k]
    ensures line[from..][k + 1..] == line[from + k + 1..]
  {
  }

  lemma MarksAt(line: string, digits: nat, dot: nat, end: nat)
    requires digits < dot && dot + 3 < end < |line|
    requires AllIn(Blank, line[0..digits]) && AllIn(IsDigit, line[digits..dot])
    requires line[dot] == '.' && line[dot + 1] == ' ' && line[dot + 2] == '`'
    requires line[end] == '`' && '`' !in line[dot + 3..end]
    ensures FindMarks(line) == Some(Marks(digits, dot, dot + 2, end))
  {
    IndentAndNumber(line, digits, dot);
    SkipBlanksTo(line, dot + 1, dot + 2);
    TicksOfTail(line, dot + 3, end - dot - 3);
  }

  lemma MarksOfItemLine(indent: string, number: string, tail: string, k: nat)
    requires AllIn(Blank, indent) && number != "" && AllIn(IsDigit, number)
    requires 0 < k < |tail| && tail[k] == '`' && '`' !in tail[..k]
    ensures var dot := |indent| + |number|;
            FindMarks(ItemLine(indent, number, tail)) == Some(Marks(|indent|, dot, dot + 2, dot + 3 + k))
  {
    var line, dot := ItemLine(indent, number, tail), |indent| + |number|;
    ItemLineAt(indent, number, tail);
    SliceOfTail(line, dot + 3, k);
    MarksAt(line, |indent|, dot, dot + 3 + k);
  }

  lemma PartsOfItem(line: string)
    requires FindMarks(line).Some?
    ensures AllIn(Blank, Indent(line)) && AllIn(IsDigit, Number(line)) && '`' !in Raw(line) && Raw(line) != ""
  {
    var m := FindMarks(line).value;
    SkipBlanksPassed(line, 0);
    SkipDigitsPassed(line, m.digits);
    NextTickPassed(line, m.tick + 1);
  }

  lemma TailAt(raw: string, rest: string)
    ensures var tail := raw + "`" + rest;
            |raw| < |tail| && tail[|raw|] == '`' && tail[..|raw|] == raw && tail[|raw| + 1..] == rest
  {
  }

  /** What is written as an item is read as its parts. */
  lemma ReadBack(indent: string, number: string, raw: string, rest: string)
    requires AllIn(Blank, indent) && number != "" && AllIn(IsDigit, number) && '`' !in raw && raw != ""
    ensures var line := ItemLine(indent, number, raw + "`" + rest);
            && FindMarks(line).Some? && Indent(line) == indent && Number(line) == number
            && Raw(line) == raw && Rest(line) == rest
  {
    var tail := raw + "`" + rest;
    TailAt(raw, rest);
    MarksOfItemLine(indent, number, tail, |raw|);
    ItemLineAt(indent, number, tail);
    SliceOfTail(ItemLine(indent, number, tail), |indent| + |number| + 3, |raw|);
  }

  // ---------------------------------------------------------------- renumbering

  lemma RenumberedParts(line: string, n: nat)
    requires FindMarks(line).Some?
    ensures FindMarks(Renumbered(line, n)).Some?
    ensures Indent(Renumbered(line, n)) == Indent(line) && Number(Renumbered(line, n)) == Decimal(n)
    ensures Raw(Renumbered(line, n)) == Raw(line) && Rest(Renumbered(line, n)) == Rest(line)
  {
    PartsOfItem(line);
    DecimalDigits(n);
    ReadBack(Indent(line), Decimal(n), Raw(line), Rest(line));
  }

  lemma NewEntryParts(name: string)
    requires SafeName(name)
    ensures FindMarks(NewEntry(name)).Some?
    ensures Indent(NewEntry(name)) == "" && Number(NewEntry(name)) == "1"
    ensures Raw(NewEntry(name)) == name && Rest(NewEntry(name)) == ""
  {
    assert name + "`" + "" == name + "`";
    assert IsDigit("1"[0]);
    ReadBack("", "1", name, "");
  }

  lemma NewEntryEnds(name: string, n: nat)
    requires SafeName(name)
    ensures TrimEnd(Blank, Renumbered(NewEntry(name), n)) == Renumbered(NewEntry(name), n)
  {
    NewEntryParts(name);
    ItemLineAt("", Decimal(n), name + "`" + "");
    var line := Renumbered(NewEntry(name), n);
    assert line == ItemLine("", Decimal(n), name + "`" + "");
    assert line[|line| - 1] == (name + "`" + "")[|name|];
  }

  // ---------------------------------------------------------------- kinds of lines

  lemma {:induction false} TrimEndBlanks(s: string)
    ensures TrimEnd(Blank, s) == "" <==> AllIn(Blank, s)
  {
    if s != "" && Blank(s[|s| - 1]) {
      TrimEndBlanks(s[..|s| - 1]);
      assert s == s[..|s| - 1] + [s[|s| - 1]];
    }
  }

  /** What is left of a line that has text starts with its first character that is not blank. */
  lemma {:induction false} StripHead(line: string, i: nat)
    requires i < |line| && !Blank(line[i]) && forall k | 0 <= k < i :: Blank(line[k])
    ensures Strip(line) != "" && Strip(line)[0] == line[i]
  {
    if i == 0 {
      TrimEndSplits(Blank, line);
      TrimEndBlanks(line);
    } else {
      StripHead(line[1..], i - 1);
    }
  }

  lemma {:induction false} FirstTextOrNone(line: string) returns (i: nat)
    ensures i <= |line| && forall k | 0 <= k < i :: Blank(line[k])
    ensures i < |line| ==> !Blank(line[i])
    ensures i == |line| <==> Strip(line) == ""
  {
    i := SkipBlanks(line, 0);
    SkipBlanksPassed(line, 0);
    if i < |line| {
      StripHead(line, i);
    } else {
      StripBlank(line);
    }
  }

  lemma BlankIff(line: string)
    ensures Strip(line) == "" <==> TrimEnd(Blank, line) == ""
  {
    TrimEndBlanks(line);
    var i := FirstTextOrNone(line);
  }

  /** An item's text starts with a digit. */
  lemma ItemHead(line: string)
    requires FindMarks(line).Some?
    ensures Strip(line) != "" && IsDigit(Strip(line)[0])
    ensures line != "" && line[0] != '#'
  {
    var m := FindMarks(line).value;
    PartsOfItem(line);
    SliceAt(line, m.digits, m.dot, m.digits);
    forall k | 0 <= k < m.digits ensures Blank(line[k]) {
      SliceAt(line, 0, m.digits, k);
    }
    StripHead(line, m.digits);
  }

  lemma SectionHead(line: string)
    ensures IsSection(line) ==> line[0] == '#'
  {
    if |line| > 2 {
      assert line[0] == line[..2][0];
    }
  }

  lemma ItemReads(heading: string, line: string)
    requires IsTitle(heading) && FindMarks(line).Some?
    ensures ReadLine(heading, line) == ItemKind(Number(line), Raw(line), PathName(Raw(line)))
  {
    ItemHead(line);
    SectionHead(line);
    assert heading[0] == heading[..3][0] == '#';
  }

  lemma BlankReads(heading: string, line: string)
    requires IsTitle(heading) && Strip(line) == ""
    ensures ReadLine(heading, line) == Kind(None, false, false, false, true)
  {
    SectionHead(line);
    var i := FirstTextOrNone(line);
    assert FindMarks(line).None? by {
      if FindMarks(line).Some? {
        ItemHead(line);
      }
    }
  }

  lemma TextReads(heading: string, line: string)
    requires line != "" && !Blank(line[0]) && !IsDigit(line[0]) && !Blank(line[|line| - 1])
    ensures FindMarks(line).None? && Strip(line) == line
  {
    StripWord(line);
  }

  lemma MessageReads(heading: string, message: string)
    requires IsTitle(heading) && IsMessage(message)
    ensures ReadLine(heading, message) == Kind(None, false, false, true, false)
  {
    assert message[0] == message[..3][0] == 'N' && heading[0] == heading[..3][0] == '#';
    assert MessageMark() <= message;
    assert message[..2][0] == message[0];
    TextReads(heading, message);
  }

  lemma HeadingReads(heading: string)
    requires IsTitle(heading)
    ensures ReadLine(heading, heading) == Kind(None, true, true, false, false)
  {
    assert heading[0] == heading[..3][0] == '#' && heading[2] == heading[..3][2] == ' ';
    assert heading[..2] == heading[..3][..2] == SectionMark();
    TextReads(heading, heading);
  }

  // ---------------------------------------------------------------- trailing blanks

  lemma SkipDigitsTrimmed(line: string, t: string, i: nat)
    requires IsTrimmed(line, t) && i <= |t|
    ensures SkipDigits(line, i) == SkipDigits(t, i)
  {
    assert line[..|t|] == t == t[..|t|];
    SkipDigitsSame(line, t, i, |t|);
    if SkipDigits(t, i) == |t| {
      SkipDigitsPassed(t, i);
      TrimmedTail(line, t);
      SkipDigitsTo(line, i, |t|);
    }
  }

  lemma NumberAndRawTrimmed(line: string, t: string)
    requires IsTrimmed(line, t)
    ensures FindMarks(line).Some? <==> FindMarks(t).Some?
    ensures FindMarks(t).Some? ==> Number(line) == Number(t) && Raw(line) == Raw(t)
  {
    MarksTrimmed(line, t);
    if FindMarks(t).Some? {
      KeyTrimmed(line, t, FindMarks(t).value.digits, FindMarks(t).value.dot);
      KeyTrimmed(line, t, FindMarks(t).value.tick + 1, FindMarks(t).value.end);
    }
  }

  lemma ItemTrimmed(line: string, t: string)
    requires IsTrimmed(line, t)
    ensures ItemOf(line) == ItemOf(t)
  {
    NumberAndRawTrimmed(line, t);
  }

  lemma MarksBehindTrimmed(line: string, t: string, digits: nat, dot: nat)
    requires IsTrimmed(line, t) && digits < dot < |t|
    ensures MarksBehind(line, digits, dot) == MarksBehind(t, digits, dot)
  {
    TrimmedTail(line, t);
    SkipBlanksTrimmed(line, t, dot + 1);
    var tick := SkipBlanks(t, dot + 1);
    if tick < |t| {
      NextTickTrimmed(line, t, tick + 1);
    }
  }

  lemma MarksTrimmed(line: string, t: string)
    requires IsTrimmed(line, t)
    ensures FindMarks(line) == FindMarks(t)
  {
    TrimmedTail(line, t);
    SkipBlanksTrimmed(line, t, 0);
    var digits := SkipBlanks(t, 0);
    if digits < |t| {
      SkipDigitsTrimmed(line, t, digits);
      if digits < SkipDigits(t, digits) < |t| {
        MarksBehindTrimmed(line, t, digits, SkipDigits(t, digits));
      }
    }
  }

  lemma StripTrimmed(line: string, t: string)
    requires IsTrimmed(line, t)
    ensures Strip(line) == Strip(t)
  {
    TrimStartDrops(t, line[|t|..]);
    assert line == t + line[|t|..];
  }

  lemma TrimmedReads(heading: string, line: string, t: string)
    requires IsTrimmed(line, t)
    ensures ItemOf(t) == ItemOf(line)
    ensures ReadLine(heading, t).heading == ReadLine(heading, line).heading
    ensures IsSection(t) ==> IsSection(line)
  {
    ItemTrimmed(line, t);
    StripTrimmed(line, t);
  }

  // ---------------------------------------------------------------- the laws

  lemma ItemLaws(heading: string, message: string)
    requires IsTitle(heading)
    ensures ItemsStandAlone(SectionFormat(heading, message)) && NumberingKeeps(SectionFormat(heading, message))
  {
    var f := SectionFormat(heading, message);
    forall line | IsItem(f, line)
      ensures var item := f.read(line).item.value;
              f.read(line) == ItemKind(item.number, item.raw, item.name) {
      ItemReads(heading, line);
    }
    forall line, n: nat | IsItem(f, line)
      ensures f.read(f.renumber(line, n)) == ItemKind(Decimal(n), f.read(line).item.value.raw, f.read(line).item.value.name) {
      RenumberedParts(line, n);
      ItemReads(heading, Renumbered(line, n));
    }
  }

  lemma OverrideLaw(heading: string, message: string)
    ensures NumberingOverrides(SectionFormat(heading, message))
  {
    var f := SectionFormat(heading, message);
    forall line, m: nat, n: nat | IsItem(f, line) ensures f.renumber(f.renumber(line, m), n) == f.renumber(line, n) {
      RenumberedParts(line, m);
    }
  }

  lemma BlankLaws(heading: string, message: string)
    requires IsTitle(heading)
    ensures BlanksStandAlone(SectionFormat(heading, message))
  {
    var f := SectionFormat(heading, message);
    forall line
      ensures f.read(line).blank ==> f.read(line) == Kind(None, false, false, false, true)
      ensures f.read(line).blank <==> TrimEnd(Blank, line) == "" {
      BlankIff(line);
      if f.read(line).blank {
        BlankReads(heading, line);
      }
    }
  }

  lemma TrimLaw(heading: string, message: string)
    ensures TrimmingKeeps(SectionFormat(heading, message))
  {
    forall line, t | IsTrimmed(line, t)
      ensures ItemOf(t) == ItemOf(line)
      ensures ReadLine(heading, t).heading == ReadLine(heading, line).heading
      ensures IsSection(t) ==> IsSection(line) {
      TrimmedReads(heading, line, t);
    }
  }

  /** Every format of the tool reads its lines consistently: numbering an item keeps what it names,
      items, blank lines, headings and messages are told apart, and trailing blanks do not matter. */
  lemma SectionFormatLawful(heading: string, message: string)
    requires IsTitle(heading) && IsMessage(message)
    ensures Lawful(SectionFormat(heading, message))
  {
    ItemLaws(heading, message);
    OverrideLaw(heading, message);
    BlankLaws(heading, message);
    TrimLaw(heading, message);
    MessageReads(heading, message);
    HeadingReads(heading);
  }

  /** A safe name is read back from the line that lists it. */
  lemma SafeNameIsName(heading: string, message: string, name: string)
    requires IsTitle(heading) && SafeName(name)
    ensures IsName(SectionFormat(heading, message), name)
  {
    NewEntryParts(name);
    SafeNameIsItsPath(name);
    ItemReads(heading, NewEntry(name));
    forall n: nat ensures TrimEnd(Blank, Renumbered(NewEntry(name), n)) == Renumbered(NewEntry(name), n) {
      NewEntryEnds(name, n);
    }
  }
}
