/** The queue that `flywheel_state.py` keeps in a lane's README: a section of numbered items among
    other lines, held as a list of lines that is edited in place.

    How a line reads is the business of a `Format`; `QueueFormat` gives the real one. */
module LaneQueue {
  import opened Options
  import opened Strings
  import opened ItemText

  // ---------------------------------------------------------------- lines

  /** A queue item: its number, the text between its backticks, and the file name that text ends in. */
  datatype Item = Item(number: string, raw: string, name: string)

  datatype Kind = Kind(item: Option<Item>, heading: bool, section: bool, message: bool, blank: bool)

  /** How the lines of one lane's README read: `heading` and `section` are the two tests that
      `find_section` makes, `message` and `blank` those of the other functions. */
  datatype Format = Format(
    read: string -> Kind, renumber: (string, nat) -> string, entry: string -> string, heading: string, message: string)

  function ItemKind(number: string, raw: string, name: string): Kind {
    Kind(Some(Item(number, raw, name)), false, false, false, false)
  }

  predicate IsItem(f: Format, line: string) {
    f.read(line).item.Some?
  }

  predicate IsNamed(f: Format, line: string, name: string) {
    IsItem(f, line) && f.read(line).item.value.name == name
  }

  /** A line with an item is nothing else. */
  ghost predicate ItemsStandAlone(f: Format) {
    forall line :: IsItem(f, line) ==>
      var item := f.read(line).item.value;
      f.read(line) == ItemKind(item.number, item.raw, item.name)
  }

  /** Numbering an item changes its number only. */
  ghost predicate NumberingKeeps(f: Format) {
    forall line, n: nat :: IsItem(f, line) ==>
      f.read(f.renumber(line, n)) == ItemKind(Decimal(n), f.read(line).item.value.raw, f.read(line).item.value.name)
  }

  ghost predicate NumberingOverrides(f: Format) {
    forall line, m: nat, n: nat :: IsItem(f, line) ==> f.renumber(f.renumber(line, m), n) == f.renumber(line, n)
  }

  ghost predicate BlanksStandAlone(f: Format) {
    forall line ::
      && (f.read(line).blank ==> f.read(line) == Kind(None, false, false, false, true))
      && (f.read(line).blank <==> TrimEnd(Blank, line) == "")
  }

  /** Stripping trailing blanks can only take a section's mark away. */
  ghost predicate TrimmingKeeps(f: Format) {
    forall line, t :: IsTrimmed(line, t) ==>
      && f.read(t).item == f.read(line).item
      && f.read(t).heading == f.read(line).heading
      && (f.read(t).section ==> f.read(line).section)
  }

  /** What the proofs below use of a format. */
  ghost predicate Lawful(f: Format) {
    && ItemsStandAlone(f) && NumberingKeeps(f) && NumberingOverrides(f) && BlanksStandAlone(f) && TrimmingKeeps(f)
    && f.read(f.message) == Kind(None, false, false, true, false)
    && f.read(f.heading) == Kind(None, true, true, false, false)
  }

  /** A name that is read back from the line that puts it on the list. */
  ghost predicate IsName(f: Format, name: string) {
    && f.read(f.entry(name)) == ItemKind("1", name, name)
    && forall n: nat :: TrimEnd(Blank, f.renumber(f.entry(name), n)) == f.renumber(f.entry(name), n)
  }

  /** The items of `lines`, in order. */
  function Queue(f: Format, lines: Text): seq<Item> {
    if lines == [] then []
    else (if IsItem(f, lines[0]) then [f.read(lines[0]).item.value] else []) + Queue(f, lines[1..])
  }

  // ---------------------------------------------------------------- sections

  datatype Section = Section(start: nat, end: nat)

  function HeadingFrom(f: Format, lines: Text, i: nat): (found: Option<nat>)
    requires i <= |lines|
    ensures found.Some? ==> i <= found.value < |lines|
    decreases |lines| - i
  {
    if i == |lines| then None
    else if f.read(lines[i]).heading then Some(i)
    else HeadingFrom(f, lines, i + 1)
  }

  function SectionEnd(f: Format, lines: Text, i: nat): (end: nat)
    requires i <= |lines|
    ensures i <= end <= |lines|
    decreases |lines| - i
  {
    if i == |lines| || f.read(lines[i]).section then i else SectionEnd(f, lines, i + 1)
  }

  function FindSection(f: Format, lines: Text): (found: Option<Section>)
    ensures found.Some? ==> found.value.start < found.value.end <= |lines|
  {
    var start := HeadingFrom(f, lines, 0);
    if start.None? then None else Some(Section(start.value, SectionEnd(f, lines, start.value + 1)))
  }

  // ---------------------------------------------------------------- edits, as functions

  /** `del lines[i]` */
  function Deleted(lines: Text, i: nat): Text
    requires i < |lines|
  {
    lines[..i] + lines[i + 1..]
  }

  /** `lines.insert(i, line)` */
  function Inserted(lines: Text, i: nat, line: string): Text
    requires i <= |lines|
  {
    lines[..i] + [line] + lines[i..]
  }

  function Renumber(f: Format, body: Text, n: nat): Text {
    if body == [] then []
    else if IsItem(f, body[0]) then [f.renumber(body[0], n)] + Renumber(f, body[1..], n + 1)
    else [body[0]] + Renumber(f, body[1..], n)
  }

  function WithoutMessages(f: Format, body: Text): Text {
    if body == [] then []
    else (if f.read(body[0]).message then [] else [body[0]]) + WithoutMessages(f, body[1..])
  }

  /** Items numbered from 1 and no message, or just the message. */
  function NormalBody(f: Format, body: Text): Text {
    if Queue(f, body) != [] then WithoutMessages(f, Renumber(f, body, 1)) else ["", f.message, ""]
  }

  function Normalized(f: Format, lines: Text, section: Section): Text
    requires section.start < section.end <= |lines|
  {
    lines[..section.start + 1] + NormalBody(f, lines[section.start + 1..section.end]) + lines[section.end..]
  }

  function WithoutItem(f: Format, lines: Text, name: string): Text {
    if lines == [] then []
    else (if IsNamed(f, lines[0], name) then [] else [lines[0]]) + WithoutItem(f, lines[1..], name)
  }

  /** One of the lines from `first` up to `end` names the item. */
  predicate Holds(f: Format, lines: Text, first: nat, end: nat, name: string)
    requires first <= end <= |lines|
  {
    exists i | first <= i < end :: IsNamed(f, lines[i], name)
  }

  /** In front of the blank lines that stand before `end`. */
  function InsertAt(f: Format, lines: Text, first: nat, end: nat): (at: nat)
    requires first <= end <= |lines|
    ensures first <= at <= end
  {
    if end > first && f.read(lines[end - 1]).blank then InsertAt(f, lines, first, end - 1) else end
  }

  function Added(f: Format, lines: Text, section: Section, name: string): Text
    requires section.start < section.end <= |lines|
  {
    if Holds(f, lines, section.start + 1, section.end, name) then lines
    else Inserted(lines, InsertAt(f, lines, section.start + 1, section.end), f.entry(name))
  }

  /** The lines with a section of their own, which is appended if there is none. */
  function WithSection(f: Format, lines: Text): Text {
    if FindSection(f, lines).Some? then lines
    else lines + (if lines != [] && !f.read(lines[|lines| - 1]).blank then [""] else []) + [f.heading, ""]
  }

  /** What taking an item off the list leaves of the file. */
  function AfterRemove(f: Format, lines: Text, name: string): Text {
    var rest := WithoutItem(f, lines, name);
    var section := FindSection(f, rest);
    RStrip(if section.Some? && Holds(f, lines, 0, |lines|, name) then Normalized(f, rest, section.value) else rest)
  }

  /** What putting an item on the list makes of the file. */
  function AfterAdd(f: Format, lines: Text, name: string): Text {
    var whole := WithSection(f, lines);
    if FindSection(f, whole).None? then RStrip(whole)
    else
      var added := Added(f, whole, FindSection(f, whole).value, name);
      RStrip(if FindSection(f, added).None? then added else Normalized(f, added, FindSection(f, added).value))
  }

  // ---------------------------------------------------------------- edits, in place

  lemma {:induction false} RenumberConcat(f: Format, a: Text, b: Text, n: nat)
    ensures Renumber(f, a + b, n) == Renumber(f, a, n) + Renumber(f, b, n + |Queue(f, a)|)
  {
    if a == [] {
      assert a + b == b;
    } else {
      assert (a + b)[1..] == a[1..] + b;
      RenumberConcat(f, a[1..], b, if IsItem(f, a[0]) then n + 1 else n);
    }
  }

  lemma {:induction false} QueueConcat(f: Format, a: Text, b: Text)
    ensures Queue(f, a + b) == Queue(f, a) + Queue(f, b)
  {
    if a == [] {
      assert a + b == b;
    } else {
      assert (a + b)[1..] == a[1..] + b;
      QueueConcat(f, a[1..], b);
    }
  }

  lemma {:induction false} WithoutMessagesConcat(f: Format, a: Text, b: Text)
    ensures WithoutMessages(f, a + b) == WithoutMessages(f, a) + WithoutMessages(f, b)
  {
    if a == [] {
      assert a + b == b;
    } else {
      assert (a + b)[1..] == a[1..] + b;
      WithoutMessagesConcat(f, a[1..], b);
    }
  }

  lemma {:induction false} WithoutItemConcat(f: Format, a: Text, b: Text, name: string)
    ensures WithoutItem(f, a + b, name) == WithoutItem(f, a, name) + WithoutItem(f, b, name)
  {
    if a == [] {
      assert a + b == b;
    } else {
      assert (a + b)[1..] == a[1..] + b;
      WithoutItemConcat(f, a[1..], b, name);
    }
  }

  lemma QueueOne(f: Format, line: string)
    ensures Queue(f, [line]) == if IsItem(f, line) then [f.read(line).item.value] else []
    ensures forall n: nat :: Renumber(f, [line], n) == if IsItem(f, line) then [f.renumber(line, n)] else [line]
    ensures WithoutMessages(f, [line]) == if f.read(line).message then [] else [line]
    ensures forall name :: WithoutItem(f, [line], name) == if IsNamed(f, line, name) then [] else [line]
  {
    assert [line][1..] == [];
  }

  lemma {:induction false} RenumberLength(f: Format, body: Text, n: nat)
    ensures |Renumber(f, body, n)| == |body|
  {
    if body != [] {
      RenumberLength(f, body[1..], if IsItem(f, body[0]) then n + 1 else n);
    }
  }

  /** One more line behind those that are renumbered. */
  lemma RenumberNext(f: Format, body: Text, k: nat)
    requires k < |body|
    ensures Renumber(f, body[..k + 1], 1) ==
            Renumber(f, body[..k], 1)
            + [if IsItem(f, body[k]) then f.renumber(body[k], 1 + |Queue(f, body[..k])|) else body[k]]
    ensures |Queue(f, body[..k + 1])| == |Queue(f, body[..k])| + if IsItem(f, body[k]) then 1 else 0
  {
    assert body[..k + 1] == body[..k] + [body[k]];
    RenumberConcat(f, body[..k], [body[k]], 1);
    QueueConcat(f, body[..k], [body[k]]);
    QueueOne(f, body[k]);
  }

  lemma WithoutMessagesNext(f: Format, body: Text, k: nat)
    requires k < |body|
    ensures WithoutMessages(f, body[k..]) == (if f.read(body[k]).message then [] else [body[k]]) + WithoutMessages(f, body[k + 1..])
  {
    assert body[k..] == [body[k]] + body[k + 1..];
    assert body[k..][1..] == body[k + 1..];
  }

  lemma WithoutItemNext(f: Format, lines: Text, k: nat, name: string)
    requires k < |lines|
    ensures WithoutItem(f, lines[k..], name) ==
            (if IsNamed(f, lines[k], name) then [] else [lines[k]]) + WithoutItem(f, lines[k + 1..], name)
  {
    assert lines[k..][1..] == lines[k + 1..];
  }

  /** One line replaced, or taken out, at the seam of two parts. */
  lemma Seam(a: Text, line: string, b: Text, lines: Text, next: string)
    requires lines == a + [line] + b
    ensures lines[|a|] == line
    ensures lines[|a| := next] == a + [next] + b
    ensures Deleted(lines, |a|) == a + b
  {
  }

  /** The lines while the first `k` of `body` are renumbered. */
  ghost function RenumberedTo(f: Format, pre: Text, body: Text, post: Text, k: nat): Text
    requires k <= |body|
  {
    pre + Renumber(f, body[..k], 1) + (body[k..] + post)
  }

  lemma RenumberedEnds(f: Format, pre: Text, body: Text, post: Text)
    ensures RenumberedTo(f, pre, body, post, 0) == pre + body + post
    ensures RenumberedTo(f, pre, body, post, |body|) == pre + Renumber(f, body, 1) + post
    ensures Queue(f, body[..0]) == [] && body[..|body|] == body
  {
    assert body[..0] == [] && body[0..] == body && body[..|body|] == body && body[|body|..] == [];
    assert Renumber(f, [], 1) == [];
    assert pre + [] == pre && [] + post == post;
    ConcatAssociative(pre, body, post);
  }

  lemma RenumberStep(f: Format, pre: Text, body: Text, post: Text, k: nat, lines: Text)
    requires k < |body| && lines == RenumberedTo(f, pre, body, post, k)
    ensures |pre| + k < |lines| && lines[|pre| + k] == body[k]
    ensures |Queue(f, body[..k + 1])| == |Queue(f, body[..k])| + if IsItem(f, body[k]) then 1 else 0
    ensures RenumberedTo(f, pre, body, post, k + 1) ==
            lines[|pre| + k := if IsItem(f, body[k]) then f.renumber(body[k], 1 + |Queue(f, body[..k])|) else body[k]]
  {
    RenumberNext(f, body, k);
    RenumberLength(f, body[..k], 1);
    var next := if IsItem(f, body[k]) then f.renumber(body[k], 1 + |Queue(f, body[..k])|) else body[k];
    var front, rest := Renumber(f, body[..k], 1), body[k + 1..] + post;
    assert body[k..] == [body[k]] + body[k + 1..];
    ConcatAssociative([body[k]], body[k + 1..], post);
    ConcatAssociative(pre + front, [body[k]], rest);
    Seam(pre + front, body[k], rest, lines, next);
    ConcatAssociative(pre, front, [next]);
  }

  /** The lines while the messages from `index` on are gone. */
  ghost function DroppedFrom(f: Format, lines: Text, first: nat, end: nat, index: nat): Text
    requires first <= index <= end <= |lines|
  {
    lines[..index] + (WithoutMessages(f, lines[index..end]) + lines[end..])
  }

  function WithoutMessagesIn(f: Format, lines: Text, first: nat, end: nat): Text
    requires first <= end <= |lines|
  {
    lines[..first] + (WithoutMessages(f, lines[first..end]) + lines[end..])
  }

  lemma DroppedAll(f: Format, lines: Text, first: nat, end: nat)
    requires first <= end <= |lines|
    ensures DroppedFrom(f, lines, first, end, end) == lines
  {
    assert lines[end..end] == [];
    assert [] + lines[end..] == lines[end..];
  }

  lemma DropStep(f: Format, before: Text, first: nat, end: nat, index: nat, lines: Text)
    requires first <= index < end <= |before| && lines == DroppedFrom(f, before, first, end, index + 1)
    ensures index < |lines| && lines[index] == before[index]
    ensures DroppedFrom(f, before, first, end, index) ==
            if f.read(before[index]).message then Deleted(lines, index) else lines
  {
    WithoutMessagesNext(f, before[..end], index);
    assert before[..end][index..] == before[index..end] && before[..end][index + 1..] == before[index + 1..end];
    var front, kept := before[..index], WithoutMessages(f, before[index + 1..end]);
    assert before[..index + 1] == front + [before[index]];
    Seam(front, before[index], kept + before[end..], lines, "");
    ConcatAssociative([before[index]], kept, before[end..]);
    ConcatAssociative(front, [before[index]], kept + before[end..]);
    assert [] + kept == kept;
  }

  lemma InParts(lines: Text, first: nat, end: nat)
    requires first <= end <= |lines|
    ensures lines == lines[..first] + lines[first..end] + lines[end..]
  {
  }

  /** What is left to do once the section is renumbered. */
  lemma NormalizedEither(f: Format, before: Text, section: Section, lines: Text)
    requires section.start < section.end <= |before|
    requires var first := section.start + 1;
             lines == before[..first] + Renumber(f, before[first..section.end], 1) + before[section.end..]
    ensures |lines| == |before|
    ensures Normalized(f, before, section) ==
            if Queue(f, before[section.start + 1..section.end]) != [] then
              WithoutMessagesIn(f, lines, section.start + 1, section.end)
            else
              lines[..section.start + 1] + ["", f.message, ""] + lines[section.end..]
  {
    var first := section.start + 1;
    var body := Renumber(f, before[first..section.end], 1);
    RenumberLength(f, before[first..section.end], 1);
    assert lines[..first] == before[..first] && lines[first..section.end] == body && lines[section.end..] == before[section.end..];
    ConcatAssociative(before[..first], WithoutMessages(f, body), before[section.end..]);
  }

  lemma AddStep(lines: Text, first: nat, end: nat, at: nat, entry: string)
    requires first <= at <= end <= |lines|
    ensures Inserted(lines, at, entry) == lines[..first] + Inserted(lines[first..end], at - first, entry) + lines[end..]
  {
    var body := lines[first..end];
    assert lines[..at] == lines[..first] + body[..at - first];
    assert lines[at..] == body[at - first..] + lines[end..];
    ConcatAssociative(lines[..first], body[..at - first], [entry]);
    ConcatAssociative(lines[..first] + (body[..at - first] + [entry]), body[at - first..], lines[end..]);
    ConcatAssociative(lines[..first], body[..at - first] + [entry], body[at - first..]);
  }

  /** The lines while the item is taken off those from `index` on. */
  ghost function RemovedFrom(f: Format, lines: Text, index: nat, name: string): Text
    requires index <= |lines|
  {
    lines[..index] + WithoutItem(f, lines[index..], name)
  }

  lemma RemovedEnds(f: Format, lines: Text, name: string)
    ensures RemovedFrom(f, lines, |lines|, name) == lines
    ensures RemovedFrom(f, lines, 0, name) == WithoutItem(f, lines, name)
  {
    assert lines[0..] == lines && lines[..|lines|] == lines && lines[|lines|..] == [];
  }

  lemma RemoveStep(f: Format, before: Text, index: nat, name: string, lines: Text)
    requires index < |before| && lines == RemovedFrom(f, before, index + 1, name)
    ensures index < |lines| && lines[index] == before[index]
    ensures RemovedFrom(f, before, index, name) == if IsNamed(f, before[index], name) then Deleted(lines, index) else lines
  {
    WithoutItemNext(f, before, index, name);
    var front, rest := before[..index], WithoutItem(f, before[index + 1..], name);
    assert before[..index + 1] == front + [before[index]];
    Seam(front, before[index], rest, lines, "");
    ConcatAssociative(front, [before[index]], rest);
    assert [] + rest == rest;
  }

  /** A README as the tool holds it while it edits it. */
  class LaneReadme {
    const format: Format
    var lines: Text

    constructor (format: Format, lines: Text)
      ensures this.format == format && this.lines == lines
    {
      this.format := format;
      this.lines := lines;
    }

    /** The first loop of the normalisation. */
    method RenumberSection(section: Section) returns (hasItems: bool)
      requires section.start < section.end <= |lines|
      modifies this
      ensures lines == old(lines)[..section.start + 1]
                       + Renumber(format, old(lines)[section.start + 1..section.end], 1) + old(lines)[section.end..]
      ensures hasItems <==> Queue(format, old(lines)[section.start + 1..section.end]) != []
    {
      var first := section.start + 1;
      ghost var pre, body, post := lines[..first], lines[first..section.end], lines[section.end..];
      var itemNumber := 1;
      hasItems := false;
      RenumberedEnds(format, pre, body, post);
      InParts(lines, first, section.end);
      for k := 0 to section.end - first
        invariant lines == RenumberedTo(format, pre, body, post, k)
        invariant itemNumber == 1 + |Queue(format, body[..k])|
        invariant hasItems <==> Queue(format, body[..k]) != []
      {
        RenumberStep(format, pre, body, post, k, lines);
        if IsItem(format, lines[first + k]) {
          lines := lines[first + k := format.renumber(lines[first + k], itemNumber)];
          itemNumber := itemNumber + 1;
          hasItems := true;
        }
      }
    }

    /** The deletion of the message lines, from the last one up. */
    method DropMessages(section: Section)
      requires section.start < section.end <= |lines|
      modifies this
      ensures lines == WithoutMessagesIn(format, old(lines), section.start + 1, section.end)
    {
      var index := section.end;
      DroppedAll(format, lines, section.start + 1, section.end);
      while index > section.start + 1
        invariant section.start + 1 <= index <= section.end
        invariant lines == DroppedFrom(format, old(lines), section.start + 1, section.end, index)
      {
        index := index - 1;
        DropStep(format, old(lines), section.start + 1, section.end, index, lines);
        if format.read(lines[index]).message {
          lines := Deleted(lines, index);
        }
      }
    }

    method NormalizeQueueSection(section: Section)
      requires section.start < section.end <= |lines|
      modifies this
      ensures lines == Normalized(format, old(lines), section)
    {
      ghost var before := lines;
      var hasItems := RenumberSection(section);
      NormalizedEither(format, before, section, lines);
      if hasItems {
        DropMessages(section);
        return;
      }
      lines := lines[..section.start + 1] + ["", format.message, ""] + lines[section.end..];
    }

    method RemoveQueueItem(name: string) returns (removed: bool)
      modifies this
      ensures lines == WithoutItem(format, old(lines), name)
      ensures removed <==> Holds(format, old(lines), 0, |old(lines)|, name)
    {
      removed := false;
      var index := |lines|;
      RemovedEnds(format, lines, name);
      while index > 0
        invariant 0 <= index <= |old(lines)|
        invariant lines == RemovedFrom(format, old(lines), index, name)
        invariant removed <==> Holds(format, old(lines), index, |old(lines)|, name)
      {
        index := index - 1;
        RemoveStep(format, old(lines), index, name, lines);
        if IsNamed(format, lines[index], name) {
          lines := Deleted(lines, index);
          removed := true;
        }
      }
    }

    method AddQueueItem(section: Section, name: string)
      requires section.start < section.end <= |lines|
      modifies this
      ensures lines == Added(format, old(lines), section, name)
    {
      var first := section.start + 1;
      for index := first to section.end
        invariant lines == old(lines)
        invariant !Holds(format, lines, first, index, name)
      {
        if IsNamed(format, lines[index], name) {
          return;
        }
      }
      var insertAt := section.end;
      while insertAt > first && format.read(lines[insertAt - 1]).blank
        invariant first <= insertAt <= section.end
        invariant lines == old(lines)
        invariant InsertAt(format, lines, first, section.end) == InsertAt(format, lines, first, insertAt)
      {
        insertAt := insertAt - 1;
      }
      lines := Inserted(lines, insertAt, format.entry(name));
    }

    method EnsureQueueSection()
      modifies this
      ensures lines == WithSection(format, old(lines))
    {
      if FindSection(format, lines).Some? {
        return;
      }
      if lines != [] && !format.read(lines[|lines| - 1]).blank {
        lines := lines + [""];
      }
      lines := lines + [format.heading, ""];
    }

    /** The edit of one README, as `update_lane_readme` makes it; the file keeps no trailing blank lines. */
    method Update(name: string, add: bool)
      modifies this
      ensures lines == if add then AfterAdd(format, old(lines), name) else AfterRemove(format, old(lines), name)
    {
      if add {
        EnsureQueueSection();
        var section := FindSection(format, lines);
        if section.Some? {
          AddQueueItem(section.value, name);
          var again := FindSection(format, lines);
          if again.Some? {
            NormalizeQueueSection(again.value);
          }
        }
      } else {
        var removed := RemoveQueueItem(name);
        var section := FindSection(format, lines);
        if section.Some? && removed {
          NormalizeQueueSection(section.value);
        }
      }
      lines := RStrip(lines);
    }
  }
}
