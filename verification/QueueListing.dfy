/** The edits as moves on a list of names: taking a name off, putting one on at the end, and putting one
    on to take it off again. */
module QueueListing {
  import opened Options
  import opened Strings
  import opened ItemText
  import opened LaneQueue
  import opened QueueLaws

  /** All items stand in the lane's own section. */
  ghost predicate Inside(f: Format, lines: Text) {
    var section := FindSection(f, lines);
    forall i | 0 <= i < |lines| && IsItem(f, lines[i]) :: section.Some? && section.value.start < i < section.value.end
  }

  /** The file lists exactly `names`, in this order, numbered from 1 and in the lane's own section. */
  ghost predicate Listed(f: Format, lines: Text, names: seq<string>) {
    Queue(f, lines) == Numbered(names, 1) && Inside(f, lines)
  }

  // ---------------------------------------------------------------- parts

  lemma LineOf(pre: Text, body: Text, post: Text, i: nat)
    requires i < |pre + body + post|
    ensures (pre + body + post)[i] ==
            if i < |pre| then pre[i] else if i < |pre| + |body| then body[i - |pre|] else post[i - |pre| - |body|]
  {
  }

  lemma InsideParts(f: Format, lines: Text, pre: Text, body: Text, post: Text)
    requires IsParts(f, lines, pre, body, post) && !IsItem(f, pre[|pre| - 1])
    ensures Inside(f, lines) <==> NoItem(f, pre) && NoItem(f, post)
  {
    PartsFound(f, lines, pre, body, post);
    if Inside(f, lines) {
      forall i | 0 <= i < |pre| ensures !IsItem(f, pre[i]) {
        assert pre[i] == lines[i];
      }
      forall i | 0 <= i < |post| ensures !IsItem(f, post[i]) {
        assert post[i] == lines[|pre| + |body| + i];
      }
    }
    if NoItem(f, pre) && NoItem(f, post) {
      forall i | 0 <= i < |lines| && IsItem(f, lines[i]) ensures |pre| - 1 < i < |pre| + |body| {
        LineOf(pre, body, post, i);
      }
    }
  }

  lemma HeadingIsNoItem(f: Format, line: string)
    requires Lawful(f) && f.read(line).heading
    ensures !IsItem(f, line)
  {
  }

  /** Without items outside of it, the section's body holds the whole queue. */
  lemma QueueOfParts(f: Format, pre: Text, body: Text, post: Text)
    requires NoItem(f, pre) && NoItem(f, post)
    ensures Queue(f, pre + body + post) == Queue(f, body)
  {
    QueueEmptyIff(f, pre);
    QueueEmptyIff(f, post);
    QueueConcat(f, pre + body, post);
    QueueConcat(f, pre, body);
  }

  /** The same file with another body in its section. */
  lemma ListedParts(f: Format, lines: Text, pre: Text, body: Text, post: Text, next: Text)
    requires Lawful(f) && IsParts(f, lines, pre, body, post) && Inside(f, lines) && NoSection(f, next)
    ensures IsParts(f, pre + next + post, pre, next, post) && Inside(f, pre + next + post)
    ensures Queue(f, lines) == Queue(f, body) && Queue(f, pre + next + post) == Queue(f, next)
  {
    HeadingIsNoItem(f, pre[|pre| - 1]);
    InsideParts(f, lines, pre, body, post);
    InsideParts(f, pre + next + post, pre, next, post);
    QueueOfParts(f, pre, body, post);
    QueueOfParts(f, pre, next, post);
  }

  // ---------------------------------------------------------------- stripping the end of the file

  lemma TrimmedReadsSame(f: Format, line: string)
    requires Lawful(f)
    ensures f.read(TrimEnd(Blank, line)).item == f.read(line).item
  {
    TrimmedLine(line);
  }

  lemma QueueOfLast(f: Format, front: Text, line: string, t: string)
    requires f.read(t).item == f.read(line).item
    ensures Queue(f, front + [t]) == Queue(f, front + [line])
    ensures f.read(line).item.None? ==> Queue(f, front + [line]) == Queue(f, front)
  {
    QueueConcat(f, front, [line]);
    QueueConcat(f, front, [t]);
    QueueOne(f, line);
    QueueOne(f, t);
  }

  lemma {:induction false} QueueRStrip(f: Format, lines: Text)
    requires Lawful(f)
    ensures Queue(f, RStrip(lines)) == Queue(f, lines)
  {
    EmptyIsNoItem(f);
    if lines == [] {
      QueueOne(f, "");
    } else {
      var front, line := lines[..|lines| - 1], lines[|lines| - 1];
      TrimmedReadsSame(f, line);
      assert lines == front + [line];
      QueueOfLast(f, front, line, TrimEnd(Blank, line));
      QueueRStrip(f, front);
    }
  }

  lemma EmptyIsNoItem(f: Format)
    requires Lawful(f)
    ensures f.read("") == Kind(None, false, false, false, true)
  {
    assert TrimEnd(Blank, "") == "";
  }

  /** The lines that are left read as before, but that a section line may lose its last blank. */
  lemma LinesRStrip(f: Format, lines: Text, i: nat)
    requires Lawful(f) && lines != [] && i < |RStrip(lines)|
    ensures |RStrip(lines)| <= |lines|
    ensures IsItem(f, RStrip(lines)[i]) <==> IsItem(f, lines[i])
    ensures f.read(RStrip(lines)[i]).heading <==> f.read(lines[i]).heading
    ensures f.read(RStrip(lines)[i]).section ==> f.read(lines[i]).section
  {
    RStripRows(lines);
    assert IsTrimmed(lines[i], RStrip(lines)[i]);
  }

  /** The section stays where it is, if its heading is not stripped off, and it does not shrink. */
  lemma SectionRStrip(f: Format, lines: Text)
    requires Lawful(f) && lines != [] && FindSection(f, lines).Some?
    requires FindSection(f, lines).value.start < |RStrip(lines)|
    ensures var section := FindSection(f, lines).value;
            var kept := FindSection(f, RStrip(lines));
            && kept.Some? && kept.value.start == section.start
            && (kept.value.end < |RStrip(lines)| ==> section.end <= kept.value.end)
  {
    var Section(start, end) := FindSection(f, lines).value;
    var kept := RStrip(lines);
    RStripRows(lines);
    HeadingFound(f, lines, 0);
    forall i | 0 <= i <= start ensures f.read(kept[i]).heading <==> f.read(lines[i]).heading {
      LinesRStrip(f, lines, i);
    }
    HeadingIs(f, kept, 0, start);
    EndFound(f, lines, start + 1);
    EndFound(f, kept, start + 1);
    var last := SectionEnd(f, kept, start + 1);
    if last < |kept| {
      LinesRStrip(f, lines, last);
    }
  }

  lemma InsideRStrip(f: Format, lines: Text)
    requires Lawful(f) && lines != [] && Inside(f, lines)
    ensures Inside(f, RStrip(lines))
  {
    var kept := RStrip(lines);
    RStripRows(lines);
    forall i | 0 <= i < |kept| && IsItem(f, kept[i])
      ensures FindSection(f, kept).Some? && FindSection(f, kept).value.start < i < FindSection(f, kept).value.end {
      LinesRStrip(f, lines, i);
      SectionRStrip(f, lines);
      EndFound(f, kept, FindSection(f, lines).value.start + 1);
    }
  }

  /** What is written is read back as the same list. */
  lemma ListedRStrip(f: Format, lines: Text, names: seq<string>)
    requires Lawful(f) && Listed(f, lines, names)
    ensures Listed(f, RStrip(lines), names)
  {
    QueueRStrip(f, lines);
    if lines == [] {
      EmptyIsNoItem(f);
    } else {
      InsideRStrip(f, lines);
    }
  }

  // ---------------------------------------------------------------- names on the list

  lemma {:induction false} NamedIsListed(f: Format, lines: Text, name: string)
    ensures Holds(f, lines, 0, |lines|, name) <==> name in Names(Queue(f, lines))
  {
    if lines != [] {
      var line, rest := lines[0], lines[1..];
      HeadTail(lines);
      NamedIsListed(f, rest, name);
      QueueFront(f, line, rest);
      if IsItem(f, line) {
        NamesFront(f.read(line).item.value, Queue(f, rest));
      }
      if Holds(f, lines, 0, |lines|, name) && !IsNamed(f, line, name) {
        var i :| 0 <= i < |lines| && IsNamed(f, lines[i], name);
        assert rest[i - 1] == lines[i];
      }
      if Holds(f, rest, 0, |rest|, name) {
        var i :| 0 <= i < |rest| && IsNamed(f, rest[i], name);
        assert lines[i + 1] == rest[i];
      }
    }
  }

  lemma ListedNames(f: Format, lines: Text, names: seq<string>)
    requires Listed(f, lines, names)
    ensures Names(Queue(f, lines)) == names && Plain(Queue(f, lines))
  {
    NamesOfNumbered(names, 1);
  }

  // ---------------------------------------------------------------- taking a name off

  lemma {:induction false} WithoutItemMembers(f: Format, lines: Text, name: string)
    ensures forall i | 0 <= i < |WithoutItem(f, lines, name)| :: WithoutItem(f, lines, name)[i] in lines
  {
    if lines != [] {
      HeadTail(lines);
      WithoutItemFront(f, lines[0], lines[1..], name);
      WithoutItemMembers(f, lines[1..], name);
    }
  }

  lemma WithoutItemNoHeading(f: Format, front: Text, name: string)
    requires forall i | 0 <= i < |front| :: !f.read(front[i]).heading
    ensures forall i | 0 <= i < |WithoutItem(f, front, name)| :: !f.read(WithoutItem(f, front, name)[i]).heading
  {
    WithoutItemMembers(f, front, name);
  }

  /** The heading stays the first one, and the last line in front of the section's body. */
  lemma WithoutItemPre(f: Format, pre: Text, name: string)
    requires Lawful(f) && pre != [] && f.read(pre[|pre| - 1]).heading
    requires forall i | 0 <= i < |pre| - 1 :: !f.read(pre[i]).heading
    ensures var next := WithoutItem(f, pre, name);
            && next != [] && f.read(next[|next| - 1]).heading
            && forall i | 0 <= i < |next| - 1 :: !f.read(next[i]).heading
  {
    var front, heading := pre[..|pre| - 1], pre[|pre| - 1];
    HeadingIsNoItem(f, heading);
    assert pre == front + [heading];
    WithoutItemConcat(f, front, [heading], name);
    QueueOne(f, heading);
    WithoutItemNoHeading(f, front, name);
  }

  /** The section behind stays the next one. */
  lemma WithoutItemPost(f: Format, post: Text, name: string)
    requires Lawful(f) && (post != [] ==> f.read(post[0]).section)
    ensures WithoutItem(f, post, name) != [] ==> f.read(WithoutItem(f, post, name)[0]).section
  {
    if post != [] {
      assert !IsItem(f, post[0]);
      HeadTail(post);
      WithoutItemFront(f, post[0], post[1..], name);
    }
  }

  /** The file without the item has the same parts, without it. */
  lemma WithoutItemIsParts(f: Format, lines: Text, pre: Text, body: Text, post: Text, name: string)
    requires Lawful(f) && IsParts(f, lines, pre, body, post)
    ensures IsParts(f, WithoutItem(f, lines, name), WithoutItem(f, pre, name), WithoutItem(f, body, name), WithoutItem(f, post, name))
  {
    WithoutItemConcat(f, pre + body, post, name);
    WithoutItemConcat(f, pre, body, name);
    WithoutItemPre(f, pre, name);
    WithoutItemPost(f, post, name);
    WithoutItemNoSection(f, body, name);
  }

  /** Taking an item off takes the lines away that name it, wherever they are, and normalises the section if
      there was one. */
  lemma RemoveParts(f: Format, lines: Text, pre: Text, body: Text, post: Text, name: string)
    requires Lawful(f) && IsParts(f, lines, pre, body, post)
    ensures AfterRemove(f, lines, name) ==
            if Holds(f, lines, 0, |lines|, name) then
              RStrip(WithoutItem(f, pre, name) + NormalBody(f, WithoutItem(f, body, name)) + WithoutItem(f, post, name))
            else
              RStrip(lines)
  {
    var rest := WithoutItem(f, lines, name);
    WithoutItemIsParts(f, lines, pre, body, post, name);
    PartsFound(f, rest, WithoutItem(f, pre, name), WithoutItem(f, body, name), WithoutItem(f, post, name));
    NormalizedParts(f, rest, WithoutItem(f, pre, name), WithoutItem(f, body, name), WithoutItem(f, post, name));
    if !Holds(f, lines, 0, |lines|, name) {
      WithoutItemSame(f, lines, name);
    }
  }

  /** Without a section the lines that name the item go, and nothing is normalised. */
  lemma RemoveWithoutSection(f: Format, lines: Text, name: string)
    requires Lawful(f) && forall i | 0 <= i < |lines| :: !f.read(lines[i]).heading
    ensures AfterRemove(f, lines, name) == RStrip(WithoutItem(f, lines, name))
  {
    WithoutItemNoHeading(f, lines, name);
    HeadingFound(f, WithoutItem(f, lines, name), 0);
  }

  /** If only the section names it, no line outside the section changes. */
  lemma RemoveInside(f: Format, lines: Text, pre: Text, body: Text, post: Text, name: string)
    requires Lawful(f) && IsParts(f, lines, pre, body, post)
    requires NotNamed(f, pre, name) && NotNamed(f, post, name)
    ensures AfterRemove(f, lines, name) ==
            RStrip(pre + (if Holds(f, lines, 0, |lines|, name) then NormalBody(f, WithoutItem(f, body, name)) else body) + post)
  {
    RemoveParts(f, lines, pre, body, post, name);
    WithoutItemSame(f, pre, name);
    WithoutItemSame(f, post, name);
  }

  lemma AfterRemoveListed(f: Format, lines: Text, names: seq<string>, name: string)
    requires Lawful(f) && Listed(f, lines, names)
    ensures Listed(f, AfterRemove(f, lines, name), Without(names, name))
  {
    ListedNames(f, lines, names);
    NamedIsListed(f, lines, name);
    QueueOfWithoutItem(f, lines, name);
    if FindSection(f, lines).None? {
      WithoutItemSame(f, lines, name);
      ListedRStrip(f, lines, names);
    } else {
      var Section(start, end) := FindSection(f, lines).value;
      var pre, body, post := lines[..start + 1], lines[start + 1..end], lines[end..];
      FoundParts(f, lines);
      HeadingIsNoItem(f, pre[|pre| - 1]);
      InsideParts(f, lines, pre, body, post);
      RemoveInside(f, lines, pre, body, post, name);
      if name in names {
        var rest := WithoutItem(f, body, name);
        WithoutItemNoSection(f, body, name);
        NormalBodyNoSection(f, rest);
        ListedParts(f, lines, pre, body, post, NormalBody(f, rest));
        QueueOfWithoutItem(f, body, name);
        QueueOfNormalBody(f, rest);
        ListedRStrip(f, pre + NormalBody(f, rest) + post, Without(names, name));
      } else {
        WithoutItemSame(f, lines, name);
        ListedRStrip(f, lines, names);
      }
    }
  }

  // ---------------------------------------------------------------- putting a name on

  lemma {:induction false} InsertAtBlanks(f: Format, lines: Text, first: nat, end: nat)
    requires first <= end <= |lines|
    ensures forall i | InsertAt(f, lines, first, end) <= i < end :: f.read(lines[i]).blank
    ensures InsertAt(f, lines, first, end) == first || !f.read(lines[InsertAt(f, lines, first, end) - 1]).blank
  {
    if end > first && f.read(lines[end - 1]).blank {
      InsertAtBlanks(f, lines, first, end - 1);
    }
  }

  lemma InsertedNoSection(f: Format, body: Text, at: nat, entry: string)
    requires at <= |body| && NoSection(f, body) && !f.read(entry).section
    ensures NoSection(f, Inserted(body, at, entry))
  {
  }

  lemma AddedIs(f: Format, lines: Text, section: Section, name: string)
    requires section.start < section.end <= |lines| && !Holds(f, lines, section.start + 1, section.end, name)
    ensures Added(f, lines, section, name)
            == Inserted(lines, InsertAt(f, lines, section.start + 1, section.end), f.entry(name))
  {
  }

  lemma BlanksInBody(f: Format, pre: Text, body: Text, post: Text, at: nat)
    requires at <= |body|
    requires forall i | |pre| + at <= i < |pre| + |body| :: f.read((pre + body + post)[i]).blank
    requires at == 0 || !f.read((pre + body + post)[|pre| + at - 1]).blank
    ensures forall i | at <= i < |body| :: f.read(body[i]).blank
    ensures at == 0 || !f.read(body[at - 1]).blank
  {
    if at > 0 {
      LineOf(pre, body, post, |pre| + at - 1);
    }
    forall i | at <= i < |body| ensures f.read(body[i]).blank {
      LineOf(pre, body, post, |pre| + i);
    }
  }

  lemma NotNamedBetween(f: Format, pre: Text, body: Text, post: Text, name: string)
    ensures NotNamed(f, body, name) <==> !Holds(f, pre + body + post, |pre|, |pre| + |body|, name)
  {
    var lines := pre + body + post;
    forall i | |pre| <= i < |pre| + |body| ensures lines[i] == body[i - |pre|] {
      LineOf(pre, body, post, i);
    }
    forall i | 0 <= i < |body| ensures body[i] == lines[|pre| + i] {
      LineOf(pre, body, post, |pre| + i);
    }
  }

  lemma InsertedInParts(pre: Text, body: Text, post: Text, at: nat, entry: string)
    requires at <= |body|
    ensures Inserted(pre + body + post, |pre| + at, entry) == pre + Inserted(body, at, entry) + post
  {
    var lines := pre + body + post;
    assert lines[..|pre|] == pre && lines[|pre|..|pre| + |body|] == body && lines[|pre| + |body|..] == post;
    AddStep(lines, |pre|, |pre| + |body|, |pre| + at, entry);
  }

  /** The body with the new item: the rest of it is blank, and the line in front of it is not. */
  lemma AddedParts(f: Format, pre: Text, body: Text, post: Text, name: string) returns (at: nat)
    requires pre != [] && NotNamed(f, body, name)
    ensures at <= |body| && forall i | at <= i < |body| :: f.read(body[i]).blank
    ensures at == 0 || !f.read(body[at - 1]).blank
    ensures Added(f, pre + body + post, Section(|pre| - 1, |pre| + |body|), name) == pre + Inserted(body, at, f.entry(name)) + post
  {
    var lines, end := pre + body + post, |pre| + |body|;
    InsertAtBlanks(f, lines, |pre|, end);
    NotNamedBetween(f, pre, body, post, name);
    AddedIs(f, lines, Section(|pre| - 1, end), name);
    at := InsertAt(f, lines, |pre|, end) - |pre|;
    BlanksInBody(f, pre, body, post, at);
    InsertedInParts(pre, body, post, at, f.entry(name));
  }

  lemma QueueOfSplit(f: Format, body: Text, at: nat)
    requires Lawful(f)
    requires at <= |body| && forall i | at <= i < |body| :: f.read(body[i]).blank
    ensures Queue(f, body[..at]) == Queue(f, body) && Queue(f, body[at..]) == []
  {
    assert body == body[..at] + body[at..];
    BlankLinesStay(f, body[at..], 1);
    QueueConcat(f, body[..at], body[at..]);
  }

  lemma QueueAround(f: Format, a: Text, line: string, b: Text)
    requires IsItem(f, line) && Queue(f, b) == []
    ensures Queue(f, a + [line] + b) == Queue(f, a) + [f.read(line).item.value]
  {
    QueueConcat(f, a + [line], b);
    QueueConcat(f, a, [line]);
    QueueOne(f, line);
  }

  lemma PlainNext(items: seq<Item>, name: string)
    ensures Names(items + [Item("1", name, name)]) == Names(items) + [name]
    ensures Plain(items) ==> Plain(items + [Item("1", name, name)])
  {
    NamesConcat(items, [Item("1", name, name)]);
    assert [Item("1", name, name)][1..] == [];
    assert Names([Item("1", name, name)]) == [name];
  }

  lemma QueueOfInserted(f: Format, body: Text, at: nat, name: string)
    requires Lawful(f) && IsName(f, name)
    requires at <= |body| && forall i | at <= i < |body| :: f.read(body[i]).blank
    ensures Names(Queue(f, Inserted(body, at, f.entry(name)))) == Names(Queue(f, body)) + [name]
    ensures Plain(Queue(f, body)) ==> Plain(Queue(f, Inserted(body, at, f.entry(name))))
  {
    QueueOfSplit(f, body, at);
    QueueAround(f, body[..at], f.entry(name), body[at..]);
    PlainNext(Queue(f, body), name);
  }

  lemma AddNewParts(f: Format, lines: Text, pre: Text, body: Text, post: Text, name: string) returns (at: nat)
    requires Lawful(f) && IsName(f, name) && IsParts(f, lines, pre, body, post) && NotNamed(f, body, name)
    ensures at <= |body| && forall i | at <= i < |body| :: f.read(body[i]).blank
    ensures at == 0 || !f.read(body[at - 1]).blank
    ensures NoSection(f, Inserted(body, at, f.entry(name)))
    ensures AfterAdd(f, lines, name) == RStrip(pre + NormalBody(f, Inserted(body, at, f.entry(name))) + post)
  {
    at := AddedParts(f, pre, body, post, name);
    InsertedNoSection(f, body, at, f.entry(name));
    AddedNormal(f, lines, pre, body, post, name, Inserted(body, at, f.entry(name)));
  }

  /** With a section in place, putting an item on rewrites that section and nothing else: whether the item is
      there already is asked of the section alone. */
  lemma AddParts(f: Format, lines: Text, pre: Text, body: Text, post: Text, name: string) returns (at: nat)
    requires Lawful(f) && IsName(f, name) && IsParts(f, lines, pre, body, post)
    ensures at <= |body| && forall i | at <= i < |body| :: f.read(body[i]).blank
    ensures NotNamed(f, body, name) ==> at == 0 || !f.read(body[at - 1]).blank
    ensures AfterAdd(f, lines, name) ==
            RStrip(pre + NormalBody(f, if NotNamed(f, body, name) then Inserted(body, at, f.entry(name)) else body) + post)
  {
    if NotNamed(f, body, name) {
      at := AddNewParts(f, lines, pre, body, post, name);
    } else {
      at := |body|;
      NotNamedBetween(f, pre, body, post, name);
      AddedNormal(f, lines, pre, body, post, name, body);
    }
  }

  lemma AddedNormal(f: Format, lines: Text, pre: Text, body: Text, post: Text, name: string, next: Text)
    requires Lawful(f) && IsParts(f, lines, pre, body, post) && NoSection(f, next)
    requires Added(f, lines, Section(|pre| - 1, |pre| + |body|), name) == pre + next + post
    ensures AfterAdd(f, lines, name) == RStrip(pre + NormalBody(f, next) + post)
  {
    PartsFound(f, lines, pre, body, post);
    PartsFound(f, pre + next + post, pre, next, post);
    NormalizedParts(f, pre + next + post, pre, next, post);
  }

  ghost function WithHeading(f: Format, lines: Text): Text {
    (if lines != [] && !f.read(lines[|lines| - 1]).blank then lines + [""] else lines) + [f.heading]
  }

  lemma WithHeadingQueue(f: Format, lines: Text)
    requires Lawful(f)
    ensures Queue(f, WithHeading(f, lines)) == Queue(f, lines)
  {
    EmptyIsNoItem(f);
    QueueConcat(f, lines + [""], [f.heading]);
    QueueConcat(f, lines, [f.heading]);
    QueueConcat(f, lines, [""]);
    QueueOne(f, "");
    QueueOne(f, f.heading);
  }

  /** A new section goes to the end of the file; it is the one that is found. */
  lemma WithSectionParts(f: Format, lines: Text)
    requires Lawful(f) && FindSection(f, lines).None?
    ensures IsParts(f, WithSection(f, lines), WithHeading(f, lines), [""], [])
  {
    EmptyIsNoItem(f);
    HeadingFound(f, lines, 0);
    var pre := WithHeading(f, lines);
    assert WithSection(f, lines) == pre + [""] + [];
    forall i | 0 <= i < |pre| - 1 ensures !f.read(pre[i]).heading {
      assert pre[i] == if i < |lines| then lines[i] else "";
    }
  }

  lemma AfterAddSection(f: Format, lines: Text, name: string)
    requires Lawful(f) && FindSection(f, lines).None?
    ensures FindSection(f, WithSection(f, lines)).Some? && WithSection(f, lines) != []
    ensures AfterAdd(f, lines, name) == AfterAdd(f, WithSection(f, lines), name)
  {
    WithSectionParts(f, lines);
    PartsFound(f, WithSection(f, lines), WithHeading(f, lines), [""], []);
  }

  lemma WithSectionListed(f: Format, lines: Text)
    requires Lawful(f) && FindSection(f, lines).None? && NoItem(f, lines)
    ensures NoItem(f, WithSection(f, lines))
  {
    WithSectionParts(f, lines);
    WithHeadingQueue(f, lines);
    EmptyIsNoItem(f);
    QueueOne(f, "");
    QueueConcat(f, WithHeading(f, lines), [""]);
    assert WithSection(f, lines) == WithHeading(f, lines) + [""];
    QueueEmptyIff(f, lines);
    QueueEmptyIff(f, WithSection(f, lines));
  }

  lemma {:induction false} AfterAddListed(f: Format, lines: Text, names: seq<string>, name: string)
    requires Lawful(f) && IsName(f, name) && Listed(f, lines, names) && name !in names
    ensures Listed(f, AfterAdd(f, lines, name), names + [name])
    decreases FindSection(f, lines).None?
  {
    ListedNames(f, lines, names);
    if FindSection(f, lines).None? {
      AfterAddSection(f, lines, name);
      WithSectionListed(f, lines);
      QueueEmptyIff(f, lines);
      QueueEmptyIff(f, WithSection(f, lines));
      AfterAddListed(f, WithSection(f, lines), names, name);
    } else {
      var Section(start, end) := FindSection(f, lines).value;
      var pre, body, post := lines[..start + 1], lines[start + 1..end], lines[end..];
      FoundParts(f, lines);
      NamedIsListed(f, lines, name);
      NotHeld(f, pre, body, post, name);
      var at := AddNewParts(f, lines, pre, body, post, name);
      var next := Inserted(body, at, f.entry(name));
      NormalBodyNoSection(f, next);
      ListedParts(f, lines, pre, body, post, NormalBody(f, next));
      QueueOfInserted(f, body, at, name);
      QueueOfNormalBody(f, next);
      ListedRStrip(f, pre + NormalBody(f, next) + post, names + [name]);
    }
  }

  // ---------------------------------------------------------------- on and off again

  /** A file that stripping leaves alone ends in a line that is not blank, and has no trailing blanks. */
  lemma StrippedIff(lines: Text)
    requires lines != [] && lines != [""]
    ensures RStrip(lines) == lines <==> TrimEnd(Blank, lines[|lines| - 1]) == lines[|lines| - 1] != ""
  {
    var last := TrimEnd(Blank, lines[|lines| - 1]);
    if last == "" && |lines| > 1 {
      RStripRows(lines[..|lines| - 1]);
    }
  }

  function Cleared(f: Format, body: Text): Text {
    WithoutMessages(f, Renumber(f, body, 1))
  }

  ghost predicate AllBlank(f: Format, lines: Text) {
    forall i | 0 <= i < |lines| :: f.read(lines[i]).blank
  }

  lemma ClearedBlanks(f: Format, a: Text, b: Text)
    requires Lawful(f) && AllBlank(f, b)
    ensures Cleared(f, a + b) == Cleared(f, a) + b
  {
    BlankLinesStay(f, b, 1 + |Queue(f, a)|);
    RenumberConcat(f, a, b, 1);
    WithoutMessagesConcat(f, Renumber(f, a, 1), b);
  }

  lemma NumberedIsNoMessage(f: Format, entry: string, n: nat)
    requires Lawful(f) && IsItem(f, entry)
    ensures !f.read(f.renumber(entry, n)).message
  {
  }

  lemma OneLine(f: Format, line: string, n: nat)
    ensures IsItem(f, line) ==> Renumber(f, [line], n) == [f.renumber(line, n)]
    ensures !f.read(line).message ==> WithoutMessages(f, [line]) == [line]
  {
    assert [line][1..] == [];
  }

  lemma ClearedOne(f: Format, a: Text, entry: string)
    requires Lawful(f) && IsItem(f, entry)
    ensures Cleared(f, a + [entry]) == Cleared(f, a) + [f.renumber(entry, 1 + |Queue(f, a)|)]
  {
    NumberedIsNoMessage(f, entry, 1 + |Queue(f, a)|);
    ClearedOneMore(f, a, entry);
  }

  lemma ClearedOneMore(f: Format, a: Text, entry: string)
    requires IsItem(f, entry) && !f.read(f.renumber(entry, 1 + |Queue(f, a)|)).message
    ensures Cleared(f, a + [entry]) == Cleared(f, a) + [f.renumber(entry, 1 + |Queue(f, a)|)]
  {
    var line := f.renumber(entry, 1 + |Queue(f, a)|);
    RenumberConcat(f, a, [entry], 1);
    OneLine(f, entry, 1 + |Queue(f, a)|);
    WithoutMessagesConcat(f, Renumber(f, a, 1), [line]);
    OneLine(f, line, 1);
  }

  lemma ClearedEntry(f: Format, a: Text, entry: string, b: Text)
    requires Lawful(f) && AllBlank(f, b) && IsItem(f, entry)
    ensures Cleared(f, a + [entry] + b) == Cleared(f, a) + [f.renumber(entry, 1 + |Queue(f, a)|)] + b
  {
    ClearedBlanks(f, a + [entry], b);
    ClearedOne(f, a, entry);
  }

  lemma ClearedEmptyIff(f: Format, body: Text)
    requires Lawful(f)
    ensures Queue(f, Cleared(f, body)) == [] <==> Queue(f, body) == []
  {
    RenumberEmptyIff(f, body, 1);
    QueueOfWithoutMessages(f, Renumber(f, body, 1));
  }

  lemma NotNamedFront(f: Format, line: string, rest: Text, name: string)
    ensures NotNamed(f, [line] + rest, name) <==> !IsNamed(f, line, name) && NotNamed(f, rest, name)
  {
    assert ([line] + rest)[0] == line;
    assert forall i | 0 <= i < |rest| :: rest[i] == ([line] + rest)[i + 1];
  }

  lemma {:induction false} NotNamedCleared(f: Format, body: Text, n: nat, name: string)
    requires Lawful(f) && NotNamed(f, body, name)
    ensures NotNamed(f, WithoutMessages(f, Renumber(f, body, n)), name)
  {
    if body != [] {
      var line, rest := Numbering(f, body[0], n), Renumber(f, body[1..], After(f, body[0], n));
      HeadTail(body);
      NotNamedFront(f, body[0], body[1..], name);
      NotNamedCleared(f, body[1..], After(f, body[0], n), name);
      RenumberFront(f, body[0], body[1..], n);
      WithoutMessagesFront(f, line, rest);
      NotNamedFront(f, line, WithoutMessages(f, rest), name);
    }
  }

  lemma BlanksNotNamed(f: Format, lines: Text, name: string)
    requires Lawful(f) && AllBlank(f, lines)
    ensures NotNamed(f, lines, name)
  {
  }

  lemma WithoutEntry(f: Format, a: Text, line: string, b: Text, name: string)
    requires IsNamed(f, line, name) && NotNamed(f, a, name) && NotNamed(f, b, name)
    ensures WithoutItem(f, a + [line] + b, name) == a + b
  {
    ConcatAssociative(a, [line], b);
    WithoutItemConcat(f, a, [line] + b, name);
    WithoutItemFront(f, line, b, name);
    WithoutItemSame(f, a, name);
    WithoutItemSame(f, b, name);
  }

  /** The normalised body with the new item in it, and what taking the item off again leaves of it. */
  lemma OnAndOffBody(f: Format, front: Text, blanks: Text, name: string)
    requires Lawful(f) && IsName(f, name) && NotNamed(f, front, name) && AllBlank(f, blanks)
    ensures NormalBody(f, front + [f.entry(name)] + blanks)
            == Cleared(f, front) + [f.renumber(f.entry(name), 1 + |Queue(f, front)|)] + blanks
    ensures WithoutItem(f, NormalBody(f, front + [f.entry(name)] + blanks), name) == Cleared(f, front) + blanks
  {
    BlankLinesStay(f, blanks, 1);
    QueueAround(f, front, f.entry(name), blanks);
    ClearedEntry(f, front, f.entry(name), blanks);
    NotNamedCleared(f, front, 1, name);
    BlanksNotNamed(f, blanks, name);
    WithoutEntry(f, Cleared(f, front), f.renumber(f.entry(name), 1 + |Queue(f, front)|), blanks, name);
  }

  /** Normalising that gives the body as normalising gives it without the detour. */
  lemma ClearedNormal(f: Format, front: Text, blanks: Text)
    requires Lawful(f) && AllBlank(f, blanks)
    ensures NormalBody(f, Cleared(f, front) + blanks) == NormalBody(f, front + blanks)
  {
    BlankLinesStay(f, blanks, 1);
    QueueConcat(f, front, blanks);
    QueueConcat(f, Cleared(f, front), blanks);
    ClearedEmptyIff(f, front);
    if Queue(f, front) != [] {
      ClearedBlanks(f, front, blanks);
      ClearedBlanks(f, Cleared(f, front), blanks);
      RenumberTwice(f, front, 1);
    }
  }

  lemma LastOf(a: Text, b: Text)
    requires b != []
    ensures (a + b)[|a + b| - 1] == b[|b| - 1]
  {
  }

  lemma TextIsThere(f: Format, pre: Text, rest: Text)
    requires Lawful(f) && pre != [] && !f.read(pre[|pre| - 1]).blank
    ensures pre + rest != [""]
  {
    EmptyIsNoItem(f);
    assert pre[|pre| - 1] == (pre + rest)[|pre| - 1];
  }

  lemma BlankLast(f: Format, body: Text, at: nat)
    requires at < |body| && AllBlank(f, body[at..])
    ensures f.read(body[|body| - 1]).blank
  {
    assert body[at..][|body| - 1 - at] == body[|body| - 1];
  }

  /** In a file that does not end in a blank line, only a section with another one behind it can end in one. */
  lemma NoBlanksAtTheEnd(f: Format, pre: Text, body: Text, at: nat)
    requires Lawful(f) && pre != [] && !f.read(pre[|pre| - 1]).blank
    requires at <= |body| && AllBlank(f, body[at..])
    requires RStrip(pre + body) == pre + body
    ensures at == |body|
  {
    TextIsThere(f, pre, body);
    StrippedIff(pre + body);
    if at < |body| {
      LastOf(pre, body);
      BlankLast(f, body, at);
    }
  }

  /** The last line decides. */
  lemma StrippedLast(lines: Text, line: string)
    requires lines != [] && lines[|lines| - 1] == line
    requires TrimEnd(Blank, line) == line != ""
    ensures RStrip(lines) == lines
  {
  }

  lemma StaysStripped(f: Format, pre: Text, body: Text, next: Text, post: Text)
    requires Lawful(f) && pre != [] && !f.read(pre[|pre| - 1]).blank
    requires RStrip(pre + body + post) == pre + body + post
    requires post != []
    ensures RStrip(pre + next + post) == pre + next + post
  {
    ConcatAssociative(pre, body, post);
    TextIsThere(f, pre, body + post);
    StrippedIff(pre + body + post);
    LastOf(pre + body, post);
    LastOf(pre + next, post);
    StrippedLast(pre + next + post, post[|post| - 1]);
  }

  lemma EntryIsThere(f: Format, pre: Text, a: Text, line: string, b: Text, post: Text, name: string)
    requires IsNamed(f, line, name)
    ensures var lines := pre + (a + [line] + b) + post;
            Holds(f, lines, 0, |lines|, name)
  {
    var body := a + [line] + b;
    assert body[|a|] == line;
    LineOf(pre, body, post, |pre| + |a|);
  }

  /** The new item at the very end of the file: nothing is stripped off it. */
  lemma AddedLast(f: Format, pre: Text, front: Text, line: string)
    requires TrimEnd(Blank, line) == line != ""
    ensures RStrip(pre + (front + [line] + []) + []) == pre + (front + [line] + []) + []
  {
    var lines := pre + (front + [line] + []) + [];
    assert lines == pre + front + [line];
    StrippedLast(lines, line);
  }

  lemma ItemHasText(f: Format, line: string)
    requires Lawful(f) && IsItem(f, line)
    ensures line != ""
  {
    EmptyIsNoItem(f);
  }

  /** The file with the new item on its list, before and after its end is stripped. */
  lemma AddedFile(f: Format, pre: Text, body: Text, at: nat, post: Text, name: string)
    requires Lawful(f) && IsName(f, name)
    requires pre != [] && !f.read(pre[|pre| - 1]).blank
    requires RStrip(pre + body + post) == pre + body + post && NotNamed(f, body, name)
    requires at <= |body| && AllBlank(f, body[at..])
    ensures var next := NormalBody(f, Inserted(body, at, f.entry(name)));
            RStrip(pre + next + post) == pre + next + post
  {
    var front, line := body[..at], f.renumber(f.entry(name), 1 + |Queue(f, body[..at])|);
    if post == [] {
      assert pre + body + post == pre + body;
      NoBlanksAtTheEnd(f, pre, body, at);
      ItemHasText(f, line);
      OnAndOffBody(f, front, [], name);
      AddedLast(f, pre, Cleared(f, front), line);
    } else {
      StaysStripped(f, pre, body, NormalBody(f, Inserted(body, at, f.entry(name))), post);
    }
  }

  lemma NotHeld(f: Format, pre: Text, body: Text, post: Text, name: string)
    requires var lines := pre + body + post; !Holds(f, lines, 0, |lines|, name)
    ensures NotNamed(f, pre, name) && NotNamed(f, body, name) && NotNamed(f, post, name)
  {
    var lines := pre + body + post;
    forall i | 0 <= i < |pre| ensures !IsNamed(f, pre[i], name) {
      LineOf(pre, body, post, i);
    }
    forall i | 0 <= i < |body| ensures !IsNamed(f, body[i], name) {
      LineOf(pre, body, post, |pre| + i);
    }
    forall i | 0 <= i < |post| ensures !IsNamed(f, post[i], name) {
      LineOf(pre, body, post, |pre| + |body| + i);
    }
  }

  /** Taking the new item off the file that it was put on. */
  lemma RemoveAdded(f: Format, pre: Text, front: Text, blanks: Text, post: Text, name: string)
    requires Lawful(f) && IsName(f, name) && AllBlank(f, blanks)
    requires NotNamed(f, pre, name) && NotNamed(f, front, name) && NotNamed(f, post, name)
    requires var next := NormalBody(f, front + [f.entry(name)] + blanks);
             IsParts(f, pre + next + post, pre, next, post)
    ensures AfterRemove(f, pre + NormalBody(f, front + [f.entry(name)] + blanks) + post, name)
            == RStrip(pre + NormalBody(f, front + blanks) + post)
  {
    var next := NormalBody(f, front + [f.entry(name)] + blanks);
    OnAndOffBody(f, front, blanks, name);
    EntryIsThere(f, pre, Cleared(f, front), f.renumber(f.entry(name), 1 + |Queue(f, front)|), blanks, post, name);
    RemoveInside(f, pre + next + post, pre, next, post, name);
    ClearedNormal(f, front, blanks);
  }

  /** Taking the new item off the file that it was put on at `at`. */
  lemma RemoveAddedAt(f: Format, pre: Text, body: Text, at: nat, post: Text, name: string)
    requires Lawful(f) && IsName(f, name) && at <= |body| && AllBlank(f, body[at..])
    requires NotNamed(f, pre, name) && NotNamed(f, body[..at], name) && NotNamed(f, post, name)
    requires var next := NormalBody(f, Inserted(body, at, f.entry(name)));
             IsParts(f, pre + next + post, pre, next, post)
    ensures AfterRemove(f, pre + NormalBody(f, Inserted(body, at, f.entry(name))) + post, name)
            == RStrip(pre + NormalBody(f, body) + post)
  {
    assert body == body[..at] + body[at..];
    RemoveAdded(f, pre, body[..at], body[at..], post, name);
  }

  lemma AddThenRemoveParts(f: Format, lines: Text, pre: Text, body: Text, post: Text, name: string)
    requires Lawful(f) && IsName(f, name)
    requires IsParts(f, lines, pre, body, post) && RStrip(lines) == lines && !Holds(f, lines, 0, |lines|, name)
    ensures AfterRemove(f, AfterAdd(f, lines, name), name) == RStrip(pre + NormalBody(f, body) + post)
  {
    NotHeld(f, pre, body, post, name);
    var at := AddNewParts(f, lines, pre, body, post, name);
    AddedFile(f, pre, body, at, post, name);
    NormalBodyNoSection(f, Inserted(body, at, f.entry(name)));
    RemoveAddedAt(f, pre, body, at, post, name);
  }

  lemma PartsOf(f: Format, lines: Text) returns (pre: Text, body: Text, post: Text)
    requires FindSection(f, lines).Some?
    ensures IsParts(f, lines, pre, body, post)
    ensures Normalized(f, lines, FindSection(f, lines).value) == pre + NormalBody(f, body) + post
  {
    FoundParts(f, lines);
    var Section(start, end) := FindSection(f, lines).value;
    pre, body, post := lines[..start + 1], lines[start + 1..end], lines[end..];
  }

  /** Putting a new item on the list and taking it off again normalises the file. */
  lemma AddThenRemoveNormalizes(f: Format, lines: Text, name: string)
    requires Lawful(f) && IsName(f, name)
    requires FindSection(f, lines).Some? && RStrip(lines) == lines
    requires !Holds(f, lines, 0, |lines|, name)
    ensures AfterRemove(f, AfterAdd(f, lines, name), name) == RStrip(Normalized(f, lines, FindSection(f, lines).value))
  {
    var pre, body, post := PartsOf(f, lines);
    AddThenRemoveParts(f, lines, pre, body, post, name);
  }

  /** The file is as a move leaves it: normalised, and without trailing blanks. */
  predicate IsNormalized(f: Format, lines: Text) {
    FindSection(f, lines).Some? && RStrip(Normalized(f, lines, FindSection(f, lines).value)) == lines
  }

  /** Putting a new item on the list and taking it off again gives the file back exactly if it was normalised,
      whether or not its list was empty. */
  lemma AddThenRemoveIff(f: Format, lines: Text, name: string)
    requires Lawful(f) && IsName(f, name)
    requires FindSection(f, lines).Some? && RStrip(lines) == lines
    requires !Holds(f, lines, 0, |lines|, name)
    ensures AfterRemove(f, AfterAdd(f, lines, name), name) == lines <==> IsNormalized(f, lines)
  {
    AddThenRemoveNormalizes(f, lines, name);
  }
}
