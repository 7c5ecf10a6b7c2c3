/** What the lines of items and READMEs mean, as the patterns of the tools state it, and what the edits make of them. */
module QueueMeaning {
  import opened Options
  import opened Strings
  import opened ItemText
  import opened ItemRoundTrip
  import opened ItemHistory
  import opened LaneQueue
  import opened QueueFormat
  import opened QueueLaws
  import opened QueueListing

  // ---------------------------------------------------------------- one section

  lemma QueueOfFirst(f: Format, body: Text, i: nat)
    requires 0 < i <= |body|
    ensures |Queue(f, body[..i])| == |Queue(f, body[1..][..i - 1])| + if IsItem(f, body[0]) then 1 else 0
  {
    assert body[..i] == [body[0]] + body[1..][..i - 1];
    QueueFront(f, body[0], body[1..][..i - 1]);
  }

  lemma {:induction false} RenumberAt(f: Format, body: Text, n: nat, i: nat)
    requires i < |body|
    ensures |Renumber(f, body, n)| == |body|
    ensures Renumber(f, body, n)[i] == if IsItem(f, body[i]) then f.renumber(body[i], n + |Queue(f, body[..i])|) else body[i]
    decreases |body|
  {
    RenumberLength(f, body, n);
    if i > 0 {
      RenumberAt(f, body[1..], After(f, body[0], n), i - 1);
      QueueOfFirst(f, body, i);
    } else {
      assert body[..0] == [];
    }
  }

  lemma {:induction false} NoMessageStays(f: Format, lines: Text)
    requires forall i | 0 <= i < |lines| :: !f.read(lines[i]).message
    ensures WithoutMessages(f, lines) == lines
  {
    if lines != [] {
      NoMessageStays(f, lines[1..]);
    }
  }

  lemma NumberedHasNoMessage(f: Format, body: Text)
    requires Lawful(f) && forall j | 0 <= j < |body| :: !f.read(body[j]).message
    ensures forall j | 0 <= j < |Renumber(f, body, 1)| :: !f.read(Renumber(f, body, 1)[j]).message
  {
    RenumberLength(f, body, 1);
    forall j: nat | j < |body| ensures !f.read(Renumber(f, body, 1)[j]).message {
      RenumberAt(f, body, 1, j);
      if IsItem(f, body[j]) {
        NumberedIsNoMessage(f, body[j], 1 + |Queue(f, body[..j])|);
      }
    }
  }

  /** Without items the body is the message alone, between blank lines. */
  lemma NormalWithoutItems(f: Format, body: Text)
    requires forall i | 0 <= i < |body| :: f.read(body[i]).item.None?
    ensures NormalBody(f, body) == ["", f.message, ""]
  {
    QueueEmptyIff(f, body);
  }

  lemma NormalIsRenumbered(f: Format, body: Text)
    requires Lawful(f) && Queue(f, body) != []
    requires forall j | 0 <= j < |body| :: !f.read(body[j]).message
    ensures NormalBody(f, body) == Renumber(f, body, 1)
  {
    NumberedHasNoMessage(f, body);
    NoMessageStays(f, Renumber(f, body, 1));
  }

  /** With items, and no message line, every line stays where it is; an item gets as its number how many items stand
      down to it. */
  lemma NormalWithItems(f: Format, body: Text, i: nat)
    requires Lawful(f) && i < |body|
    requires exists j :: 0 <= j < |body| && f.read(body[j]).item.Some?
    requires forall j | 0 <= j < |body| :: !f.read(body[j]).message
    ensures |NormalBody(f, body)| == |body|
    ensures NormalBody(f, body)[i] ==
            if f.read(body[i]).item.Some? then f.renumber(body[i], 1 + |Queue(f, body[..i])|) else body[i]
  {
    QueueEmptyIff(f, body);
    NormalIsRenumbered(f, body);
    RenumberAt(f, body, 1, i);
  }

  lemma ClearedParts(f: Format, a: Text, b: Text)
    ensures Cleared(f, a + b) == Cleared(f, a) + WithoutMessages(f, Renumber(f, b, 1 + |Queue(f, a)|))
  {
    RenumberConcat(f, a, b, 1);
    WithoutMessagesConcat(f, Renumber(f, a, 1), Renumber(f, b, 1 + |Queue(f, a)|));
  }

  lemma ClearedMessage(f: Format, a: Text, line: string)
    requires f.read(line).message && !IsItem(f, line)
    ensures Queue(f, a + [line]) == Queue(f, a) && Cleared(f, a + [line]) == Cleared(f, a)
  {
    QueueConcat(f, a, [line]);
    QueueOne(f, line);
    ClearedParts(f, a, [line]);
  }

  lemma MessageLeavesNothing(f: Format, a: Text, line: string, b: Text)
    requires f.read(line).message && !IsItem(f, line)
    ensures Cleared(f, a + [line] + b) == Cleared(f, a + b)
    ensures Queue(f, a + [line] + b) == Queue(f, a + b)
  {
    ClearedMessage(f, a, line);
    ClearedParts(f, a, b);
    ClearedParts(f, a + [line], b);
    QueueConcat(f, a, b);
    QueueConcat(f, a + [line], b);
  }

  /** With items, a message line goes, and nothing else changes with it. */
  lemma NormalDropsMessage(f: Format, a: Text, line: string, b: Text)
    requires Lawful(f) && f.read(line).message
    requires exists j :: 0 <= j < |a + b| && f.read((a + b)[j]).item.Some?
    ensures NormalBody(f, a + [line] + b) == NormalBody(f, a + b)
  {
    assert !IsItem(f, line);
    MessageLeavesNothing(f, a, line, b);
    QueueEmptyIff(f, a + b);
  }

  /** In a file without a section of that title the item comes to the end, under a new heading, as the first of its
      list; a blank line stands in front of the heading. */
  lemma AddToNewSection(f: Format, lines: Text, name: string)
    requires Lawful(f) && IsName(f, name)
    requires forall i | 0 <= i < |lines| :: !f.read(lines[i]).heading
    ensures AfterAdd(f, lines, name) ==
            lines + (if lines == [] || f.read(lines[|lines| - 1]).blank then [] else [""])
            + [f.heading, f.renumber(f.entry(name), 1)]
  {
    var pre, entry := WithHeading(f, lines), f.entry(name);
    NoHeadingNoSection(f, lines);
    WithSectionParts(f, lines);
    AfterAddSection(f, lines, name);
    EmptyIsNoItem(f);
    assert NotNamed(f, [""], name);
    var at := AddNewParts(f, WithSection(f, lines), pre, [""], [], name);
    assert at == 0;
    assert Inserted([""], 0, entry) == [entry, ""];
    OneEntryBody(f, entry, name);
    var line := f.renumber(entry, 1);
    ItemHasText(f, line);
    EndsInEntry(pre, line);
    assert pre + [line] == lines + (if lines == [] || f.read(lines[|lines| - 1]).blank then [] else [""]) + [f.heading, line];
  }

  lemma NoHeadingNoSection(f: Format, lines: Text)
    requires forall i | 0 <= i < |lines| :: !f.read(lines[i]).heading
    ensures FindSection(f, lines).None?
  {
    HeadingFound(f, lines, 0);
  }

  lemma OneEntryBody(f: Format, entry: string, name: string)
    requires Lawful(f) && IsName(f, name) && entry == f.entry(name)
    ensures NormalBody(f, [entry, ""]) == [f.renumber(entry, 1), ""]
    ensures IsItem(f, f.renumber(entry, 1))
  {
    EmptyIsNoItem(f);
    assert f.read([entry, ""][0]).item.Some?;
    assert [entry, ""][..0] == [];
    NormalWithItems(f, [entry, ""], 0);
    NormalWithItems(f, [entry, ""], 1);
    var body := NormalBody(f, [entry, ""]);
    assert body == [body[0], body[1]];
  }

  lemma EndsInEntry(pre: Text, line: string)
    requires TrimEnd(Blank, line) == line != ""
    ensures RStrip(pre + [line, ""] + []) == pre + [line]
  {
    assert (pre + [line, ""] + [])[..|pre| + 1] == pre + [line];
    assert TrimEnd(Blank, "") == "";
    StrippedLast(pre + [line], line);
  }
}
