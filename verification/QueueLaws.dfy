/** What the edits of a lane's README keep: one list of names, numbered from 1, inside its section. */
module QueueLaws {
  import opened Options
  import opened Strings
  import opened ItemText
  import opened LaneQueue

  // ---------------------------------------------------------------- the parts of a file

  /** The file up to its section's heading, the section's body, and what follows from the next section on. */
  ghost predicate IsParts(f: Format, lines: Text, pre: Text, body: Text, post: Text) {
    && lines == pre + body + post
    && pre != [] && f.read(pre[|pre| - 1]).heading
    && (forall i | 0 <= i < |pre| - 1 :: !f.read(pre[i]).heading)
    && NoSection(f, body)
    && (post != [] ==> f.read(post[0]).section)
  }

  ghost predicate NoSection(f: Format, body: Text) {
    forall i | 0 <= i < |body| :: !f.read(body[i]).section
  }

  lemma {:induction false} HeadingIs(f: Format, lines: Text, i: nat, start: nat)
    requires i <= start < |lines| && f.read(lines[start]).heading
    requires forall k | i <= k < start :: !f.read(lines[k]).heading
    ensures HeadingFrom(f, lines, i) == Some(start)
    decreases start - i
  {
    if i < start {
      HeadingIs(f, lines, i + 1, start);
    }
  }

  lemma {:induction false} HeadingFound(f: Format, lines: Text, i: nat)
    requires i <= |lines|
    ensures var found := HeadingFrom(f, lines, i);
            var end := if found.Some? then found.value else |lines|;
            && (found.Some? ==> f.read(lines[end]).heading)
            && forall k | i <= k < end :: !f.read(lines[k]).heading
    decreases |lines| - i
  {
    if i < |lines| && !f.read(lines[i]).heading {
      HeadingFound(f, lines, i + 1);
    }
  }

  lemma {:induction false} EndIs(f: Format, lines: Text, i: nat, end: nat)
    requires i <= end <= |lines|
    requires end < |lines| ==> f.read(lines[end]).section
    requires forall k | i <= k < end :: !f.read(lines[k]).section
    ensures SectionEnd(f, lines, i) == end
    decreases end - i
  {
    if i < end {
      EndIs(f, lines, i + 1, end);
    }
  }

  lemma {:induction false} EndFound(f: Format, lines: Text, i: nat)
    requires i <= |lines|
    ensures var end := SectionEnd(f, lines, i);
            && (end < |lines| ==> f.read(lines[end]).section)
            && forall k | i <= k < end :: !f.read(lines[k]).section
    decreases |lines| - i
  {
    if i < |lines| && !f.read(lines[i]).section {
      EndFound(f, lines, i + 1);
    }
  }

  /** The parts are what the search for the section finds. */
  lemma PartsFound(f: Format, lines: Text, pre: Text, body: Text, post: Text)
    requires IsParts(f, lines, pre, body, post)
    ensures FindSection(f, lines) == Some(Section(|pre| - 1, |pre| + |body|))
    ensures lines[..|pre|] == pre && lines[|pre|..|pre| + |body|] == body && lines[|pre| + |body|..] == post
  {
    HeadingIs(f, lines, 0, |pre| - 1);
    assert post != [] ==> lines[|pre| + |body|] == post[0];
    forall k | |pre| <= k < |pre| + |body| ensures !f.read(lines[k]).section {
      assert lines[k] == body[k - |pre|];
    }
    EndIs(f, lines, |pre|, |pre| + |body|);
  }

  lemma FoundParts(f: Format, lines: Text)
    requires FindSection(f, lines).Some?
    ensures var Section(start, end) := FindSection(f, lines).value;
            IsParts(f, lines, lines[..start + 1], lines[start + 1..end], lines[end..])
  {
    var Section(start, end) := FindSection(f, lines).value;
    HeadingFound(f, lines, 0);
    EndFound(f, lines, start + 1);
    InParts(lines, start + 1, end);
  }

  // ---------------------------------------------------------------- lines that are no items

  ghost predicate NoItem(f: Format, lines: Text) {
    forall i | 0 <= i < |lines| :: !IsItem(f, lines[i])
  }

  lemma {:induction false} QueueEmptyIff(f: Format, lines: Text)
    ensures Queue(f, lines) == [] <==> NoItem(f, lines)
  {
    if lines != [] {
      QueueEmptyIff(f, lines[1..]);
      assert NoItem(f, lines) ==> NoItem(f, lines[1..]);
      assert !IsItem(f, lines[0]) && NoItem(f, lines[1..]) ==> NoItem(f, lines) by {
        assert lines == [lines[0]] + lines[1..];
      }
    }
  }

  /** No line names the item: taking it off changes nothing. */
  ghost predicate NotNamed(f: Format, lines: Text, name: string) {
    forall i | 0 <= i < |lines| :: !IsNamed(f, lines[i], name)
  }

  lemma {:induction false} WithoutItemSame(f: Format, lines: Text, name: string)
    requires NotNamed(f, lines, name)
    ensures WithoutItem(f, lines, name) == lines
  {
    if lines != [] {
      WithoutItemSame(f, lines[1..], name);
    }
  }

  lemma {:induction false} BlankLinesStay(f: Format, lines: Text, n: nat)
    requires Lawful(f) && forall i | 0 <= i < |lines| :: f.read(lines[i]).blank
    ensures Renumber(f, lines, n) == lines && WithoutMessages(f, lines) == lines && Queue(f, lines) == []
  {
    if lines != [] {
      BlankLinesStay(f, lines[1..], n);
    }
  }

  // ---------------------------------------------------------------- names

  /** The items of a list of names in order, numbered from `n` on. */
  function Numbered(names: seq<string>, n: nat): seq<Item> {
    if names == [] then [] else [Item(Decimal(n), names[0], names[0])] + Numbered(names[1..], n + 1)
  }

  function Names(items: seq<Item>): seq<string> {
    if items == [] then [] else [items[0].name] + Names(items[1..])
  }

  /** Every item's text is just its name. */
  ghost predicate Plain(items: seq<Item>) {
    forall i | 0 <= i < |items| :: items[i].raw == items[i].name
  }

  function Without(names: seq<string>, name: string): seq<string> {
    if names == [] then [] else (if names[0] == name then [] else [names[0]]) + Without(names[1..], name)
  }

  // ---------------------------------------------------------------- one line in front

  function Numbering(f: Format, line: string, n: nat): string {
    if IsItem(f, line) then f.renumber(line, n) else line
  }

  function After(f: Format, line: string, n: nat): nat {
    if IsItem(f, line) then n + 1 else n
  }

  lemma HeadTail(lines: Text)
    requires lines != []
    ensures lines == [lines[0]] + lines[1..]
  {
  }

  lemma QueueFront(f: Format, line: string, rest: Text)
    ensures Queue(f, [line] + rest) ==
            if IsItem(f, line) then [f.read(line).item.value] + Queue(f, rest) else Queue(f, rest)
  {
    assert ([line] + rest)[1..] == rest;
  }

  lemma RenumberFront(f: Format, line: string, rest: Text, n: nat)
    ensures Renumber(f, [line] + rest, n) == [Numbering(f, line, n)] + Renumber(f, rest, After(f, line, n))
  {
    assert ([line] + rest)[1..] == rest;
  }

  lemma WithoutMessagesFront(f: Format, line: string, rest: Text)
    ensures WithoutMessages(f, [line] + rest) ==
            if f.read(line).message then WithoutMessages(f, rest) else [line] + WithoutMessages(f, rest)
  {
    assert ([line] + rest)[1..] == rest;
  }

  lemma WithoutItemFront(f: Format, line: string, rest: Text, name: string)
    ensures WithoutItem(f, [line] + rest, name) ==
            if IsNamed(f, line, name) then WithoutItem(f, rest, name) else [line] + WithoutItem(f, rest, name)
  {
    assert ([line] + rest)[1..] == rest;
  }

  lemma NamesFront(item: Item, rest: seq<Item>)
    ensures Names([item] + rest) == [item.name] + Names(rest)
    ensures Plain([item] + rest) <==> item.raw == item.name && Plain(rest)
  {
    assert ([item] + rest)[1..] == rest;
    assert forall i | 0 <= i < |rest| :: rest[i] == ([item] + rest)[i + 1];
  }

  lemma NumberedFront(name: string, rest: seq<string>, n: nat)
    ensures Numbered([name] + rest, n) == [Item(Decimal(n), name, name)] + Numbered(rest, n + 1)
  {
    assert ([name] + rest)[1..] == rest;
  }

  lemma WithoutFront(first: string, rest: seq<string>, name: string)
    ensures Without([first] + rest, name) == if first == name then Without(rest, name) else [first] + Without(rest, name)
  {
    assert ([first] + rest)[1..] == rest;
  }

  // ---------------------------------------------------------------- the list

  lemma {:induction false} NamesOfNumbered(names: seq<string>, n: nat)
    ensures Names(Numbered(names, n)) == names && Plain(Numbered(names, n))
  {
    if names != [] {
      NamesOfNumbered(names[1..], n + 1);
    }
  }

  lemma {:induction false} NamesConcat(a: seq<Item>, b: seq<Item>)
    ensures Names(a + b) == Names(a) + Names(b)
  {
    if a == [] {
      assert a + b == b;
    } else {
      assert (a + b)[1..] == a[1..] + b;
      NamesConcat(a[1..], b);
    }
  }

  /** Normalising numbers the items and keeps their order. */
  lemma {:induction false} QueueOfRenumber(f: Format, body: Text, n: nat)
    requires Lawful(f) && Plain(Queue(f, body))
    ensures Queue(f, Renumber(f, body, n)) == Numbered(Names(Queue(f, body)), n)
  {
    if body != [] {
      var line, rest := body[0], body[1..];
      HeadTail(body);
      QueueFront(f, line, rest);
      RenumberFront(f, line, rest, n);
      QueueFront(f, Numbering(f, line, n), Renumber(f, rest, After(f, line, n)));
      if IsItem(f, line) {
        NamesFront(f.read(line).item.value, Queue(f, rest));
        NumberedFront(f.read(line).item.value.name, Names(Queue(f, rest)), n);
      }
      QueueOfRenumber(f, rest, After(f, line, n));
    }
  }

  lemma {:induction false} QueueOfWithoutMessages(f: Format, body: Text)
    requires Lawful(f)
    ensures Queue(f, WithoutMessages(f, body)) == Queue(f, body)
  {
    if body != [] {
      var line, rest := body[0], body[1..];
      HeadTail(body);
      QueueOfWithoutMessages(f, rest);
      QueueFront(f, line, rest);
      WithoutMessagesFront(f, line, rest);
      QueueFront(f, line, WithoutMessages(f, rest));
    }
  }

  lemma {:induction false} QueueOfWithoutItem(f: Format, lines: Text, name: string)
    ensures Names(Queue(f, WithoutItem(f, lines, name))) == Without(Names(Queue(f, lines)), name)
    ensures Plain(Queue(f, lines)) ==> Plain(Queue(f, WithoutItem(f, lines, name)))
  {
    if lines != [] {
      var line, rest := lines[0], lines[1..];
      HeadTail(lines);
      QueueOfWithoutItem(f, rest, name);
      QueueFront(f, line, rest);
      WithoutItemFront(f, line, rest, name);
      QueueFront(f, line, WithoutItem(f, rest, name));
      if IsItem(f, line) {
        var item := f.read(line).item.value;
        NamesFront(item, Queue(f, rest));
        NamesFront(item, Queue(f, WithoutItem(f, rest, name)));
        WithoutFront(item.name, Names(Queue(f, rest)), name);
      }
    }
  }

  lemma MessageBody(f: Format)
    requires Lawful(f)
    ensures Queue(f, ["", f.message, ""]) == [] && NoSection(f, ["", f.message, ""])
    ensures f.read("") == Kind(None, false, false, false, true)
  {
    assert TrimEnd(Blank, "") == "";
    QueueEmptyIff(f, ["", f.message, ""]);
  }

  /** The body of a normalised section lists the same names as before, numbered from 1. */
  lemma QueueOfNormalBody(f: Format, body: Text)
    requires Lawful(f) && Plain(Queue(f, body))
    ensures Queue(f, NormalBody(f, body)) == Numbered(Names(Queue(f, body)), 1)
  {
    if Queue(f, body) == [] {
      MessageBody(f);
    } else {
      QueueOfRenumber(f, body, 1);
      QueueOfWithoutMessages(f, Renumber(f, body, 1));
    }
  }

  // ---------------------------------------------------------------- no section line comes in

  lemma NoSectionFront(f: Format, line: string, rest: Text)
    ensures NoSection(f, [line] + rest) <==> !f.read(line).section && NoSection(f, rest)
  {
    assert ([line] + rest)[0] == line;
    assert forall i | 0 <= i < |rest| :: rest[i] == ([line] + rest)[i + 1];
  }

  lemma {:induction false} RenumberNoSection(f: Format, body: Text, n: nat)
    requires Lawful(f) && NoSection(f, body)
    ensures NoSection(f, Renumber(f, body, n))
  {
    if body != [] {
      HeadTail(body);
      NoSectionFront(f, body[0], body[1..]);
      RenumberNoSection(f, body[1..], After(f, body[0], n));
      RenumberFront(f, body[0], body[1..], n);
      NoSectionFront(f, Numbering(f, body[0], n), Renumber(f, body[1..], After(f, body[0], n)));
    }
  }

  lemma {:induction false} WithoutMessagesNoSection(f: Format, body: Text)
    requires NoSection(f, body)
    ensures NoSection(f, WithoutMessages(f, body))
  {
    if body != [] {
      HeadTail(body);
      NoSectionFront(f, body[0], body[1..]);
      WithoutMessagesNoSection(f, body[1..]);
      WithoutMessagesFront(f, body[0], body[1..]);
      NoSectionFront(f, body[0], WithoutMessages(f, body[1..]));
    }
  }

  lemma {:induction false} WithoutItemNoSection(f: Format, body: Text, name: string)
    requires NoSection(f, body)
    ensures NoSection(f, WithoutItem(f, body, name))
  {
    if body != [] {
      HeadTail(body);
      NoSectionFront(f, body[0], body[1..]);
      WithoutItemNoSection(f, body[1..], name);
      WithoutItemFront(f, body[0], body[1..], name);
      NoSectionFront(f, body[0], WithoutItem(f, body[1..], name));
    }
  }

  lemma NormalBodyNoSection(f: Format, body: Text)
    requires Lawful(f) && NoSection(f, body)
    ensures NoSection(f, NormalBody(f, body))
  {
    if Queue(f, body) == [] {
      MessageBody(f);
    } else {
      RenumberNoSection(f, body, 1);
      WithoutMessagesNoSection(f, Renumber(f, body, 1));
    }
  }

  // ---------------------------------------------------------------- normalising

  lemma {:induction false} RenumberTwice(f: Format, body: Text, n: nat)
    requires Lawful(f)
    ensures var once := WithoutMessages(f, Renumber(f, body, n));
            Renumber(f, once, n) == once && WithoutMessages(f, once) == once
  {
    if body != [] {
      var line, next := Numbering(f, body[0], n), After(f, body[0], n);
      RenumberTwice(f, body[1..], next);
      HeadTail(body);
      RenumberFront(f, body[0], body[1..], n);
      WithoutMessagesFront(f, line, Renumber(f, body[1..], next));
      if !f.read(line).message {
        RenumberFront(f, line, WithoutMessages(f, Renumber(f, body[1..], next)), n);
        WithoutMessagesFront(f, line, WithoutMessages(f, Renumber(f, body[1..], next)));
      }
    }
  }

  lemma {:induction false} RenumberEmptyIff(f: Format, body: Text, n: nat)
    requires Lawful(f)
    ensures Queue(f, Renumber(f, body, n)) == [] <==> Queue(f, body) == []
  {
    if body != [] {
      RenumberEmptyIff(f, body[1..], After(f, body[0], n));
      HeadTail(body);
      QueueFront(f, body[0], body[1..]);
      RenumberFront(f, body[0], body[1..], n);
      QueueFront(f, Numbering(f, body[0], n), Renumber(f, body[1..], After(f, body[0], n)));
    }
  }

  lemma NormalBodyTwice(f: Format, body: Text)
    requires Lawful(f)
    ensures NormalBody(f, NormalBody(f, body)) == NormalBody(f, body)
  {
    if Queue(f, body) == [] {
      MessageBody(f);
    } else {
      RenumberTwice(f, body, 1);
      RenumberEmptyIff(f, body, 1);
      QueueOfWithoutMessages(f, Renumber(f, body, 1));
    }
  }

  /** The normalised file has the same parts but for the section's body. */
  lemma NormalizedParts(f: Format, lines: Text, pre: Text, body: Text, post: Text)
    requires Lawful(f) && IsParts(f, lines, pre, body, post)
    ensures FindSection(f, lines).Some?
    ensures Normalized(f, lines, FindSection(f, lines).value) == pre + NormalBody(f, body) + post
    ensures IsParts(f, pre + NormalBody(f, body) + post, pre, NormalBody(f, body), post)
  {
    PartsFound(f, lines, pre, body, post);
    NormalBodyNoSection(f, body);
  }

  /** Normalising twice is normalising once. */
  lemma NormalizeIdempotent(f: Format, lines: Text)
    requires Lawful(f) && FindSection(f, lines).Some?
    ensures var once := Normalized(f, lines, FindSection(f, lines).value);
            && FindSection(f, once).Some?
            && FindSection(f, once).value.start == FindSection(f, lines).value.start
            && Normalized(f, once, FindSection(f, once).value) == once
  {
    var Section(start, end) := FindSection(f, lines).value;
    var pre, body, post := lines[..start + 1], lines[start + 1..end], lines[end..];
    FoundParts(f, lines);
    NormalizedParts(f, lines, pre, body, post);
    var once := pre + NormalBody(f, body) + post;
    PartsFound(f, once, pre, NormalBody(f, body), post);
    NormalizedParts(f, once, pre, NormalBody(f, body), post);
    NormalBodyTwice(f, body);
  }
}
