/** What the two readers make of a board that the state tool writes: they find nothing wrong after any run
    of moves, they notice a move that was stopped half way, and the next item is the oldest one. */
module BoardAgreement {
  import opened Options
  import opened ItemText
  import opened ItemRoundTrip
  import opened LaneQueue
  import opened QueueFormat
  import opened QueueLaws
  import opened Lanes
  import opened LaneRuns
  import opened LaneHistory
  import opened LaneCrash
  import opened WorkflowCheck

  // ---------------------------------------------------------------- the checks of the items

  /** The item contradicts neither itself nor its lane. */
  predicate IsConsistent(slot: Slot, text: Text) {
    && IdOf(text) != ""
    && Field(Metadata(text), "status") == LaneName(slot.place.lane)
    && Field(Frontmatter(text), "id") in {"", IdOf(text)}
    && Field(Frontmatter(text), "status") in {"", LaneName(slot.place.lane)}
  }

  lemma StatusFindingsIff(slot: Slot, status: string)
    ensures StatusFindings(slot, status) == [] <==> status == LaneName(slot.place.lane)
  {
    LaneWords(slot.place.lane);
  }

  lemma ItemFindingsIff(slot: Slot, text: Text, seen: map<string, Slot>)
    ensures ItemFindings(slot, text, seen) == [] <==> IsConsistent(slot, text) && IdOf(text) !in seen
  {
    StatusFindingsIff(slot, Field(Metadata(text), "status"));
    LaneWords(slot.place.lane);
  }

  ghost predicate AreFiles(w: World, slots: seq<Slot>) {
    forall i | 0 <= i < |slots| :: slots[i] in w.files
  }

  ghost predicate AllConsistent(w: World, slots: seq<Slot>)
    requires AreFiles(w, slots)
  {
    forall i | 0 <= i < |slots| :: IsConsistent(slots[i], w.files[slots[i]])
  }

  ghost predicate FreshIds(w: World, slots: seq<Slot>, seen: map<string, Slot>)
    requires AreFiles(w, slots)
  {
    && (forall i | 0 <= i < |slots| :: IdOf(w.files[slots[i]]) !in seen)
    && forall i, j | 0 <= i < j < |slots| :: IdOf(w.files[slots[i]]) != IdOf(w.files[slots[j]])
  }

  lemma FreshIdsFront(w: World, slots: seq<Slot>, seen: map<string, Slot>)
    requires slots != [] && AreFiles(w, slots)
    ensures AreFiles(w, slots[1..])
    ensures var id := IdOf(w.files[slots[0]]);
            FreshIds(w, slots, seen) <==> id !in seen && FreshIds(w, slots[1..], seen[id := slots[0]])
    ensures AllConsistent(w, slots) <==>
            IsConsistent(slots[0], w.files[slots[0]]) && AllConsistent(w, slots[1..])
  {
    var id, rest := IdOf(w.files[slots[0]]), slots[1..];
    assert slots == [slots[0]] + rest;
    assert forall i | 0 <= i < |rest| :: rest[i] == slots[i + 1];
    if id !in seen && FreshIds(w, rest, seen[id := slots[0]]) {
      forall i, j | 0 <= i < j < |slots| ensures IdOf(w.files[slots[i]]) != IdOf(w.files[slots[j]]) {
        assert slots[j] == rest[j - 1];
        if i > 0 {
          assert slots[i] == rest[i - 1];
        }
      }
      forall i | 0 <= i < |slots| ensures IdOf(w.files[slots[i]]) !in seen {
        if i > 0 {
          assert slots[i] == rest[i - 1];
        }
      }
    }
  }

  /** In whatever order the checker visits the items: it finds nothing exactly if every item is consistent
      and no two have the same id. */
  lemma {:induction false} NoFindingsIff(w: World, slots: seq<Slot>, seen: map<string, Slot>)
    requires AreFiles(w, slots)
    ensures AllFindings(w, slots, seen) == [] <==> AllConsistent(w, slots) && FreshIds(w, slots, seen)
    decreases |slots|
  {
    if slots != [] {
      var slot := slots[0];
      var text := w.files[slot];
      FreshIdsFront(w, slots, seen);
      ItemFindingsIff(slot, text, seen);
      if ItemFindings(slot, text, seen) == [] {
        NoFindingsIff(w, slots[1..], seen[IdOf(text) := slot]);
      }
    }
  }

  /** A listing of all items of the board, each once. */
  ghost predicate IsListing(w: World, slots: seq<Slot>) {
    && (forall i, j | 0 <= i < j < |slots| :: slots[i] != slots[j])
    && forall slot :: slot in slots <==> IsItemSlot(w, slot)
  }

  lemma ListingOf(w: World, slots: seq<Slot>, slot: Slot) returns (i: nat)
    requires IsListing(w, slots) && IsItemSlot(w, slot)
    ensures i < |slots| && slots[i] == slot
  {
    assert slot in slots;
    i :| 0 <= i < |slots| && slots[i] == slot;
  }

  lemma ListingIsFiles(w: World, slots: seq<Slot>)
    requires IsListing(w, slots)
    ensures forall i | 0 <= i < |slots| :: IsItemSlot(w, slots[i])
    ensures AreFiles(w, slots)
  {
    assert forall i | 0 <= i < |slots| :: slots[i] in slots;
  }

  lemma FreshIffUnique(w: World, slots: seq<Slot>)
    requires IsListing(w, slots) && AreFiles(w, slots)
    ensures FreshIds(w, slots, map[]) <==> UniqueIds(w)
  {
    ListingIsFiles(w, slots);
    if FreshIds(w, slots, map[]) {
      forall s, t | IsItemSlot(w, s) && IsItemSlot(w, t) && IdOf(w.files[s]) == IdOf(w.files[t]) ensures s == t {
        var i := ListingOf(w, slots, s);
        var j := ListingOf(w, slots, t);
        assert !(i < j) && !(j < i);
      }
    }
  }

  /** The same, told of the board. */
  lemma NoFindingsOnBoardIff(w: World, slots: seq<Slot>)
    requires IsListing(w, slots)
    ensures AreFiles(w, slots)
    ensures AllFindings(w, slots, map[]) == [] <==>
            && (forall slot | IsItemSlot(w, slot) :: IsConsistent(slot, w.files[slot]))
            && UniqueIds(w)
  {
    ListingIsFiles(w, slots);
    NoFindingsIff(w, slots, map[]);
    FreshIffUnique(w, slots);
    if AllConsistent(w, slots) {
      forall slot | IsItemSlot(w, slot) ensures IsConsistent(slot, w.files[slot]) {
        var i := ListingOf(w, slots, slot);
      }
    }
  }

  // ---------------------------------------------------------------- the warnings about items

  lemma {:induction false} LackingIff(slot: Slot, front: map<string, string>, keys: seq<string>)
    ensures Lacking(slot, front, keys) == [] <==> forall i | 0 <= i < |keys| :: keys[i] in front
  {
    if keys != [] {
      var before := keys[..|keys| - 1];
      LackingIff(slot, front, before);
      assert forall i | 0 <= i < |before| :: before[i] == keys[i];
    }
  }

  /** An item has no warning if and only if its frontmatter has the four keys. */
  lemma NoFrontmatterWarningsIff(slot: Slot, front: map<string, string>)
    ensures FrontmatterWarnings(slot, front) == [] <==>
            "kind" in front && "id" in front && "status" in front && "ready" in front
  {
    LackingIff(slot, front, FRONTMATTER_KEYS);
    var keys := FRONTMATTER_KEYS;
    assert keys[0] == "kind" && keys[1] == "id" && keys[2] == "status" && keys[3] == "ready";
  }

  ghost predicate NoneWarned(w: World, slots: seq<Slot>)
    requires AreFiles(w, slots)
  {
    forall i | 0 <= i < |slots| :: WarningsOf(w, slots[i]) == []
  }

  lemma NoneWarnedLast(w: World, slots: seq<Slot>)
    requires slots != [] && AreFiles(w, slots)
    ensures AreFiles(w, slots[..|slots| - 1])
    ensures NoneWarned(w, slots) <==> NoneWarned(w, slots[..|slots| - 1]) && WarningsOf(w, slots[|slots| - 1]) == []
  {
    var before := slots[..|slots| - 1];
    assert slots == before + [slots[|slots| - 1]];
    assert forall i | 0 <= i < |before| :: before[i] == slots[i];
  }

  /** There is no warning about items if and only if there is none about any of them. */
  lemma {:induction false} AllWarningsIff(w: World, slots: seq<Slot>)
    requires AreFiles(w, slots)
    ensures AllWarnings(w, slots) == [] <==> NoneWarned(w, slots)
    decreases |slots|
  {
    if slots != [] {
      NoneWarnedLast(w, slots);
      AllWarningsIff(w, slots[..|slots| - 1]);
    }
  }

  lemma {:induction false} SameLacking(slot: Slot, a: map<string, string>, b: map<string, string>, keys: seq<string>)
    requires a.Keys == b.Keys
    ensures Lacking(slot, a, keys) == Lacking(slot, b, keys)
  {
    if keys != [] {
      SameLacking(slot, a, b, keys[..|keys| - 1]);
    }
  }

  lemma SameWarnings(slot: Slot, a: map<string, string>, b: map<string, string>)
    requires a.Keys == b.Keys
    ensures FrontmatterWarnings(slot, a) == FrontmatterWarnings(slot, b)
  {
    assert a == map[] <==> a.Keys == {};
    assert b == map[] <==> b.Keys == {};
    SameLacking(slot, a, b, FRONTMATTER_KEYS);
  }

  /** A move changes no warning about the item: its frontmatter keeps its keys. */
  lemma MoveKeepsWarnings(text: Text, q: Request, slot: Slot)
    requires Clean(text) && IsPlain(q)
    ensures NewText(text, q).Some?
    ensures FrontmatterWarnings(slot, Frontmatter(NewText(text, q).value)) == FrontmatterWarnings(slot, Frontmatter(text))
  {
    var row :| CleanAt(text, row);
    NewTextKeepsFront(text, q, row);
    SameWarnings(slot, Frontmatter(text), Frontmatter(NewText(text, q).value));
  }

  // ---------------------------------------------------------------- healthy items

  lemma HealthyItemsAreConsistent(w: World, slot: Slot)
    requires GoodItems(w) && IsItemSlot(w, slot)
    ensures IsConsistent(slot, w.files[slot])
  {
    assert GoodText(w.files[slot], slot.place.lane);
  }

  // ---------------------------------------------------------------- the checks of the queue

  lemma {:induction false} MissingIff(place: Place, items: seq<Item>, isFile: string -> bool)
    ensures Missing(place, items, isFile) == [] <==> forall i | 0 <= i < |items| :: isFile(items[i].raw)
  {
    if items != [] {
      var front := items[..|items| - 1];
      MissingIff(place, front, isFile);
      assert forall i | 0 <= i < |front| :: front[i] == items[i];
    }
  }

  lemma {:induction false} NameSetIs(items: seq<Item>, name: string)
    ensures name in NameSet(items) <==> name in Names(items)
  {
    if items != [] {
      var front, last := items[..|items| - 1], items[|items| - 1];
      NameSetIs(front, name);
      assert items == front + [last];
      NamesConcat(front, [last]);
      assert [last][1..] == [];
      assert Names([last]) == [last.name];
    }
  }

  lemma {:induction false} UnlistedIff(place: Place, active: seq<string>, listed: set<string>)
    ensures Unlisted(place, active, listed) == [] <==> forall i | 0 <= i < |active| :: active[i] in listed
  {
    if active != [] {
      var front := active[..|active| - 1];
      UnlistedIff(place, front, listed);
      assert forall i | 0 <= i < |front| :: front[i] == active[i];
    }
  }

  /** The checker has no warning about a README exactly if it names every file of the lane. */
  lemma NoWarningsIff(w: World, place: Place, active: seq<string>)
    requires place in w.readmes
    ensures QueueWarnings(w, place, active) == [] <==>
            forall i | 0 <= i < |active| :: active[i] in ListOf(place, w.readmes[place])
  {
    var items := QueueOf(place, w.readmes[place]);
    UnlistedIff(place, active, NameSet(items));
    forall name ensures name in NameSet(items) <==> name in ListOf(place, w.readmes[place]) {
      NameSetIs(items, name);
    }
    if active != [] && NameSet(items) == {} {
      assert active[0] !in NameSet(items);
    }
  }

  ghost predicate IsLaneListing(w: World, place: Place, names: seq<string>) {
    forall name :: name in names <==> IsItemSlot(w, Slot(place, name))
  }

  lemma {:induction false} NumberedAt(names: seq<string>, n: nat, i: nat)
    requires i < |names|
    ensures |Numbered(names, n)| == |names| && Numbered(names, n)[i].raw == names[i]
  {
    if i > 0 {
      NumberedAt(names[1..], n + 1, i - 1);
    } else if |names| > 1 {
      NumberedAt(names[1..], n + 1, 0);
    }
  }

  lemma ListedRaw(w: World, place: Place, i: nat)
    requires place in w.readmes && GoodReadme(w, place)
    ensures |QueueOf(place, w.readmes[place])| == |ListOf(place, w.readmes[place])|
    ensures i < |ListOf(place, w.readmes[place])| ==>
              QueueOf(place, w.readmes[place])[i].raw == ListOf(place, w.readmes[place])[i]
  {
    var names := ListOf(place, w.readmes[place]);
    if i < |names| {
      NumberedAt(names, 1, i);
    } else if names != [] {
      NumberedAt(names, 1, 0);
    }
  }

  lemma HealthyQueueIsThere(w: World, place: Place, i: nat, elsewhere: string -> bool)
    requires Healthy(w) && place in w.readmes && i < |QueueOf(place, w.readmes[place])|
    ensures IsFileAt(w, place, QueueOf(place, w.readmes[place])[i].raw, elsewhere)
  {
    assert GoodReadme(w, place);
    ListedRaw(w, place, i);
    var name := ListOf(place, w.readmes[place])[i];
    assert name in ListOf(place, w.readmes[place]);
    assert IsItemSlot(w, Slot(place, name));
    SafeNameIsItsPath(name);
  }

  /** On a board in order, the checker finds nothing. */
  lemma HealthyPasses(w: World, slots: seq<Slot>, place: Place, active: seq<string>, elsewhere: string -> bool)
    requires Healthy(w) && IsListing(w, slots) && IsLaneListing(w, place, active)
    ensures AreFiles(w, slots) && AllFindings(w, slots, map[]) == []
    ensures QueueFailures(w, place, elsewhere) == [] && QueueWarnings(w, place, active) == []
  {
    NoFindingsOnBoardIff(w, slots);
    forall slot | IsItemSlot(w, slot) ensures IsConsistent(slot, w.files[slot]) {
      HealthyItemsAreConsistent(w, slot);
    }
    if place in w.readmes {
      MissingIff(place, QueueOf(place, w.readmes[place]), FilesAt(w, place, elsewhere));
      forall i: nat | i < |QueueOf(place, w.readmes[place])|
        ensures IsFileAt(w, place, QueueOf(place, w.readmes[place])[i].raw, elsewhere) {
        HealthyQueueIsThere(w, place, i, elsewhere);
      }
      NoWarningsIff(w, place, active);
      assert GoodReadme(w, place);
      assert forall i | 0 <= i < |active| :: active[i] in active;
    }
  }

  /** After any run of moves, neither the checks of the items nor those of a queue find anything. */
  lemma RunPasses(
    t: Trace, qs: seq<Request>, slots: seq<Slot>, place: Place, active: seq<string>, elsewhere: string -> bool)
    requires Healthy(t.world) && InOrder(t) && IsRun(t, qs)
    requires IsListing(Run(t, qs).world, slots) && IsLaneListing(Run(t, qs).world, place, active)
    ensures AreFiles(Run(t, qs).world, slots) && AllFindings(Run(t, qs).world, slots, map[]) == []
    ensures QueueFailures(Run(t, qs).world, place, elsewhere) == []
    ensures QueueWarnings(Run(t, qs).world, place, active) == []
  {
    RunKeeps(t, qs);
    HealthyPasses(Run(t, qs).world, slots, place, active, elsewhere);
  }

  // ---------------------------------------------------------------- stopped moves are noticed

  /** Stopped between the rename and the unlinking, the move leaves two items with one id: a failure. */
  lemma TwoCopiesAreNoticed(w: World, q: Request, p: Plan, slots: seq<Slot>)
    requires Healthy(w) && IsItemPlan(w, q, p) && IsListing(AfterSteps(w, p, 2), slots)
    ensures AreFiles(AfterSteps(w, p, 2), slots) && AllFindings(AfterSteps(w, p, 2), slots, map[]) != []
  {
    NoFindingsOnBoardIff(AfterSteps(w, p, 2), slots);
    TwoCopies(w, q, p);
  }

  /** Stopped before the old lane's README is synced: a failure if it is the active one that is checked. */
  lemma StaleEntryIsNoticed(w: World, q: Request, p: Plan, elsewhere: string -> bool)
    requires Healthy(w) && IsItemPlan(w, q, p) && p.from in w.readmes
    ensures QueueFailures(AfterSteps(w, p, 3), p.from, elsewhere) != []
  {
    var v := AfterSteps(w, p, 3);
    var names := ListOf(p.from, w.readmes[p.from]);
    PlanFacts(w, q);
    StepsUnfold(w, p);
    assert GoodReadme(w, p.from) && IsItemSlot(w, p.Source());
    assert p.Source() == Slot(p.from, p.name) && p.name in names;
    var i :| 0 <= i < |names| && names[i] == p.name;
    ListedRaw(w, p.from, i);
    FilesAtStep(w, p, 3, p.Source());
    SafeNameIsItsPath(p.name);
    MissingIff(p.from, QueueOf(p.from, v.readmes[p.from]), FilesAt(v, p.from, elsewhere));
    assert !IsFileAt(v, p.from, QueueOf(p.from, v.readmes[p.from])[i].raw, elsewhere);
  }

  /** Stopped before the new lane's README is synced: a warning. */
  lemma MissingEntryIsNoticed(w: World, q: Request, p: Plan, k: nat, active: seq<string>)
    requires Healthy(w) && IsItemPlan(w, q, p) && p.to in w.readmes && 3 <= k <= 4
    requires IsLaneListing(AfterSteps(w, p, k), p.to, active)
    ensures QueueWarnings(AfterSteps(w, p, k), p.to, active) != []
  {
    var v := AfterSteps(w, p, k);
    PlanFacts(w, q);
    ToBeforeSync(w, p, k);
    FilesAtStep(w, p, k, p.Target());
    assert GoodReadme(w, p.to) && !IsItemSlot(w, p.Target());
    assert IsItemSlot(v, Slot(p.to, p.name)) && p.name in active;
    NoWarningsIff(v, p.to, active);
    var i :| 0 <= i < |active| && active[i] == p.name;
  }

  // ---------------------------------------------------------------- the next item

  /** The first path on a list that leads to a file. */
  function FirstThere(items: seq<Item>, isFile: string -> bool): Option<string> {
    if items == [] then None
    else if isFile(items[0].raw) then Some(items[0].raw)
    else FirstThere(items[1..], isFile)
  }

  /** The choice of the next item; `listing` is the sorted listing of the lane. */
  function TopItem(w: World, place: Place, listing: seq<string>, elsewhere: string -> bool): Option<string> {
    var first :=
      if place in w.readmes then FirstThere(QueueOf(place, w.readmes[place]), FilesAt(w, place, elsewhere)) else None;
    if first.Some? then first else if listing != [] then Some(listing[0]) else None
  }

  lemma {:induction false} FirstThereConcat(a: seq<Item>, b: seq<Item>, isFile: string -> bool)
    ensures FirstThere(a + b, isFile) ==
            if FirstThere(a, isFile).Some? then FirstThere(a, isFile)
            else FirstThere(b, isFile)
  {
    if a == [] {
      assert a + b == b;
    } else {
      assert (a + b)[1..] == a[1..] + b;
      FirstThereConcat(a[1..], b, isFile);
    }
  }

  lemma FirstThereNext(place: Place, lines: Text, i: nat, isFile: string -> bool)
    requires i < |lines| && FirstThere(QueueOf(place, lines[..i]), isFile).None?
    ensures FirstThere(QueueOf(place, lines[..i + 1]), isFile) ==
            if ItemOf(lines[i]).Some? && isFile(ItemOf(lines[i]).value.raw)
            then Some(ItemOf(lines[i]).value.raw) else None
  {
    QueueOfNext(place, lines, i);
    if ItemOf(lines[i]).Some? {
      var item := ItemOf(lines[i]).value;
      FirstThereConcat(QueueOf(place, lines[..i]), [item], isFile);
      assert [item][1..] == [];
      assert FirstThere([], isFile) == None;
    }
  }

  lemma QueueOfHalves(place: Place, lines: Text, i: nat)
    requires i <= |lines|
    ensures QueueOf(place, lines) == QueueOf(place, lines[..i]) + QueueOf(place, lines[i..])
  {
    assert lines == lines[..i] + lines[i..];
    QueueConcat(LaneFormat(place), lines[..i], lines[i..]);
  }

  lemma FirstThereStays(place: Place, lines: Text, i: nat, isFile: string -> bool)
    requires i <= |lines| && FirstThere(QueueOf(place, lines[..i]), isFile).Some?
    ensures FirstThere(QueueOf(place, lines), isFile)
            == FirstThere(QueueOf(place, lines[..i]), isFile)
  {
    QueueOfHalves(place, lines, i);
    FirstThereConcat(QueueOf(place, lines[..i]), QueueOf(place, lines[i..]), isFile);
  }

  method SelectTopItem(w: World, place: Place, listing: seq<string>, elsewhere: string -> bool)
    returns (top: Option<string>)
    ensures top == TopItem(w, place, listing, elsewhere)
  {
    if place in w.readmes {
      var lines, isFile := w.readmes[place], FilesAt(w, place, elsewhere);
      QueueEnds(place, lines);
      for i := 0 to |lines|
        invariant FirstThere(QueueOf(place, lines[..i]), isFile).None?
      {
        FirstThereNext(place, lines, i, isFile);
        var item := ItemOf(lines[i]);
        if item.Some? && isFile(item.value.raw) {
          FirstThereStays(place, lines, i + 1, isFile);
          return Some(item.value.raw);
        }
      }
    }
    return if listing != [] then Some(listing[0]) else None;
  }

  lemma HealthyTop(w: World, place: Place, listing: seq<string>, elsewhere: string -> bool)
    requires Healthy(w) && place in w.readmes && IsLaneListing(w, place, listing)
    ensures var names := ListOf(place, w.readmes[place]);
            TopItem(w, place, listing, elsewhere) == if names == [] then None else Some(names[0])
  {
    var names := ListOf(place, w.readmes[place]);
    assert GoodReadme(w, place);
    ListedRaw(w, place, 0);
    assert listing != [] ==> listing[0] in listing;
    if names != [] {
      HealthyQueueIsThere(w, place, 0, elsewhere);
    }
  }

  /** First in, first out: after any run of moves, the next item of a lane with a README is the one that
      came into it before all others that are there, and there is none exactly if the lane is empty. */
  lemma TopItemCameFirst(
    t: Trace, qs: seq<Request>, place: Place, listing: seq<string>, elsewhere: string -> bool)
    requires Healthy(t.world) && InOrder(t) && IsRun(t, qs) && place in t.world.readmes
    requires IsLaneListing(Run(t, qs).world, place, listing)
    ensures var end, top := Run(t, qs), TopItem(Run(t, qs).world, place, listing, elsewhere);
            && (top.None? <==> forall name :: !IsItemSlot(end.world, Slot(place, name)))
            && (top.Some? ==>
                  && IsItemSlot(end.world, Slot(place, top.value))
                  && forall name | IsItemSlot(end.world, Slot(place, name)) && name != top.value ::
                       Stamp(end, place, top.value) < Stamp(end, place, name))
  {
    RunKeeps(t, qs);
    var end := Run(t, qs);
    HealthyTop(end.world, place, listing, elsewhere);
    forall name | IsItemSlot(end.world, Slot(place, name))
      ensures var names := ListOf(place, end.world.readmes[place]);
              && names != [] && IsItemSlot(end.world, Slot(place, names[0]))
              && (name != names[0] ==> Stamp(end, place, names[0]) < Stamp(end, place, name)) {
      FirstCameFirst(end, place, Slot(place, name));
    }
    var names := ListOf(place, end.world.readmes[place]);
    assert GoodReadme(end.world, place);
    if names != [] {
      assert names[0] in names;
    }
  }
}
