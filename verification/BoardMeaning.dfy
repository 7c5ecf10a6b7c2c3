/** What a move is refused for, what the checker reports, and which item is next, in terms of the files. */
module BoardMeaning {
  import opened Options
  import opened Strings
  import opened ItemText
  import opened LaneQueue
  import opened QueueFormat
  import opened QueueLaws
  import opened Lanes
  import opened LaneRuns
  import opened WorkflowCheck
  import opened BoardAgreement

  // ---------------------------------------------------------------- which file is meant, and why a move is refused

  /** The argument of a move names this file of the lane: by its name, by its name without extension, or by its id. */
  ghost predicate IsMeant(w: World, place: Place, item: string, name: string) {
    && Slot(place, name) in w.files
    && (|| name == PathName(item)
        || (name == PathName(item) + ".md" && !EndsWith(PathName(item), ".md"))
        || (EndsWith(name, ".md") && ItemId(w.files[Slot(place, name)]) == item))
  }

  lemma CandidatesAreMeant(w: World, place: Place, item: string)
    ensures forall name :: name in Candidates(w.files, place, item) <==> IsMeant(w, place, item, name)
  {
    forall name ensures name in Candidates(w.files, place, item) <==> IsMeant(w, place, item, name) {
      if IsMeant(w, place, item, name) {
        assert IsCandidate(name, w.files[Slot(place, name)], item);
      }
    }
  }

  lemma TwoOrMore<T>(s: set<T>)
    ensures |s| > 1 <==> exists x, y :: x in s && y in s && x != y
  {
    if |s| > 1 {
      var x :| x in s;
      assert |s - {x}| > 0;
      var y :| y in s - {x};
    }
    if x, y :| x in s && y in s && x != y {
      assert y in s - {x};
      assert |s - {x}| > 0;
    }
  }

  /** A move is refused if its argument means no file of the lane, or more than one. */
  lemma RefusedFor(w: World, q: Request)
    ensures PlanOf(w, q) == NotFound <==> forall name :: !IsMeant(w, Place(q.domain, q.from), q.item, name)
    ensures PlanOf(w, q) == Ambiguous <==>
            exists a, b :: IsMeant(w, Place(q.domain, q.from), q.item, a) && IsMeant(w, Place(q.domain, q.from), q.item, b) && a != b
  {
    var candidates := Candidates(w.files, Place(q.domain, q.from), q.item);
    CandidatesAreMeant(w, Place(q.domain, q.from), q.item);
    TwoOrMore(candidates);
    assert candidates == {} <==> forall name :: name !in candidates;
  }

  /** When it means one file, the target lane and the text decide: the name must be free there, and the text must have a
      status. */
  lemma DecidedBy(w: World, q: Request, name: string)
    requires IsMeant(w, Place(q.domain, q.from), q.item, name)
    requires forall other | IsMeant(w, Place(q.domain, q.from), q.item, other) :: other == name
    ensures PlanOf(w, q) ==
            var from, to := Place(q.domain, q.from), Place(q.domain, q.to);
            if Slot(to, name) in w.files then TargetExists
            else
              match NewText(w.files[Slot(from, name)], q)
              case None => MissingStatus
              case Some(text) => Planned(Plan(name, from, to, text))
  {
    var candidates := Candidates(w.files, Place(q.domain, q.from), q.item);
    CandidatesAreMeant(w, Place(q.domain, q.from), q.item);
    TwoOrMore(candidates);
    assert candidates == {name};
  }

  // ---------------------------------------------------------------- what is reported about an item

  predicate IsOneOfSeven(s: string) {
    s == "intake" || s == "ready" || s == "active" || s == "qa" || s == "done" || s == "blocked" || s == "archive"
  }

  lemma LaneNamesMean(s: string)
    ensures IsLaneName(s) <==> IsOneOfSeven(s)
  {
    assert LaneName(Intake) == "intake" && LaneName(Ready) == "ready" && LaneName(Active) == "active" && LaneName(Qa) == "qa";
    assert LaneName(Done) == "done" && LaneName(Blocked) == "blocked" && LaneName(Archive) == "archive";
  }

  /** What each failure of an item says. */
  lemma FailureMeans(slot: Slot, text: Text, seen: map<string, Slot>, finding: Finding)
    ensures finding in ItemFindings(slot, text, seen) <==>
            var id, status := Get(Metadata(text), "id").GetOr(""), Get(Metadata(text), "status").GetOr("");
            var frontId, frontStatus := Get(Frontmatter(text), "id").GetOr(""), Get(Frontmatter(text), "status").GetOr("");
            match finding
            case MissingId(s) => s == slot && id == ""
            case DuplicateId(s, first) => s == slot && id != "" && Get(seen, id) == Some(first)
            case MissingItemStatus(s) => s == slot && status == ""
            case InvalidStatus(s) => s == slot && status != "" && !IsOneOfSeven(status)
            case WrongLane(s) => s == slot && IsOneOfSeven(status) && status != LaneName(slot.place.lane)
            case FrontmatterId(s) => s == slot && frontId != "" && id != "" && frontId != id
            case FrontmatterStatus(s) => s == slot && frontStatus != "" && status != "" && frontStatus != status
            case _ => false
  {
    var id, status := IdOf(text), Field(Metadata(text), "status");
    LaneNamesMean(status);
    var a, b, c := IdFindings(slot, id, seen), StatusFindings(slot, status), FrontmatterFindings(slot, id, status, Frontmatter(text));
    assert finding in a + b + c <==> finding in a || finding in b || finding in c;
  }

  lemma {:induction false} LackingMeans(slot: Slot, front: map<string, string>, keys: seq<string>, finding: Finding)
    ensures finding in Lacking(slot, front, keys) <==>
            finding.FrontmatterLacks? && finding.slot == slot && finding.key in keys && finding.key !in front
  {
    if keys != [] {
      var rest, last := keys[..|keys| - 1], keys[|keys| - 1];
      LackingMeans(slot, front, rest, finding);
      assert keys == rest + [last];
    }
  }

  /** What each warning about an item says. */
  lemma WarningMeans(slot: Slot, front: map<string, string>, finding: Finding)
    ensures finding in FrontmatterWarnings(slot, front) <==>
            match finding
            case NoFrontmatter(s) => s == slot && front == map[]
            case FrontmatterLacks(s, key) => s == slot && front != map[] && key !in front && key in {"kind", "id", "status", "ready"}
            case _ => false
  {
    LackingMeans(slot, front, FRONTMATTER_KEYS, finding);
  }

  /** The item at `i` is the first with this id. */
  ghost predicate IsFirstWith(w: World, slots: seq<Slot>, i: nat, id: string)
    requires AreFiles(w, slots)
  {
    i < |slots| && IdOf(w.files[slots[i]]) == id && forall k | 0 <= k < i :: IdOf(w.files[slots[k]]) != id
  }

  lemma FirstWithBehind(w: World, slots: seq<Slot>, i: nat, id: string)
    requires slots != [] && AreFiles(w, slots) && AreFiles(w, slots[1..])
    requires IdOf(w.files[slots[0]]) != id && IsFirstWith(w, slots[1..], i, id)
    ensures IsFirstWith(w, slots, i + 1, id)
  {
    assert forall k | 0 < k < |slots| :: slots[k] == slots[1..][k - 1];
  }

  lemma DuplicateHere(w: World, slots: seq<Slot>, seen: map<string, Slot>, slot: Slot, first: Slot)
    requires slots != [] && AreFiles(w, slots) && DuplicateId(slot, first) in AllFindings(w, slots, seen)
    ensures AreFiles(w, slots[1..])
    ensures var id := IdOf(w.files[slots[0]]);
            || (slot == slots[0] && id != "" && Get(seen, id) == Some(first))
            || DuplicateId(slot, first) in AllFindings(w, slots[1..], SeenAfter(slots[0], id, seen))
  {
    FailureMeans(slots[0], w.files[slots[0]], seen, DuplicateId(slot, first));
  }

  /** The item at `j` has an id that was seen before, or else one whose first item is the one at `i`. */
  ghost predicate IsSecondTo(w: World, slots: seq<Slot>, seen: map<string, Slot>, slot: Slot, first: Slot, i: nat, j: nat)
    requires AreFiles(w, slots)
  {
    && j < |slots| && slots[j] == slot && IdOf(w.files[slot]) != ""
    && var id := IdOf(w.files[slot]);
       if id in seen then first == seen[id] else i < j && slots[i] == first && IsFirstWith(w, slots, i, id)
  }

  lemma SecondBehind(w: World, slots: seq<Slot>, seen: map<string, Slot>, slot: Slot, first: Slot, i: nat, j: nat)
    requires slots != [] && AreFiles(w, slots) && AreFiles(w, slots[1..])
    requires IsSecondTo(w, slots[1..], SeenAfter(slots[0], IdOf(w.files[slots[0]]), seen), slot, first, i, j)
    ensures IsSecondTo(w, slots, seen, slot, first, if IdOf(w.files[slots[0]]) == IdOf(w.files[slot]) then 0 else i + 1, j + 1)
  {
    if IdOf(w.files[slot]) !in seen && IdOf(w.files[slots[0]]) != IdOf(w.files[slot]) {
      FirstWithBehind(w, slots, i, IdOf(w.files[slot]));
    }
  }

  /** A duplicate is reported against the first item with its id. */
  lemma {:induction false} DuplicateMeans(w: World, slots: seq<Slot>, seen: map<string, Slot>, slot: Slot, first: Slot)
      returns (i: nat, j: nat)
    requires AreFiles(w, slots) && DuplicateId(slot, first) in AllFindings(w, slots, seen)
    ensures IsSecondTo(w, slots, seen, slot, first, i, j)
    decreases |slots|
  {
    var id := IdOf(w.files[slots[0]]);
    DuplicateHere(w, slots, seen, slot, first);
    if slot == slots[0] && id != "" && Get(seen, id) == Some(first) {
      return 0, 0;
    }
    i, j := DuplicateMeans(w, slots[1..], SeenAfter(slots[0], id, seen), slot, first);
    SecondBehind(w, slots, seen, slot, first, i, j);
    i, j := if id == IdOf(w.files[slot]) then 0 else i + 1, j + 1;
  }

  // ---------------------------------------------------------------- what is reported about a queue

  lemma {:induction false} MissingMeans(place: Place, items: seq<Item>, isFile: string -> bool, finding: Finding)
    ensures finding in Missing(place, items, isFile) <==>
            exists i :: 0 <= i < |items| && !isFile(items[i].raw) && finding == MissingFile(place, items[i].raw)
  {
    if items != [] {
      var rest, last := items[..|items| - 1], items[|items| - 1];
      MissingMeans(place, rest, isFile, finding);
      assert items == rest + [last];
      assert finding in Missing(place, items, isFile) <==>
             finding in Missing(place, rest, isFile) || (!isFile(last.raw) && finding == MissingFile(place, last.raw));
    }
  }

  lemma {:induction false} UnlistedMeans(place: Place, active: seq<string>, listed: set<string>, finding: Finding)
    ensures finding in Unlisted(place, active, listed) <==>
            exists i :: 0 <= i < |active| && active[i] !in listed && finding == NotListed(Slot(place, active[i]))
  {
    if active != [] {
      var rest, last := active[..|active| - 1], active[|active| - 1];
      UnlistedMeans(place, rest, listed, finding);
      assert active == rest + [last];
      assert finding in Unlisted(place, active, listed) <==>
             finding in Unlisted(place, rest, listed) || (last !in listed && finding == NotListed(Slot(place, last)));
    }
  }

  /** The failures of a README are its items whose paths lead nowhere. */
  lemma QueueFailureMeans(w: World, place: Place, elsewhere: string -> bool, finding: Finding)
    ensures finding in QueueFailures(w, place, elsewhere) <==>
            && place in w.readmes
            && exists i :: 0 <= i < |QueueOf(place, w.readmes[place])| &&
                 var raw := QueueOf(place, w.readmes[place])[i].raw;
                 !IsFileAt(w, place, raw, elsewhere) && finding == MissingFile(place, raw)
  {
    if place in w.readmes {
      MissingMeans(place, QueueOf(place, w.readmes[place]), FilesAt(w, place, elsewhere), finding);
    }
  }

  /** Its warnings are the files of the lane that it does not name, or one warning for all of them if it names nothing. */
  lemma QueueWarningMeans(w: World, place: Place, active: seq<string>, finding: Finding)
    ensures finding in QueueWarnings(w, place, active) <==>
            && place in w.readmes && active != []
            && var names := Names(QueueOf(place, w.readmes[place]));
               if names == [] then finding == NoEntries(place)
               else exists i :: 0 <= i < |active| && active[i] !in names && finding == NotListed(Slot(place, active[i]))
  {
    if place in w.readmes {
      var items := QueueOf(place, w.readmes[place]);
      UnlistedMeans(place, active, NameSet(items), finding);
      forall name ensures name in NameSet(items) <==> name in Names(items) {
        NameSetIs(items, name);
      }
      if Names(items) != [] {
        assert Names(items)[0] in NameSet(items);
      }
    }
  }

  /** A plain name is looked up in the lane itself, where the README is a file too. */
  lemma FileAtMeans(w: World, place: Place, raw: string, elsewhere: string -> bool)
    requires '/' !in raw && raw != "" && raw != "."
    ensures IsFileAt(w, place, raw, elsewhere) <==> Slot(place, raw) in w.files || (raw == "README.md" && place in w.readmes)
  {
    SplitWhole(raw, '/');
    assert [raw][1..] == [] && Components([raw]) == [raw];
  }

  // ---------------------------------------------------------------- the next item

  lemma {:induction false} FirstThereMeans(items: seq<Item>, isFile: string -> bool, i: nat)
    ensures FirstThere(items, isFile).None? <==> forall k | 0 <= k < |items| :: !isFile(items[k].raw)
    ensures i < |items| && isFile(items[i].raw) && (forall k | 0 <= k < i :: !isFile(items[k].raw)) ==>
              FirstThere(items, isFile) == Some(items[i].raw)
  {
    if items != [] {
      var rest := items[1..];
      assert items == [items[0]] + rest;
      assert forall k | 0 <= k < |rest| :: rest[k] == items[k + 1];
      FirstThereMeans(rest, isFile, if i == 0 then 0 else i - 1);
    }
  }

  /** The next item is the first on the list whose path leads to a file; without a README, or when no path on it does,
      it is the first file of the lane. */
  lemma TopItemMeans(w: World, place: Place, listing: seq<string>, elsewhere: string -> bool, i: nat)
    ensures place in w.readmes ==>
              var items := QueueOf(place, w.readmes[place]);
              i < |items| && IsFileAt(w, place, items[i].raw, elsewhere)
              && (forall k | 0 <= k < i :: !IsFileAt(w, place, items[k].raw, elsewhere)) ==>
                TopItem(w, place, listing, elsewhere) == Some(items[i].raw)
    ensures (place in w.readmes ==> forall item | item in QueueOf(place, w.readmes[place]) :: !IsFileAt(w, place, item.raw, elsewhere)) ==>
              TopItem(w, place, listing, elsewhere) == if listing == [] then None else Some(listing[0])
  {
    if place in w.readmes {
      FirstThereMeans(QueueOf(place, w.readmes[place]), FilesAt(w, place, elsewhere), i);
    }
  }
}
