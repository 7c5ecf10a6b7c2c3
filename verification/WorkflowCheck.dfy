/** The two readers of the board: `validate_workflow_state.py`, which looks for contradictions, and the
    choice of the next item in `stage_context.py`. */
module WorkflowCheck {
  import opened Options
  import opened Strings
  import opened ItemText
  import opened LaneQueue
  import opened QueueFormat
  import opened QueueLaws
  import opened Lanes
  import opened LaneRuns

  datatype Finding =
    | MissingId(slot: Slot)
    | DuplicateId(slot: Slot, first: Slot)
    | MissingItemStatus(slot: Slot)
    | InvalidStatus(slot: Slot)
    | WrongLane(slot: Slot)
    | FrontmatterId(slot: Slot)
    | FrontmatterStatus(slot: Slot)
    | NoFrontmatter(slot: Slot)
    | FrontmatterLacks(slot: Slot, key: string)
    | MissingFile(place: Place, raw: string)
    | NoEntries(place: Place)
    | NotListed(slot: Slot)

  function Field(values: map<string, string>, key: string): string {
    Get(values, key).GetOr("")
  }

  predicate IsLaneName(s: string) {
    exists lane: Lane :: LaneName(lane) == s
  }

  // ---------------------------------------------------------------- the items

  function IdFindings(slot: Slot, id: string, seen: map<string, Slot>): seq<Finding> {
    if id == "" then [MissingId(slot)]
    else if id in seen then [DuplicateId(slot, seen[id])]
    else []
  }

  function StatusFindings(slot: Slot, status: string): seq<Finding> {
    if status == "" then [MissingItemStatus(slot)]
    else if !IsLaneName(status) then [InvalidStatus(slot)]
    else if status != LaneName(slot.place.lane) then [WrongLane(slot)]
    else []
  }

  function FrontmatterFindings(slot: Slot, id: string, status: string, front: map<string, string>): seq<Finding> {
    (if Field(front, "id") != "" && id != "" && Field(front, "id") != id then [FrontmatterId(slot)] else [])
    + if Field(front, "status") != "" && status != "" && Field(front, "status") != status
      then [FrontmatterStatus(slot)] else []
  }

  const FRONTMATTER_KEYS := ["kind", "id", "status", "ready"]

  function Lacking(slot: Slot, front: map<string, string>, keys: seq<string>): seq<Finding> {
    if keys == [] then []
    else
      Lacking(slot, front, keys[..|keys| - 1])
      + if keys[|keys| - 1] in front then [] else [FrontmatterLacks(slot, keys[|keys| - 1])]
  }

  function FrontmatterWarnings(slot: Slot, front: map<string, string>): seq<Finding> {
    if front == map[] then [NoFrontmatter(slot)] else Lacking(slot, front, FRONTMATTER_KEYS)
  }

  function WarningsOf(w: World, slot: Slot): seq<Finding>
    requires slot in w.files
  {
    FrontmatterWarnings(slot, Frontmatter(w.files[slot]))
  }

  /** All warnings about items, when they are visited in this order. */
  function AllWarnings(w: World, slots: seq<Slot>): seq<Finding>
    requires forall i | 0 <= i < |slots| :: slots[i] in w.files
  {
    if slots == [] then []
    else
      AllWarnings(w, slots[..|slots| - 1]) + WarningsOf(w, slots[|slots| - 1])
  }

  function ItemFindings(slot: Slot, text: Text, seen: map<string, Slot>): seq<Finding> {
    var id, status := IdOf(text), Field(Metadata(text), "status");
    IdFindings(slot, id, seen) + StatusFindings(slot, status) + FrontmatterFindings(slot, id, status, Frontmatter(text))
  }

  function SeenAfter(slot: Slot, id: string, seen: map<string, Slot>): map<string, Slot> {
    if id == "" || id in seen then seen else seen[id := slot]
  }

  /** All findings, when the items are visited in this order. */
  function AllFindings(w: World, slots: seq<Slot>, seen: map<string, Slot>): seq<Finding>
    requires forall i | 0 <= i < |slots| :: slots[i] in w.files
    decreases |slots|
  {
    if slots == [] then []
    else
      ItemFindings(slots[0], w.files[slots[0]], seen)
      + AllFindings(w, slots[1..], SeenAfter(slots[0], IdOf(w.files[slots[0]]), seen))
  }

  class Checker {
    var failures: seq<Finding>
    var warnings: seq<Finding>
    var seenIds: map<string, Slot>

    constructor ()
      ensures failures == [] && warnings == [] && seenIds == map[]
    {
      failures, warnings, seenIds := [], [], map[];
    }

    method CheckId(slot: Slot, id: string)
      modifies this
      ensures failures == old(failures) + IdFindings(slot, id, old(seenIds))
      ensures seenIds == SeenAfter(slot, id, old(seenIds))
      ensures warnings == old(warnings)
    {
      if id == "" {
        failures := failures + [MissingId(slot)];
      } else if id in seenIds {
        failures := failures + [DuplicateId(slot, seenIds[id])];
      } else {
        seenIds := seenIds[id := slot];
      }
    }

    method CheckStatus(slot: Slot, status: string)
      modifies this
      ensures failures == old(failures) + StatusFindings(slot, status)
      ensures seenIds == old(seenIds) && warnings == old(warnings)
    {
      if status == "" {
        failures := failures + [MissingItemStatus(slot)];
      } else if !IsLaneName(status) {
        failures := failures + [InvalidStatus(slot)];
      } else if status != LaneName(slot.place.lane) {
        failures := failures + [WrongLane(slot)];
      }
    }

    method WarnFrontmatter(slot: Slot, front: map<string, string>)
      modifies this
      ensures warnings == old(warnings) + FrontmatterWarnings(slot, front)
      ensures failures == old(failures) && seenIds == old(seenIds)
    {
      if front == map[] {
        warnings := warnings + [NoFrontmatter(slot)];
        return;
      }
      var keys := FRONTMATTER_KEYS;
      for i := 0 to |keys|
        invariant failures == old(failures) && seenIds == old(seenIds)
        invariant warnings == old(warnings) + Lacking(slot, front, keys[..i])
      {
        assert keys[..i + 1][..i] == keys[..i];
        if keys[i] !in front {
          warnings := warnings + [FrontmatterLacks(slot, keys[i])];
        }
      }
      assert keys[..|keys|] == keys;
    }

    method CheckFrontmatter(slot: Slot, id: string, status: string, front: map<string, string>)
      modifies this
      ensures failures == old(failures) + FrontmatterFindings(slot, id, status, front)
      ensures seenIds == old(seenIds) && warnings == old(warnings)
    {
      if Field(front, "id") != "" && id != "" && Field(front, "id") != id {
        failures := failures + [FrontmatterId(slot)];
      }
      if Field(front, "status") != "" && status != "" && Field(front, "status") != status {
        failures := failures + [FrontmatterStatus(slot)];
      }
    }

    /** The checks of an item's id, status and frontmatter. Without frontmatter the source skips the last
        checks, which then have nothing to compare. */
    method ValidateItemFile(slot: Slot, text: Text)
      modifies this
      ensures failures == old(failures) + ItemFindings(slot, text, old(seenIds))
      ensures warnings == old(warnings) + FrontmatterWarnings(slot, Frontmatter(text))
      ensures seenIds == SeenAfter(slot, IdOf(text), old(seenIds))
    {
      var values, front := Metadata(text), Frontmatter(text);
      var id, status := Field(values, "id"), Field(values, "status");
      CheckId(slot, id);
      CheckStatus(slot, status);
      WarnFrontmatter(slot, front);
      CheckFrontmatter(slot, id, status, front);
    }

    method ValidateItems(w: World, slots: seq<Slot>)
      requires forall i | 0 <= i < |slots| :: slots[i] in w.files
      modifies this
      ensures failures == old(failures) + AllFindings(w, slots, old(seenIds))
      ensures warnings == old(warnings) + AllWarnings(w, slots)
    {
      assert slots[0..] == slots && slots[..0] == [];
      for i := 0 to |slots|
        invariant warnings == old(warnings) + AllWarnings(w, slots[..i])
        invariant old(failures) + AllFindings(w, slots, old(seenIds)) == failures + AllFindings(w, slots[i..], seenIds)
      {
        AllFindingsNext(w, slots, i, seenIds);
        AllWarningsNext(w, slots, i, old(warnings));
        ConcatAssociative(
          failures, ItemFindings(slots[i], w.files[slots[i]], seenIds),
          AllFindings(w, slots[i + 1..], SeenAfter(slots[i], IdOf(w.files[slots[i]]), seenIds)));
        ValidateItemFile(slots[i], w.files[slots[i]]);
      }
      assert slots[..|slots|] == slots;
    }

    method VisitLine(place: Place, line: string, isFile: string -> bool, listed: set<string>) returns (next: set<string>)
      modifies this
      ensures next == listed + NameIn(line)
      ensures failures == old(failures) + MissingIn(place, line, isFile)
      ensures warnings == old(warnings) && seenIds == old(seenIds)
    {
      next := listed;
      var item := ItemOf(line);
      if item.Some? {
        next := next + {item.value.name};
        if !isFile(item.value.raw) {
          failures := failures + [MissingFile(place, item.value.raw)];
        }
      }
    }

    /** The first loop: what the README lists, and whether it is there. */
    method CollectListed(place: Place, lines: Text, isFile: string -> bool) returns (listed: set<string>)
      modifies this
      ensures listed == NameSet(QueueOf(place, lines))
      ensures failures == old(failures) + Missing(place, QueueOf(place, lines), isFile)
      ensures warnings == old(warnings) && seenIds == old(seenIds)
    {
      listed := {};
      ghost var before := failures;
      QueueEnds(place, lines);
      for i := 0 to |lines|
        invariant warnings == old(warnings) && seenIds == old(seenIds)
        invariant failures == before + Missing(place, QueueOf(place, lines[..i]), isFile)
        invariant listed == NameSet(QueueOf(place, lines[..i]))
      {
        OneMoreLine(place, lines, i, isFile);
        ConcatAssociative(before, Missing(place, QueueOf(place, lines[..i]), isFile), MissingIn(place, lines[i], isFile));
        listed := VisitLine(place, lines[i], isFile, listed);
      }
    }

    /** The second loop: files that are not listed. */
    method WarnUnlisted(place: Place, active: seq<string>, listed: set<string>)
      modifies this
      ensures warnings == old(warnings) + Unlisted(place, active, listed)
      ensures failures == old(failures) && seenIds == old(seenIds)
    {
      for i := 0 to |active|
        invariant failures == old(failures) && seenIds == old(seenIds)
        invariant warnings == old(warnings) + Unlisted(place, active[..i], listed)
      {
        assert active[..i + 1][..i] == active[..i];
        if active[i] !in listed {
          warnings := warnings + [NotListed(Slot(place, active[i]))];
        }
      }
      assert active[..|active|] == active;
    }

    /** `elsewhere` tells which paths other than plain names in the lane are files; `active` is the
        sorted listing of the lane. */
    method ValidateActiveQueue(w: World, place: Place, active: seq<string>, elsewhere: string -> bool)
      modifies this
      ensures failures == old(failures) + QueueFailures(w, place, elsewhere)
      ensures warnings == old(warnings) + QueueWarnings(w, place, active)
      ensures seenIds == old(seenIds)
    {
      if place !in w.readmes {
        return;
      }
      var listed := CollectListed(place, w.readmes[place], FilesAt(w, place, elsewhere));
      if active != [] && listed == {} {
        warnings := warnings + [NoEntries(place)];
        return;
      }
      WarnUnlisted(place, active, listed);
    }
  }

  lemma AllWarningsNext(w: World, slots: seq<Slot>, i: nat, before: seq<Finding>)
    requires i < |slots| && forall k | 0 <= k < |slots| :: slots[k] in w.files
    ensures before + AllWarnings(w, slots[..i + 1]) ==
            before + AllWarnings(w, slots[..i]) + WarningsOf(w, slots[i])
  {
    assert slots[..i + 1][..i] == slots[..i];
    ConcatAssociative(before, AllWarnings(w, slots[..i]), WarningsOf(w, slots[i]));
  }

  lemma AllFindingsNext(w: World, slots: seq<Slot>, i: nat, seen: map<string, Slot>)
    requires i < |slots| && forall k | 0 <= k < |slots| :: slots[k] in w.files
    ensures AllFindings(w, slots[i..], seen) ==
            ItemFindings(slots[i], w.files[slots[i]], seen)
            + AllFindings(w, slots[i + 1..], SeenAfter(slots[i], IdOf(w.files[slots[i]]), seen))
  {
    assert slots[i..][0] == slots[i] && slots[i..][1..] == slots[i + 1..];
  }

  // ---------------------------------------------------------------- the queue of the active lane

  /** A queue item's path leads to a file. */
  predicate IsFileAt(w: World, place: Place, raw: string, elsewhere: string -> bool) {
    if PathName(raw) == raw then Slot(place, raw) in w.files || (raw == README && place in w.readmes) else elsewhere(raw)
  }

  function QueueOf(place: Place, lines: Text): seq<Item> {
    Queue(LaneFormat(place), lines)
  }

  function FilesAt(w: World, place: Place, elsewhere: string -> bool): string -> bool {
    raw => IsFileAt(w, place, raw, elsewhere)
  }

  function MissingOne(place: Place, item: Item, isFile: string -> bool): seq<Finding> {
    if isFile(item.raw) then [] else [MissingFile(place, item.raw)]
  }

  function Missing(place: Place, items: seq<Item>, isFile: string -> bool): seq<Finding> {
    if items == [] then []
    else
      var last := items[|items| - 1];
      Missing(place, items[..|items| - 1], isFile) + MissingOne(place, last, isFile)
  }

  function NameSet(items: seq<Item>): set<string> {
    if items == [] then {} else NameSet(items[..|items| - 1]) + {items[|items| - 1].name}
  }

  function Unlisted(place: Place, active: seq<string>, listed: set<string>): seq<Finding> {
    if active == [] then []
    else
      var last := active[|active| - 1];
      Unlisted(place, active[..|active| - 1], listed) + if last in listed then [] else [NotListed(Slot(place, last))]
  }

  function QueueFailures(w: World, place: Place, elsewhere: string -> bool): seq<Finding> {
    if place !in w.readmes then [] else Missing(place, QueueOf(place, w.readmes[place]), FilesAt(w, place, elsewhere))
  }

  function QueueWarnings(w: World, place: Place, active: seq<string>): seq<Finding> {
    if place !in w.readmes then []
    else
      var listed := NameSet(QueueOf(place, w.readmes[place]));
      if active != [] && listed == {} then [NoEntries(place)] else Unlisted(place, active, listed)
  }

  lemma QueueOfNext(place: Place, lines: Text, i: nat)
    requires i < |lines|
    ensures QueueOf(place, lines[..i + 1]) ==
            if ItemOf(lines[i]).Some? then QueueOf(place, lines[..i]) + [ItemOf(lines[i]).value]
            else QueueOf(place, lines[..i])
  {
    assert lines[..i + 1] == lines[..i] + [lines[i]];
    QueueConcat(LaneFormat(place), lines[..i], [lines[i]]);
    QueueOne(LaneFormat(place), lines[i]);
  }

  function NameIn(line: string): set<string> {
    if ItemOf(line).Some? then {ItemOf(line).value.name} else {}
  }

  function MissingIn(place: Place, line: string, isFile: string -> bool): seq<Finding> {
    if ItemOf(line).Some? then MissingOne(place, ItemOf(line).value, isFile) else []
  }

  lemma OneMoreLine(place: Place, lines: Text, i: nat, isFile: string -> bool)
    requires i < |lines|
    ensures NameSet(QueueOf(place, lines[..i + 1])) == NameSet(QueueOf(place, lines[..i])) + NameIn(lines[i])
    ensures Missing(place, QueueOf(place, lines[..i + 1]), isFile) ==
            Missing(place, QueueOf(place, lines[..i]), isFile) + MissingIn(place, lines[i], isFile)
  {
    QueueOfNext(place, lines, i);
    if ItemOf(lines[i]).Some? {
      OneMoreItem(place, QueueOf(place, lines[..i]), ItemOf(lines[i]).value, isFile);
    }
  }

  lemma OneMoreItem(place: Place, items: seq<Item>, item: Item, isFile: string -> bool)
    ensures NameSet(items + [item]) == NameSet(items) + {item.name}
    ensures Missing(place, items + [item], isFile) ==
            Missing(place, items, isFile) + MissingOne(place, item, isFile)
  {
    assert (items + [item])[..|items|] == items;
  }

  lemma QueueEnds(place: Place, lines: Text)
    ensures QueueOf(place, lines[..0]) == [] && lines[..|lines|] == lines
  {
    assert lines[..0] == [];
  }
}
