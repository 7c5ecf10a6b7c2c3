/** What every run of moves keeps: the state of each item, and the queue of each lane. */
module LaneRuns {
  import opened Options
  import opened Strings
  import opened ItemText
  import opened ItemRoundTrip
  import opened ItemHistory
  import opened LaneQueue
  import opened QueueFormat
  import opened QueueLaws
  import opened QueueListing
  import opened Lanes

  const README := "README.md"

  // ---------------------------------------------------------------- items

  predicate IsItemFile(name: string) {
    EndsWith(name, MD)
  }

  predicate IsItemSlot(w: World, slot: Slot) {
    slot in w.files && IsItemFile(slot.name)
  }

  function IdOf(text: Text): string {
    Get(Metadata(text), "id").GetOr("")
  }

  /** The id and the status are stated once and the frontmatter does not contradict them. */
  ghost predicate GoodText(text: Text, lane: Lane) {
    && Clean(text)
    && IdOf(text) != ""
    && Get(Metadata(text), "status") == Some(LaneName(lane))
    && ("id" in Frontmatter(text) ==> Frontmatter(text)["id"] == IdOf(text))
    && ("status" in Frontmatter(text) ==> Frontmatter(text)["status"] == LaneName(lane))
  }

  ghost predicate GoodItems(w: World) {
    forall slot | IsItemSlot(w, slot) ::
      SafeName(slot.name) && slot.name != README && GoodText(w.files[slot], slot.place.lane)
  }

  ghost predicate UniqueIds(w: World) {
    forall s, t | IsItemSlot(w, s) && IsItemSlot(w, t) && IdOf(w.files[s]) == IdOf(w.files[t]) :: s == t
  }

  // ---------------------------------------------------------------- queues

  ghost predicate NoRepeats(names: seq<string>) {
    forall i, j | 0 <= i < j < |names| :: names[i] != names[j]
  }

  /** The names that the lane's README lists. */
  function ListOf(place: Place, readme: Text): seq<string> {
    Names(Queue(LaneFormat(place), readme))
  }

  ghost predicate ListsItems(w: World, place: Place, names: seq<string>) {
    NoRepeats(names) && forall name :: name in names <==> IsItemSlot(w, Slot(place, name))
  }

  /** The README lists exactly the lane's items, once each, numbered from 1 in its own section. */
  ghost predicate GoodReadme(w: World, place: Place)
    requires place in w.readmes
  {
    && Listed(LaneFormat(place), w.readmes[place], ListOf(place, w.readmes[place]))
    && ListsItems(w, place, ListOf(place, w.readmes[place]))
  }

  ghost predicate Healthy(w: World) {
    GoodItems(w) && UniqueIds(w) && forall place | place in w.readmes :: GoodReadme(w, place)
  }

  // ---------------------------------------------------------------- formats

  lemma LaneWords(lane: Lane)
    ensures IsWord(LaneName(lane)) && '\n' !in LaneName(lane)
    ensures IsTitle(Heading(lane))
  {
  }

  lemma LaneMessage(place: Place)
    ensures IsMessage(EmptyMessage(place))
  {
  }

  lemma LaneLaws(place: Place, name: string)
    ensures Lawful(LaneFormat(place))
    ensures SafeName(name) ==> IsName(LaneFormat(place), name)
  {
    LaneWords(place.lane);
    LaneMessage(place);
    SectionFormatLawful(Heading(place.lane), EmptyMessage(place));
    if SafeName(name) {
      SafeNameIsName(Heading(place.lane), EmptyMessage(place), name);
    }
  }

  // ---------------------------------------------------------------- lists of names

  lemma {:induction false} WithoutKeeps(names: seq<string>, name: string)
    ensures forall x :: x in Without(names, name) <==> x in names && x != name
    ensures NoRepeats(names) ==> NoRepeats(Without(names, name))
  {
    if names != [] {
      var rest := Without(names[1..], name);
      WithoutKeeps(names[1..], name);
      assert names == [names[0]] + names[1..];
      if NoRepeats(names) {
        assert forall i, j | 0 <= i < j < |names[1..]| :: names[1..][i] == names[i + 1] && names[1..][j] == names[j + 1];
        assert names[0] !in names[1..];
        assert names[0] !in rest;
      }
    }
  }

  lemma AppendKeeps(names: seq<string>, name: string)
    requires name !in names
    ensures forall x :: x in names + [name] <==> x in names || x == name
    ensures NoRepeats(names) ==> NoRepeats(names + [name])
  {
  }

  /** The README of the lane that an item leaves. */
  lemma RemoveKeepsReadme(place: Place, readme: Text, name: string)
    requires Listed(LaneFormat(place), readme, ListOf(place, readme))
    ensures var next := AfterRemove(LaneFormat(place), readme, name);
            && ListOf(place, next) == Without(ListOf(place, readme), name)
            && Listed(LaneFormat(place), next, ListOf(place, next))
  {
    LaneLaws(place, name);
    AfterRemoveListed(LaneFormat(place), readme, ListOf(place, readme), name);
    ListedNames(LaneFormat(place), AfterRemove(LaneFormat(place), readme, name), Without(ListOf(place, readme), name));
  }

  /** The README of the lane that an item enters. */
  lemma AddKeepsReadme(place: Place, readme: Text, name: string)
    requires Listed(LaneFormat(place), readme, ListOf(place, readme))
    requires SafeName(name) && name !in ListOf(place, readme)
    ensures var next := AfterAdd(LaneFormat(place), readme, name);
            && ListOf(place, next) == ListOf(place, readme) + [name]
            && Listed(LaneFormat(place), next, ListOf(place, next))
  {
    LaneLaws(place, name);
    AfterAddListed(LaneFormat(place), readme, ListOf(place, readme), name);
    ListedNames(LaneFormat(place), AfterAdd(LaneFormat(place), readme, name), ListOf(place, readme) + [name]);
  }

  // ---------------------------------------------------------------- the item that moves

  /** The note, if there is one, is one line whose key is neither of the two that the checker needs. */
  predicate IsPlain(q: Request) {
    q.history ==> IsStamp(q.now) && q.now != "id" && '\n' !in q.now && '\n' !in q.actor && '\n' !in q.reason
  }

  lemma NoteIsOneLine(q: Request)
    requires IsPlain(q) && q.history
    ensures '\n' !in Note(q.now, LaneName(q.from), LaneName(q.to), q.actor, q.reason)
  {
    LaneWords(q.from);
    LaneWords(q.to);
  }

  lemma HistoryKeeps(text: Text, q: Request, row: nat)
    requires IsPlain(q) && q.history && CleanAt(text, row)
    ensures var next := AppendNote(text, Note(q.now, LaneName(q.from), LaneName(q.to), q.actor, q.reason));
            && CleanAt(next, row)
            && Frontmatter(next) == Frontmatter(text)
            && Get(Metadata(next), "id") == Get(Metadata(text), "id")
            && Get(Metadata(next), "status") == Get(Metadata(text), "status")
  {
    var note := Note(q.now, LaneName(q.from), LaneName(q.to), q.actor, q.reason);
    NoteIsOneLine(q);
    var rest := NoteShape(q.now, LaneName(q.from), LaneName(q.to), q.actor, q.reason);
    NoteIsEntry(q.now, rest);
    AppendReadsBack(text, q.now, note, row);
  }

  /** A good item can always be moved, and it is good in its new lane. */
  lemma NewTextIsGood(text: Text, q: Request)
    requires GoodText(text, q.from) && IsPlain(q)
    ensures NewText(text, q).Some?
    ensures GoodText(NewText(text, q).value, q.to)
    ensures IdOf(NewText(text, q).value) == IdOf(text)
  {
    var row :| CleanAt(text, row);
    LaneWords(q.to);
    UpdateReadsBack(text, LaneName(q.to), row);
    var updated := UpdateStatus(text, LaneName(q.to)).value;
    assert Clean(updated);
    if q.history {
      HistoryKeeps(updated, q, row);
      assert Clean(NewText(text, q).value);
    }
  }

  lemma PutKeepsKeys(m: map<string, string>, key: string, value: string)
    requires key in m
    ensures m[key := value].Keys == m.Keys
  {
    assert m[key := value].Keys == m.Keys + {key};
  }

  lemma UpdateKeepsFront(text: Text, lane: string, row: nat)
    requires CleanAt(text, row) && IsWord(lane)
    ensures UpdateStatus(text, lane).Some? && CleanAt(UpdateStatus(text, lane).value, row)
    ensures Frontmatter(UpdateStatus(text, lane).value).Keys == Frontmatter(text).Keys
  {
    UpdateReadsBack(text, lane, row);
    if "status" in Frontmatter(text) {
      PutKeepsKeys(Frontmatter(text), "status", lane);
    }
  }

  /** The text with the note of the move behind it. */
  function Noted(text: Text, q: Request): Text {
    AppendNote(text, Note(q.now, LaneName(q.from), LaneName(q.to), q.actor, q.reason))
  }

  lemma NewTextIs(text: Text, q: Request)
    requires UpdateStatus(text, LaneName(q.to)).Some?
    ensures var updated := UpdateStatus(text, LaneName(q.to)).value;
            NewText(text, q) == Some(if q.history then Noted(updated, q) else updated)
  {
  }

  lemma NoteKeepsFront(text: Text, q: Request, row: nat)
    requires IsPlain(q) && q.history && CleanAt(text, row)
    ensures Frontmatter(Noted(text, q)) == Frontmatter(text)
  {
    HistoryKeeps(text, q, row);
  }

  /** A move changes the frontmatter's status, if there is one, and adds no key. */
  lemma NewTextKeepsFront(text: Text, q: Request, row: nat)
    requires CleanAt(text, row) && IsPlain(q)
    ensures NewText(text, q).Some?
    ensures Frontmatter(NewText(text, q).value).Keys == Frontmatter(text).Keys
  {
    LaneWords(q.to);
    UpdateKeepsFront(text, LaneName(q.to), row);
    NewTextIs(text, q);
    if q.history {
      NoteKeepsFront(UpdateStatus(text, LaneName(q.to)).value, q, row);
    }
  }

  // ---------------------------------------------------------------- one move

  /** If the move is not refused, it moves an item file. */
  predicate IsMove(w: World, q: Request) {
    IsPlain(q) && (PlanOf(w, q).Planned? ==> IsItemFile(PlanOf(w, q).plan.name))
  }

  /** A plan that the checks allow for an item. */
  ghost predicate IsItemPlan(w: World, q: Request, p: Plan) {
    PlanOf(w, q) == Planned(p) && IsItemFile(p.name) && IsPlain(q)
  }

  lemma PlanFacts(w: World, q: Request)
    requires PlanOf(w, q).Planned?
    ensures var p := PlanOf(w, q).plan;
            && p.from == Place(q.domain, q.from) && p.to == Place(q.domain, q.to) && p.from != p.to
            && p.Source() in w.files && p.Target() !in w.files
            && NewText(w.files[p.Source()], q) == Some(p.text)
  {
    var candidates := Candidates(w.files, Place(q.domain, q.from), q.item);
    assert |candidates| == 1;
    assert TheOnly(candidates) in candidates;
  }

  lemma TempIsNoItem(p: Plan)
    ensures !IsItemFile(p.name + ".tmp") && p.name + ".tmp" != p.name
  {
    var temp := p.name + ".tmp";
    assert temp[|temp| - 3..][2] == 'p' && MD[2] == 'd';
  }

  lemma SameKeys(w: World, p: Plan)
    ensures SyncFrom(w, p).readmes.Keys == w.readmes.Keys == SyncTo(w, p).readmes.Keys
  {
    assert p.from in w.readmes ==> SyncFrom(w, p).readmes.Keys == w.readmes.Keys + {p.from};
    assert p.to in w.readmes ==> SyncTo(w, p).readmes.Keys == w.readmes.Keys + {p.to};
  }

  lemma MapMoved(files: map<Slot, Text>, source: Slot, temp: Slot, target: Slot, text: Text)
    requires target != temp
    ensures files[temp := text][target := text] - {temp} - {source} == files[target := text] - {source, temp}
  {
  }

  lemma ThreeSteps(w: World, p: Plan)
    requires p.from != p.to
    ensures AfterSteps(w, p, 3).files == w.files[p.Target() := p.text] - {p.Source(), p.Temp()}
    ensures AfterSteps(w, p, 3).readmes == w.readmes
  {
    MapMoved(w.files, p.Source(), p.Temp(), p.Target(), p.text);
    assert AfterSteps(w, p, 3) == Unlink(MoveTemp(WriteTemp(w, p), p), p);
  }

  lemma TwoSyncs(w: World, p: Plan)
    ensures AfterSteps(w, p, 5) == SyncTo(SyncFrom(AfterSteps(w, p, 3), p), p)
    ensures AfterSteps(w, p, 5).files == AfterSteps(w, p, 3).files
  {
    assert AfterSteps(w, p, 4) == SyncFrom(AfterSteps(w, p, 3), p);
  }

  /** The files once the move is over: the item has changed places, with its new text. */
  lemma FilesMoved(w: World, p: Plan)
    requires p.from != p.to && p.Source() in w.files && p.Target() !in w.files
    ensures AfterSteps(w, p, 5).files == w.files[p.Target() := p.text] - {p.Source(), p.Temp()}
    ensures AfterSteps(w, p, 5).readmes.Keys == w.readmes.Keys
  {
    ThreeSteps(w, p);
    TwoSyncs(w, p);
    SameKeys(AfterSteps(w, p, 3), p);
    SameKeys(SyncFrom(AfterSteps(w, p, 3), p), p);
  }

  lemma ItemsMoved(w: World, p: Plan, slot: Slot)
    requires p.from != p.to && p.Source() in w.files && p.Target() !in w.files && IsItemFile(p.name)
    ensures var v := AfterSteps(w, p, 5);
            && (IsItemSlot(v, slot) <==> slot == p.Target() || (IsItemSlot(w, slot) && slot != p.Source()))
            && (IsItemSlot(v, slot) ==> v.files[slot] == if slot == p.Target() then p.text else w.files[slot])
  {
    FilesMoved(w, p);
    TempIsNoItem(p);
  }

  lemma GoodItemsMoved(w: World, q: Request, p: Plan)
    requires GoodItems(w) && IsItemPlan(w, q, p)
    ensures GoodItems(AfterSteps(w, p, 5))
    ensures IdOf(p.text) == IdOf(w.files[p.Source()])
  {
    PlanFacts(w, q);
    assert IsItemSlot(w, p.Source());
    NewTextIsGood(w.files[p.Source()], q);
    var v := AfterSteps(w, p, 5);
    forall slot | IsItemSlot(v, slot)
      ensures SafeName(slot.name) && slot.name != README && GoodText(v.files[slot], slot.place.lane) {
      ItemsMoved(w, p, slot);
    }
  }

  lemma UniqueIdsMoved(w: World, q: Request, p: Plan)
    requires GoodItems(w) && UniqueIds(w) && IsItemPlan(w, q, p)
    ensures UniqueIds(AfterSteps(w, p, 5))
  {
    PlanFacts(w, q);
    GoodItemsMoved(w, q, p);
    var v := AfterSteps(w, p, 5);
    forall s, t | IsItemSlot(v, s) && IsItemSlot(v, t) && IdOf(v.files[s]) == IdOf(v.files[t]) ensures s == t {
      ItemsMoved(w, p, s);
      ItemsMoved(w, p, t);
      var s0, t0 := if s == p.Target() then p.Source() else s, if t == p.Target() then p.Source() else t;
      assert IsItemSlot(w, s0) && IsItemSlot(w, t0) && IdOf(w.files[s0]) == IdOf(w.files[t0]);
    }
  }

  /** The list that a README holds after a move. */
  function NextList(names: seq<string>, place: Place, p: Plan): seq<string> {
    if place == p.from then Without(names, p.name)
    else if place == p.to then names + [p.name]
    else names
  }

  lemma ReadmeAt(w: World, p: Plan, place: Place)
    requires p.from != p.to && place in w.readmes
    ensures place in AfterSteps(w, p, 5).readmes
    ensures AfterSteps(w, p, 5).readmes[place] ==
            if place == p.from then AfterRemove(LaneFormat(place), w.readmes[place], p.name)
            else if place == p.to then AfterAdd(LaneFormat(place), w.readmes[place], p.name)
            else w.readmes[place]
  {
    assert AfterSteps(w, p, 3).readmes == w.readmes;
    assert AfterSteps(w, p, 5) == SyncTo(AfterSteps(w, p, 4), p);
  }

  lemma ReadmeMoved(w: World, q: Request, p: Plan, place: Place)
    requires Healthy(w) && IsItemPlan(w, q, p) && place in w.readmes
    ensures var v := AfterSteps(w, p, 5);
            && place in v.readmes
            && ListOf(place, v.readmes[place]) == NextList(ListOf(place, w.readmes[place]), place, p)
            && Listed(LaneFormat(place), v.readmes[place], ListOf(place, v.readmes[place]))
  {
    PlanFacts(w, q);
    ReadmeAt(w, p, place);
    assert GoodReadme(w, place);
    if place == p.from {
      RemoveKeepsReadme(place, w.readmes[place], p.name);
    } else if place == p.to {
      assert IsItemSlot(w, p.Source());
      assert !IsItemSlot(w, Slot(place, p.name));
      AddKeepsReadme(place, w.readmes[place], p.name);
    }
  }

  lemma GoodReadmeMoved(w: World, q: Request, p: Plan, place: Place)
    requires Healthy(w) && IsItemPlan(w, q, p) && place in w.readmes
    ensures place in AfterSteps(w, p, 5).readmes && GoodReadme(AfterSteps(w, p, 5), place)
  {
    var v := AfterSteps(w, p, 5);
    var names, next := ListOf(place, w.readmes[place]), NextList(ListOf(place, w.readmes[place]), place, p);
    PlanFacts(w, q);
    ReadmeMoved(w, q, p, place);
    assert GoodReadme(w, place);
    assert !IsItemSlot(w, p.Target());
    WithoutKeeps(names, p.name);
    if p.name !in names {
      AppendKeeps(names, p.name);
    }
    forall name ensures name in next <==> IsItemSlot(v, Slot(place, name)) {
      ItemsMoved(w, p, Slot(place, name));
    }
  }

  /** A move keeps everything in order. */
  lemma MoveKeepsHealth(w: World, q: Request)
    requires Healthy(w) && IsMove(w, q)
    ensures Healthy(Moved(w, q))
  {
    if PlanOf(w, q).Planned? {
      var p := PlanOf(w, q).plan;
      PlanFacts(w, q);
      FilesMoved(w, p);
      GoodItemsMoved(w, q, p);
      UniqueIdsMoved(w, q, p);
      forall place | place in AfterSteps(w, p, 5).readmes ensures GoodReadme(AfterSteps(w, p, 5), place) {
        GoodReadmeMoved(w, q, p, place);
      }
    }
  }
}
