/** The smallest boards: they are healthy, and their item can be moved, so what is proved about runs and
    stopped moves is about something. */
module SmallBoard {
  import opened Options
  import opened ItemText
  import opened ItemRoundTrip
  import opened ItemSpills
  import opened LaneQueue
  import opened QueueFormat
  import opened QueueLaws
  import opened QueueListing
  import opened Lanes
  import opened LaneRuns
  import opened LaneHistory
  import opened LaneCrash

  /** An item that states its id and its status, and nothing else. */
  function SmallItem(id: string, lane: Lane): Text {
    [KeyLine("id", id), KeyLine("status", LaneName(lane))]
  }

  lemma SmallItemLines(id: string, lane: Lane)
    requires IsWord(id)
    ensures IsKeyLine(SmallItem(id, lane)[0], "id") && IsKeyLine(SmallItem(id, lane)[1], "status")
    ensures MetaEntry(SmallItem(id, lane)[0]) == Some(Entry("id", id))
    ensures MetaEntry(SmallItem(id, lane)[1]) == Some(Entry("status", LaneName(lane)))
  {
    LaneWords(lane);
    KeyLineReads("id", id);
    KeyLineReads("status", LaneName(lane));
  }

  lemma TwoKeyLines(text: Text)
    requires |text| == 2 && IsKeyLine(text[0], "id") && IsKeyLine(text[1], "status")
    ensures OnlyKeyRow(text, "status", 1) && ClosingFence(text).None? && text[0] != FENCE
  {
    OtherKey(text[0], "id", "status");
    KeyLineHead(text[0]);
  }

  lemma SmallItemRows(id: string, lane: Lane)
    requires IsWord(id)
    ensures var text := SmallItem(id, lane);
            && OnlyKeyRow(text, "status", 1)
            && MetaEntry(text[0]) == Some(Entry("id", id))
            && MetaEntry(text[1]) == Some(Entry("status", LaneName(lane)))
            && ClosingFence(text).None? && text[0] != FENCE
  {
    SmallItemLines(id, lane);
    TwoKeyLines(SmallItem(id, lane));
  }

  lemma SmallItemStatusRow(id: string, lane: Lane)
    requires IsWord(id)
    ensures FindRow(SmallItem(id, lane), "status", 0) == Some(1)
  {
    var text := SmallItem(id, lane);
    SmallItemRows(id, lane);
    KeyLineReads("id", id);
    KeyLineHasKey(text[0], "id");
    TickOnLine(text, 0);
    SpotOfKeyLine(text, 1, "status");
    assert ValueSpot(text, "status", 0).None?;
    assert FindRow(text, "status", 1) == Some(1);
  }

  lemma TwoEntries(text: Text, id: string, status: string)
    requires |text| == 2 && MetaEntry(text[0]) == Some(Entry("id", id)) && MetaEntry(text[1]) == Some(Entry("status", status))
    ensures Get(Metadata(text), "id") == Some(id) && Get(Metadata(text), "status") == Some(status)
  {
    assert text == [text[0]] + [text[1]];
    CollectConcat(MetaEntry, [text[0]], [text[1]]);
    CollectOne(MetaEntry, text[0]);
    CollectOne(MetaEntry, text[1]);
  }

  lemma SmallItemIsGood(id: string, lane: Lane)
    requires IsWord(id)
    ensures GoodText(SmallItem(id, lane), lane) && IdOf(SmallItem(id, lane)) == id
  {
    var text := SmallItem(id, lane);
    LaneWords(lane);
    SmallItemRows(id, lane);
    SmallItemStatusRow(id, lane);
    TwoEntries(text, id, LaneName(lane));
    assert CleanAt(text, 1);
  }

  // ---------------------------------------------------------------- a board with one item

  /** One item in its lane, whose README lists it; the README of the lane it will go to is empty. */
  function SmallWorld(id: string, name: string, from: Place, to: Place): World {
    World(
      map[Slot(from, name) := SmallItem(id, from.lane)],
      map[to := [], from := AfterAdd(LaneFormat(from), [], name)])
  }

  function SmallTrace(id: string, name: string, from: Place, to: Place): Trace {
    Trace(SmallWorld(id, name, from, to), map[Slot(from, name) := 0], 1)
  }

  predicate IsItemName(name: string) {
    SafeName(name) && IsItemFile(name) && name != README
  }

  lemma EmptyIsListed(f: Format)
    ensures Queue(f, []) == [] && Names([]) == [] && Listed(f, [], [])
  {
  }

  lemma SmallReadmes(place: Place, name: string)
    requires SafeName(name)
    ensures ListOf(place, []) == [] && Listed(LaneFormat(place), [], ListOf(place, []))
    ensures var readme := AfterAdd(LaneFormat(place), [], name);
            ListOf(place, readme) == [name] && Listed(LaneFormat(place), readme, ListOf(place, readme))
  {
    EmptyIsListed(LaneFormat(place));
    AddKeepsReadme(place, [], name);
    assert [] + [name] == [name];
  }

  lemma SmallWorldReadmes(id: string, name: string, from: Place, to: Place, place: Place)
    requires IsItemName(name) && from != to && place in SmallWorld(id, name, from, to).readmes
    ensures GoodReadme(SmallWorld(id, name, from, to), place)
    ensures Ascending(SmallTrace(id, name, from, to), place, ListOf(place, SmallWorld(id, name, from, to).readmes[place]))
  {
    SmallReadmes(place, name);
  }

  /** The board is healthy, and its queues are in order. */
  lemma SmallWorldIsHealthy(id: string, name: string, from: Place, to: Place)
    requires IsWord(id) && IsItemName(name) && from != to
    ensures Healthy(SmallWorld(id, name, from, to)) && InOrder(SmallTrace(id, name, from, to))
  {
    var w := SmallWorld(id, name, from, to);
    SmallItemIsGood(id, from.lane);
    forall place | place in w.readmes
      ensures GoodReadme(w, place)
      ensures Ascending(SmallTrace(id, name, from, to), place, ListOf(place, w.readmes[place])) {
      SmallWorldReadmes(id, name, from, to, place);
    }
  }

  lemma SmallCandidates(id: string, name: string, from: Place, to: Place)
    requires IsItemName(name)
    ensures Candidates(SmallWorld(id, name, from, to).files, from, name) == {name}
  {
    SafeNameIsItsPath(name);
    forall x ensures x in Candidates(SmallWorld(id, name, from, to).files, from, name) <==> x == name {
      IsAmong(SmallWorld(id, name, from, to).files, from, name, x);
    }
  }

  /** Its item can be moved, by name and with any note of one line. */
  lemma SmallWorldMoves(id: string, name: string, q: Request)
    requires IsWord(id) && IsItemName(name) && q.from != q.to && q.item == name && IsPlain(q)
    ensures var w := SmallWorld(id, name, Place(q.domain, q.from), Place(q.domain, q.to));
            && IsMove(w, q) && PlanOf(w, q).Planned? && IsItemPlan(w, q, PlanOf(w, q).plan)
            && PlanOf(w, q).plan.name == name
  {
    var from, to := Place(q.domain, q.from), Place(q.domain, q.to);
    SmallCandidates(id, name, from, to);
    PlanOfOne(SmallWorld(id, name, from, to), q, name);
    SmallItemIsGood(id, q.from);
    NewTextIsGood(SmallItem(id, q.from), q);
  }

  /** That move, stopped between rename and unlink: the board is in disorder, and asking again is refused. */
  lemma SmallWorldStopped(id: string, name: string, q: Request)
    requires IsWord(id) && IsItemName(name) && q.from != q.to && q.item == name && IsPlain(q)
    ensures var w := SmallWorld(id, name, Place(q.domain, q.from), Place(q.domain, q.to));
            && PlanOf(w, q).Planned?
            && !Healthy(AfterSteps(w, PlanOf(w, q).plan, 2))
            && PlanOf(AfterSteps(w, PlanOf(w, q).plan, 2), q) == TargetExists
  {
    var w := SmallWorld(id, name, Place(q.domain, q.from), Place(q.domain, q.to));
    SmallWorldIsHealthy(id, name, Place(q.domain, q.from), Place(q.domain, q.to));
    SmallWorldMoves(id, name, q);
    HealthyAtStepIff(w, q, PlanOf(w, q).plan, 2);
    RetryAtStep(w, q, 2);
  }
}
