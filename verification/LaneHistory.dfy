/** Runs of moves: nothing is lost, and each lane's queue is first in, first out. */
module LaneHistory {
  import opened Options
  import opened QueueLaws
  import opened Lanes
  import opened LaneRuns

  // ---------------------------------------------------------------- nothing is lost

  datatype Card = Card(id: string, name: string, domain: Domain)

  function CardOf(w: World, slot: Slot): Card
    requires slot in w.files
  {
    Card(IdOf(w.files[slot]), slot.name, slot.place.domain)
  }

  /** Who is on the board, wherever it is. */
  function Roster(w: World): set<Card> {
    set slot | slot in w.files && IsItemFile(slot.name) :: CardOf(w, slot)
  }

  lemma CardMoved(w: World, q: Request, p: Plan, slot: Slot)
    requires GoodItems(w) && IsItemPlan(w, q, p) && IsItemSlot(w, slot)
    ensures var next := if slot == p.Source() then p.Target() else slot;
            IsItemSlot(AfterSteps(w, p, 5), next) && CardOf(AfterSteps(w, p, 5), next) == CardOf(w, slot)
  {
    PlanFacts(w, q);
    GoodItemsMoved(w, q, p);
    ItemsMoved(w, p, if slot == p.Source() then p.Target() else slot);
  }

  /** A move loses no item, adds none, and renames none. */
  lemma RosterMoved(w: World, q: Request, p: Plan)
    requires GoodItems(w) && IsItemPlan(w, q, p)
    ensures Roster(AfterSteps(w, p, 5)) == Roster(w)
  {
    var v := AfterSteps(w, p, 5);
    PlanFacts(w, q);
    forall card | card in Roster(w) ensures card in Roster(v) {
      var slot :| IsItemSlot(w, slot) && CardOf(w, slot) == card;
      CardMoved(w, q, p, slot);
      assert IsItemSlot(v, if slot == p.Source() then p.Target() else slot);
    }
    forall card | card in Roster(v) ensures card in Roster(w) {
      var slot :| IsItemSlot(v, slot) && CardOf(v, slot) == card;
      ItemsMoved(w, p, slot);
      var was := if slot == p.Target() then p.Source() else slot;
      assert IsItemSlot(w, was);
      CardMoved(w, q, p, was);
    }
  }

  // ---------------------------------------------------------------- first in, first out

  /** The board, with the time at which each item came into its lane. */
  datatype Trace = Trace(world: World, entered: map<Slot, nat>, clock: nat)

  function Stamp(t: Trace, place: Place, name: string): nat {
    Get(t.entered, Slot(place, name)).GetOr(0)
  }

  ghost predicate Ascending(t: Trace, place: Place, names: seq<string>) {
    && (forall i | 0 <= i < |names| :: Stamp(t, place, names[i]) < t.clock)
    && forall i, j | 0 <= i < j < |names| :: Stamp(t, place, names[i]) < Stamp(t, place, names[j])
  }

  /** Every queue lists its items in the order in which they came. */
  ghost predicate InOrder(t: Trace) {
    forall place | place in t.world.readmes :: Ascending(t, place, ListOf(place, t.world.readmes[place]))
  }

  function Step(t: Trace, q: Request): Trace {
    var outcome := PlanOf(t.world, q);
    if outcome.Planned? then Trace(Moved(t.world, q), t.entered[outcome.plan.Target() := t.clock], t.clock + 1) else t
  }

  function Run(t: Trace, qs: seq<Request>): Trace
    decreases |qs|
  {
    if qs == [] then t else Run(Step(t, qs[0]), qs[1..])
  }

  /** Every move of the run is about an item file, and its note is one line. */
  predicate IsRun(t: Trace, qs: seq<Request>)
    decreases |qs|
  {
    qs == [] || (IsMove(t.world, qs[0]) && IsRun(Step(t, qs[0]), qs[1..]))
  }

  lemma {:induction false} WithoutAscending(t: Trace, place: Place, names: seq<string>, name: string)
    requires Ascending(t, place, names)
    ensures Ascending(t, place, Without(names, name))
  {
    if names != [] {
      var first, rest := names[0], names[1..];
      assert names == [first] + rest;
      assert Ascending(t, place, rest) by {
        assert forall i | 0 <= i < |rest| :: rest[i] == names[i + 1];
      }
      WithoutAscending(t, place, rest, name);
      WithoutKeeps(rest, name);
      var kept := Without(rest, name);
      forall i | 0 <= i < |kept| ensures Stamp(t, place, first) < Stamp(t, place, kept[i]) {
        assert kept[i] in rest;
        var k :| 0 <= k < |rest| && rest[k] == kept[i];
        assert names[k + 1] == kept[i];
      }
    }
  }

  lemma StepStamps(t: Trace, q: Request, place: Place, name: string)
    requires PlanOf(t.world, q).Planned?
    ensures var p := PlanOf(t.world, q).plan;
            Stamp(Step(t, q), place, name) == if place == p.to && name == p.name then t.clock else Stamp(t, place, name)
  {
  }

  /** The same names, when none of their stamps has changed. */
  lemma StillAscending(t: Trace, q: Request, place: Place, names: seq<string>)
    requires PlanOf(t.world, q).Planned? && Ascending(t, place, names)
    requires place == PlanOf(t.world, q).plan.to ==> PlanOf(t.world, q).plan.name !in names
    ensures Ascending(Step(t, q), place, names)
  {
    forall i | 0 <= i < |names| ensures Stamp(Step(t, q), place, names[i]) == Stamp(t, place, names[i]) {
      StepStamps(t, q, place, names[i]);
    }
  }

  lemma AppendAscending(t: Trace, place: Place, names: seq<string>, name: string)
    requires Ascending(t, place, names) && t.clock > 0
    requires forall i | 0 <= i < |names| :: Stamp(t, place, names[i]) < t.clock - 1
    requires Stamp(t, place, name) == t.clock - 1
    ensures Ascending(t, place, names + [name])
  {
  }

  lemma EnteringAscending(t: Trace, q: Request, names: seq<string>)
    requires PlanOf(t.world, q).Planned?
    requires var p := PlanOf(t.world, q).plan; Ascending(t, p.to, names) && p.name !in names
    ensures var p := PlanOf(t.world, q).plan; Ascending(Step(t, q), p.to, names + [p.name])
  {
    var p := PlanOf(t.world, q).plan;
    StillAscending(t, q, p.to, names);
    StepStamps(t, q, p.to, p.name);
    forall i | 0 <= i < |names| ensures Stamp(Step(t, q), p.to, names[i]) < t.clock {
      StepStamps(t, q, p.to, names[i]);
    }
    AppendAscending(Step(t, q), p.to, names, p.name);
  }

  lemma OrderMoved(t: Trace, q: Request, p: Plan, place: Place)
    requires Healthy(t.world) && InOrder(t) && IsItemPlan(t.world, q, p) && place in t.world.readmes
    ensures place in AfterSteps(t.world, p, 5).readmes
    ensures Ascending(Step(t, q), place, ListOf(place, AfterSteps(t.world, p, 5).readmes[place]))
  {
    var names := ListOf(place, t.world.readmes[place]);
    PlanFacts(t.world, q);
    ReadmeMoved(t.world, q, p, place);
    assert GoodReadme(t.world, place);
    assert !IsItemSlot(t.world, p.Target());
    assert Ascending(t, place, names);
    if place == p.from {
      WithoutAscending(t, place, names, p.name);
      StillAscending(t, q, place, Without(names, p.name));
    } else if place == p.to {
      EnteringAscending(t, q, names);
    } else {
      StillAscending(t, q, place, names);
    }
  }

  lemma StepKeeps(t: Trace, q: Request)
    requires Healthy(t.world) && InOrder(t) && IsMove(t.world, q)
    ensures Healthy(Step(t, q).world) && InOrder(Step(t, q))
    ensures Roster(Step(t, q).world) == Roster(t.world)
    ensures Step(t, q).world.readmes.Keys == t.world.readmes.Keys
  {
    MoveKeepsHealth(t.world, q);
    if PlanOf(t.world, q).Planned? {
      var p := PlanOf(t.world, q).plan;
      PlanFacts(t.world, q);
      FilesMoved(t.world, p);
      RosterMoved(t.world, q, p);
      forall place | place in Step(t, q).world.readmes
        ensures Ascending(Step(t, q), place, ListOf(place, Step(t, q).world.readmes[place])) {
        OrderMoved(t, q, p, place);
      }
    }
  }

  /** After any run of moves every item is in exactly one lane, with its id, its status and its
      frontmatter in agreement; each README lists exactly its lane's items, oldest first; and the items are
      those of the start. */
  lemma {:induction false} RunKeeps(t: Trace, qs: seq<Request>)
    requires Healthy(t.world) && InOrder(t) && IsRun(t, qs)
    ensures Healthy(Run(t, qs).world) && InOrder(Run(t, qs))
    ensures Roster(Run(t, qs).world) == Roster(t.world)
    ensures Run(t, qs).world.readmes.Keys == t.world.readmes.Keys
    decreases |qs|
  {
    if qs != [] {
      StepKeeps(t, qs[0]);
      RunKeeps(Step(t, qs[0]), qs[1..]);
    }
  }

  /** The first item that a README lists came before all others of its lane. */
  lemma FirstCameFirst(t: Trace, place: Place, slot: Slot)
    requires Healthy(t.world) && InOrder(t) && place in t.world.readmes
    requires IsItemSlot(t.world, slot) && slot.place == place
    ensures var names := ListOf(place, t.world.readmes[place]);
            && names != [] && IsItemSlot(t.world, Slot(place, names[0]))
            && (slot.name != names[0] ==> Stamp(t, place, names[0]) < Stamp(t, place, slot.name))
  {
    var names := ListOf(place, t.world.readmes[place]);
    assert GoodReadme(t.world, place) && Ascending(t, place, names);
    assert slot == Slot(place, slot.name) && slot.name in names;
    var k :| 0 <= k < |names| && names[k] == slot.name;
    assert names[0] in names;
  }
}
