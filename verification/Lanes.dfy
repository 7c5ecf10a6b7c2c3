/** The lanes of `flywheel_state.py`: items are files that move from lane to lane in steps, and each
    lane may have a README with a queue of its items. */
module Lanes {
  import opened Options
  import opened Strings
  import opened ItemText
  import opened LaneQueue
  import opened QueueFormat

  datatype Domain = Engineering | Architecture

  datatype Lane = Intake | Ready | Active | Qa | Done | Blocked | Archive

  datatype Place = Place(domain: Domain, lane: Lane)

  /** A file of a lane, other than its README. */
  datatype Slot = Slot(place: Place, name: string)

  datatype World = World(files: map<Slot, Text>, readmes: map<Place, Text>)

  function DomainName(domain: Domain): string {
    match domain
    case Engineering => "engineering"
    case Architecture => "architecture"
  }

  function LaneName(lane: Lane): string {
    match lane
    case Intake => "intake"
    case Ready => "ready"
    case Active => "active"
    case Qa => "qa"
    case Done => "done"
    case Blocked => "blocked"
    case Archive => "archive"
  }

  function Heading(lane: Lane): string {
    match lane
    case Intake => "## Candidate Sequence"
    case Ready => "## Ready Sequence"
    case Active => "## Active Sequence"
    case Qa => "## QA Sequence"
    case Done => "## Completed"
    case Blocked => "## Blocked Sequence"
    case Archive => "## Archived"
  }

  function EmptyMessage(place: Place): string {
    var domain := DomainName(place.domain);
    match place.lane
    case Intake => "No candidate " + domain + " items."
    case Ready => "No ready " + domain + " stories."
    case Active => "No active " + domain + " stories."
    case Qa => "No " + domain + " stories are waiting for QA."
    case Done => "No completed " + domain + " stories."
    case Blocked => "No blocked " + domain + " stories."
    case Archive => "No archived " + domain + " stories."
  }

  function LaneFormat(place: Place): Format {
    SectionFormat(Heading(place.lane), EmptyMessage(place))
  }

  // ---------------------------------------------------------------- what a move will do

  /** Without `history` no transition note is appended. */
  datatype Request = Request(
    domain: Domain, item: string, from: Lane, to: Lane, history: bool, now: string, actor: string, reason: string)

  datatype Plan = Plan(name: string, from: Place, to: Place, text: Text) {
    function Source(): Slot { Slot(from, name) }
    function Target(): Slot { Slot(to, name) }
    function Temp(): Slot { Slot(from, name + ".tmp") }
  }

  datatype Outcome = NotFound | Ambiguous | TargetExists | MissingStatus | Planned(plan: Plan)

  const MD := ".md"

  /** A file that the item's argument may mean: by name, by name without extension, or by id. */
  predicate IsCandidate(name: string, text: Text, item: string) {
    || name == PathName(item)
    || (!EndsWith(PathName(item), MD) && name == PathName(item) + MD)
    || (EndsWith(name, MD) && ItemId(text) == item)
  }

  function Candidates(files: map<Slot, Text>, place: Place, item: string): set<string> {
    set slot | slot in files && slot.place == place && IsCandidate(slot.name, files[slot], item) :: slot.name
  }

  lemma OnlyOne<T>(s: set<T>, x: T, y: T)
    requires |s| == 1 && x in s && y in s
    ensures x == y
  {
    assert |s - {x}| == 0;
    assert y != x ==> y in s - {x};
  }

  function TheOnly<T(==)>(s: set<T>): (x: T)
    requires |s| == 1
    ensures x in s
  {
    assert s != {};
    assert forall x, y | x in s && y in s :: x == y by {
      forall x, y | x in s && y in s ensures x == y {
        OnlyOne(s, x, y);
      }
    }
    var x :| x in s;
    x
  }

  /** The item's new text, if it has a status to change. */
  function NewText(text: Text, q: Request): Option<Text> {
    var updated := UpdateStatus(text, LaneName(q.to));
    if updated.None? || !q.history then updated
    else Some(AppendNote(updated.value, Note(q.now, LaneName(q.from), LaneName(q.to), q.actor, q.reason)))
  }

  /** The checks in the order of the source; they change no file. */
  function PlanOf(w: World, q: Request): Outcome {
    var from, to := Place(q.domain, q.from), Place(q.domain, q.to);
    var candidates := Candidates(w.files, from, q.item);
    if candidates == {} then NotFound
    else if |candidates| > 1 then Ambiguous
    else
      assert |candidates| == 1;
      var name := TheOnly(candidates);
      if Slot(to, name) in w.files then TargetExists
      else
        var text := NewText(w.files[Slot(from, name)], q);
        if text.None? then MissingStatus else Planned(Plan(name, from, to, text.value))
  }

  // ---------------------------------------------------------------- the steps

  function WriteTemp(w: World, p: Plan): World {
    w.(files := w.files[p.Temp() := p.text])
  }

  function MoveTemp(w: World, p: Plan): World
    requires p.Temp() in w.files
  {
    w.(files := w.files[p.Target() := w.files[p.Temp()]] - {p.Temp()})
  }

  function Unlink(w: World, p: Plan): World {
    w.(files := w.files - {p.Source()})
  }

  function SyncFrom(w: World, p: Plan): World {
    if p.from !in w.readmes then w
    else w.(readmes := w.readmes[p.from := AfterRemove(LaneFormat(p.from), w.readmes[p.from], p.name)])
  }

  function SyncTo(w: World, p: Plan): World {
    if p.to !in w.readmes then w
    else w.(readmes := w.readmes[p.to := AfterAdd(LaneFormat(p.to), w.readmes[p.to], p.name)])
  }

  /** What the files hold when the move has been stopped after `k` of its five steps. */
  function AfterSteps(w: World, p: Plan, k: nat): World {
    if k == 0 then w
    else if k == 1 then WriteTemp(w, p)
    else if k == 2 then MoveTemp(WriteTemp(w, p), p)
    else if k == 3 then Unlink(AfterSteps(w, p, 2), p)
    else if k == 4 then SyncFrom(AfterSteps(w, p, 3), p)
    else SyncTo(AfterSteps(w, p, 4), p)
  }

  function Moved(w: World, q: Request): World {
    var outcome := PlanOf(w, q);
    if outcome.Planned? then AfterSteps(w, outcome.plan, 5) else w
  }

  class Workspace {
    var files: map<Slot, Text>
    var readmes: map<Place, Text>

    constructor (files: map<Slot, Text>, readmes: map<Place, Text>)
      ensures State() == World(files, readmes)
    {
      this.files := files;
      this.readmes := readmes;
    }

    function State(): World
      reads this
    {
      World(files, readmes)
    }

    method UpdateLaneReadme(place: Place, name: string, add: bool)
      modifies this
      ensures files == old(files)
      ensures readmes ==
              if place !in old(readmes) then old(readmes)
              else
                old(readmes)[place :=
                  if add then AfterAdd(LaneFormat(place), old(readmes)[place], name)
                  else AfterRemove(LaneFormat(place), old(readmes)[place], name)]
    {
      if place !in readmes {
        return;
      }
      var readme := new LaneReadme(LaneFormat(place), readmes[place]);
      readme.Update(name, add);
      readmes := readmes[place := readme.lines];
    }

    /** A refused move changes no file; the others take the steps in order. */
    method MoveItem(q: Request) returns (outcome: Outcome)
      modifies this
      ensures outcome == PlanOf(old(State()), q)
      ensures State() == Moved(old(State()), q)
    {
      outcome := PlanOf(State(), q);
      if !outcome.Planned? {
        return;
      }
      var p := outcome.plan;
      files := files[p.Temp() := p.text];
      assert State() == AfterSteps(old(State()), p, 1);
      files := files[p.Target() := files[p.Temp()]] - {p.Temp()};
      assert State() == AfterSteps(old(State()), p, 2);
      files := files - {p.Source()};
      assert State() == AfterSteps(old(State()), p, 3);
      UpdateLaneReadme(p.from, p.name, false);
      assert State() == AfterSteps(old(State()), p, 4);
      UpdateLaneReadme(p.to, p.name, true);
    }
  }
}
