/** A move that is stopped between two of its steps: what the files hold, what is still in order, and
    what asking for the move again does. */
module LaneCrash {
  import opened Options
  import opened Strings
  import opened ItemText
  import opened QueueFormat
  import opened QueueLaws
  import opened Lanes
  import opened LaneRuns

  lemma StepsUnfold(w: World, p: Plan)
    ensures AfterSteps(w, p, 1).files == w.files[p.Temp() := p.text]
    ensures p.from != p.to ==>
              AfterSteps(w, p, 2).files == w.files[p.Temp() := p.text][p.Target() := p.text] - {p.Temp()}
    ensures AfterSteps(w, p, 3).files == AfterSteps(w, p, 2).files - {p.Source()}
    ensures AfterSteps(w, p, 4) == SyncFrom(AfterSteps(w, p, 3), p)
    ensures AfterSteps(w, p, 5) == SyncTo(AfterSteps(w, p, 4), p)
    ensures AfterSteps(w, p, 4).files == AfterSteps(w, p, 3).files == AfterSteps(w, p, 5).files
    ensures AfterSteps(w, p, 1).readmes == AfterSteps(w, p, 2).readmes == AfterSteps(w, p, 3).readmes == w.readmes
  {
  }

  // ---------------------------------------------------------------- what the files hold

  /** After `k` steps: which of the three files of the move there are, and what they hold. */
  lemma FilesAtStep(w: World, p: Plan, k: nat, slot: Slot)
    requires p.from != p.to && p.Source() in w.files && p.Target() !in w.files && k <= 5
    ensures Get(AfterSteps(w, p, k).files, slot) ==
            if slot == p.Source() then (if k <= 2 then Some(w.files[slot]) else None)
            else if slot == p.Temp() then (if k == 0 then Get(w.files, slot) else if k == 1 then Some(p.text) else None)
            else if slot == p.Target() then (if k >= 2 then Some(p.text) else None)
            else Get(w.files, slot)
  {
    TempIsNoItem(p);
    StepsUnfold(w, p);
  }

  /** Whenever a move is stopped, the item is there in full, under its own name in its old lane or in its
      new one, and there is at most one file too many; no other file has changed, and no README but
      those of the two lanes. */
  lemma NeverLost(w: World, q: Request, k: nat)
    requires PlanOf(w, q).Planned? && k <= 5
    ensures var p, v := PlanOf(w, q).plan, AfterSteps(w, PlanOf(w, q).plan, k);
            && (|| Get(v.files, p.Source()) == Some(w.files[p.Source()])
                || (Get(v.files, p.Target()) == NewText(w.files[p.Source()], q) && p.Target() in v.files))
            && !(p.Source() in v.files && p.Temp() in v.files && p.Target() in v.files)
            && (forall slot | slot !in {p.Source(), p.Temp(), p.Target()} :: Get(v.files, slot) == Get(w.files, slot))
            && (forall place | place !in {p.from, p.to} :: Get(v.readmes, place) == Get(w.readmes, place))
  {
    var p, v := PlanOf(w, q).plan, AfterSteps(w, PlanOf(w, q).plan, k);
    PlanFacts(w, q);
    StepsUnfold(w, p);
    FilesAtStep(w, p, k, p.Source());
    FilesAtStep(w, p, k, p.Temp());
    FilesAtStep(w, p, k, p.Target());
    forall slot | slot !in {p.Source(), p.Temp(), p.Target()} ensures Get(v.files, slot) == Get(w.files, slot) {
      FilesAtStep(w, p, k, slot);
    }
  }

  // ---------------------------------------------------------------- what is still in order

  /** Two boards with the same items. */
  ghost predicate SameItems(v: World, w: World) {
    && (forall slot :: IsItemSlot(v, slot) <==> IsItemSlot(w, slot))
    && (forall slot | IsItemSlot(w, slot) :: v.files[slot] == w.files[slot])
  }

  lemma HealthOfSameItems(v: World, w: World)
    requires SameItems(v, w) && v.readmes == w.readmes && Healthy(w)
    ensures Healthy(v)
  {
    forall s, t | IsItemSlot(v, s) && IsItemSlot(v, t) && IdOf(v.files[s]) == IdOf(v.files[t]) ensures s == t {
      assert IsItemSlot(w, s) && IsItemSlot(w, t);
    }
    forall place | place in v.readmes ensures GoodReadme(v, place) {
      assert GoodReadme(w, place);
    }
  }

  lemma WrittenTemp(w: World, p: Plan)
    requires p.from != p.to && p.Source() in w.files && p.Target() !in w.files
    ensures SameItems(AfterSteps(w, p, 1), w)
  {
    TempIsNoItem(p);
    StepsUnfold(w, p);
  }

  lemma TwoCopies(w: World, q: Request, p: Plan)
    requires Healthy(w) && IsItemPlan(w, q, p)
    ensures !UniqueIds(AfterSteps(w, p, 2))
  {
    PlanFacts(w, q);
    GoodItemsMoved(w, q, p);
    TempIsNoItem(p);
    FilesAtStep(w, p, 2, p.Source());
    FilesAtStep(w, p, 2, p.Target());
    var v := AfterSteps(w, p, 2);
    assert IsItemSlot(v, p.Source()) && IsItemSlot(v, p.Target());
  }

  /** The README of the old lane lists the item until it is synced. */
  lemma StaleFrom(w: World, q: Request, p: Plan)
    requires Healthy(w) && IsItemPlan(w, q, p) && p.from in w.readmes
    ensures p.from in AfterSteps(w, p, 3).readmes && !GoodReadme(AfterSteps(w, p, 3), p.from)
  {
    PlanFacts(w, q);
    StepsUnfold(w, p);
    FilesAtStep(w, p, 3, p.Source());
    assert GoodReadme(w, p.from) && IsItemSlot(w, p.Source());
    NotListing(AfterSteps(w, p, 3), p.from, p.name);
  }

  lemma ToBeforeSync(w: World, p: Plan, k: nat)
    requires p.from != p.to && p.to in w.readmes && 3 <= k <= 4
    ensures p.to in AfterSteps(w, p, k).readmes && AfterSteps(w, p, k).readmes[p.to] == w.readmes[p.to]
  {
    StepsUnfold(w, p);
  }

  lemma NotListing(w: World, place: Place, name: string)
    requires place in w.readmes && (name in ListOf(place, w.readmes[place])) != IsItemSlot(w, Slot(place, name))
    ensures !GoodReadme(w, place)
  {
  }

  /** The README of the new lane lacks the item until it is synced. */
  lemma StaleTo(w: World, q: Request, p: Plan, k: nat)
    requires Healthy(w) && IsItemPlan(w, q, p) && p.to in w.readmes && 3 <= k <= 4
    ensures p.to in AfterSteps(w, p, k).readmes && !GoodReadme(AfterSteps(w, p, k), p.to)
  {
    PlanFacts(w, q);
    ToBeforeSync(w, p, k);
    FilesAtStep(w, p, k, p.Target());
    assert GoodReadme(w, p.to) && !IsItemSlot(w, p.Target());
    NotListing(AfterSteps(w, p, k), p.to, p.name);
  }

  /** The READMEs that the rest of the move will still change are not there. */
  predicate NothingStale(w: World, p: Plan, k: nat) {
    (k == 3 && p.from !in w.readmes && p.to !in w.readmes) || (k == 4 && p.to !in w.readmes)
  }

  lemma NothingStaleIsDone(w: World, p: Plan, k: nat)
    requires NothingStale(w, p, k)
    ensures AfterSteps(w, p, k) == AfterSteps(w, p, 5)
  {
    StepsUnfold(w, p);
  }

  /** A stopped move leaves the board in order exactly if it had not yet put the new file in its place, or
      had nothing left to do. */
  lemma HealthyAtStepIff(w: World, q: Request, p: Plan, k: nat)
    requires Healthy(w) && IsItemPlan(w, q, p) && k <= 5
    ensures Healthy(AfterSteps(w, p, k)) <==> k <= 1 || k == 5 || NothingStale(w, p, k)
  {
    PlanFacts(w, q);
    if k == 1 {
      WrittenTemp(w, p);
      StepsUnfold(w, p);
      HealthOfSameItems(AfterSteps(w, p, 1), w);
    } else if k == 2 {
      TwoCopies(w, q, p);
    } else if k >= 3 {
      MoveKeepsHealth(w, q);
      if NothingStale(w, p, k) {
        NothingStaleIsDone(w, p, k);
      } else if k < 5 && p.to in w.readmes {
        StaleTo(w, q, p, k);
      } else if k == 3 {
        StaleFrom(w, q, p);
      }
    }
  }

  // ---------------------------------------------------------------- asking again

  lemma IsAmong(files: map<Slot, Text>, place: Place, item: string, name: string)
    ensures name in Candidates(files, place, item) <==>
            Slot(place, name) in files && IsCandidate(name, files[Slot(place, name)], item)
  {
    if Slot(place, name) in files && IsCandidate(name, files[Slot(place, name)], item) {
      var slot := Slot(place, name);
      assert slot.name == name && slot.place == place;
    }
  }

  lemma CandidatesOfPlan(w: World, q: Request)
    requires PlanOf(w, q).Planned?
    ensures var p := PlanOf(w, q).plan; Candidates(w.files, p.from, q.item) == {p.name}
  {
    var candidates := Candidates(w.files, Place(q.domain, q.from), q.item);
    var name := TheOnly(candidates);
    forall x | x in candidates ensures x == name {
      OnlyOne(candidates, x, name);
    }
  }

  lemma TempCandidate(p: Plan, text: Text, item: string)
    ensures IsCandidate(p.Temp().name, text, item) <==> PathName(item) == p.Temp().name
  {
    TempIsNoItem(p);
    var name := PathName(item) + MD;
    assert name == p.Temp().name ==> IsItemFile(p.Temp().name) by {
      assert EndsWith(name, MD);
    }
  }

  lemma CandidatesAtStep(w: World, q: Request, k: nat, name: string)
    requires PlanOf(w, q).Planned? && k <= 5
    ensures var p := PlanOf(w, q).plan;
            name in Candidates(AfterSteps(w, p, k).files, p.from, q.item) <==>
            || (name == p.name && k <= 2)
            || (name == p.Temp().name && k == 1 && PathName(q.item) == p.Temp().name)
  {
    var p := PlanOf(w, q).plan;
    var v := AfterSteps(w, p, k);
    PlanFacts(w, q);
    TempIsNoItem(p);
    CandidatesOfPlan(w, q);
    IsAmong(w.files, p.from, q.item, name);
    IsAmong(v.files, p.from, q.item, name);
    FilesAtStep(w, p, k, Slot(p.from, name));
    TempCandidate(p, p.text, q.item);
  }

  lemma PlanOfOne(w: World, q: Request, name: string)
    requires Candidates(w.files, Place(q.domain, q.from), q.item) == {name}
    ensures Slot(Place(q.domain, q.from), name) in w.files
    ensures PlanOf(w, q) ==
            var from, to := Place(q.domain, q.from), Place(q.domain, q.to);
            if Slot(to, name) in w.files then TargetExists
            else
              var text := NewText(w.files[Slot(from, name)], q);
              if text.None? then MissingStatus else Planned(Plan(name, from, to, text.value))
  {
    IsAmong(w.files, Place(q.domain, q.from), q.item, name);
    assert |{name}| == 1;
    assert TheOnly({name}) == name;
  }

  lemma CandidatesAre(w: World, q: Request, k: nat)
    requires PlanOf(w, q).Planned? && k <= 5
    ensures var p := PlanOf(w, q).plan;
            Candidates(AfterSteps(w, p, k).files, p.from, q.item) ==
            if k > 2 then {}
            else if k == 1 && PathName(q.item) == p.Temp().name then {p.name, p.Temp().name}
            else {p.name}
  {
    var p := PlanOf(w, q).plan;
    forall name ensures
      name in Candidates(AfterSteps(w, p, k).files, p.from, q.item) <==>
      (name == p.name && k <= 2) || (name == p.Temp().name && k == 1 && PathName(q.item) == p.Temp().name) {
      CandidatesAtStep(w, q, k, name);
    }
  }

  lemma RetryFindsNothing(w: World, q: Request, k: nat)
    requires PlanOf(w, q).Planned? && 2 < k <= 5
    ensures PlanOf(AfterSteps(w, PlanOf(w, q).plan, k), q) == NotFound
  {
    PlanFacts(w, q);
    CandidatesAre(w, q, k);
  }

  lemma RetryFindsTwo(w: World, q: Request)
    requires PlanOf(w, q).Planned? && PathName(q.item) == PlanOf(w, q).plan.Temp().name
    ensures PlanOf(AfterSteps(w, PlanOf(w, q).plan, 1), q) == Ambiguous
  {
    PlanFacts(w, q);
    CandidatesAre(w, q, 1);
    TempIsNoItem(PlanOf(w, q).plan);
    assert |{PlanOf(w, q).plan.name, PlanOf(w, q).plan.Temp().name}| == 2;
  }

  lemma RetryFindsOne(w: World, q: Request, k: nat)
    requires PlanOf(w, q).Planned? && 1 <= k <= 2
    requires k == 1 ==> PathName(q.item) != PlanOf(w, q).plan.Temp().name
    ensures PlanOf(AfterSteps(w, PlanOf(w, q).plan, k), q) == if k == 1 then PlanOf(w, q) else TargetExists
  {
    var p := PlanOf(w, q).plan;
    PlanFacts(w, q);
    CandidatesAre(w, q, k);
    FilesAtStep(w, p, k, p.Source());
    FilesAtStep(w, p, k, p.Target());
    PlanOfOne(AfterSteps(w, p, k), q, p.name);
  }

  /** What the same request does to a move that was stopped: it is carried out if nothing but the
      temporary file was written, unless the request named that file; later it is refused. */
  lemma RetryAtStep(w: World, q: Request, k: nat)
    requires PlanOf(w, q).Planned? && k <= 5
    ensures var v := AfterSteps(w, PlanOf(w, q).plan, k);
            PlanOf(v, q) ==
            if k == 0 then PlanOf(w, q)
            else if k == 1 then
              if PathName(q.item) == PlanOf(w, q).plan.Temp().name then Ambiguous else PlanOf(w, q)
            else if k == 2 then TargetExists
            else NotFound
  {
    if k == 1 && PathName(q.item) == PlanOf(w, q).plan.Temp().name {
      RetryFindsTwo(w, q);
    } else if 1 <= k <= 2 {
      RetryFindsOne(w, q, k);
    } else if k > 2 {
      RetryFindsNothing(w, q, k);
    }
  }

  lemma SameFromHere(v: World, w: World, p: Plan)
    requires AfterSteps(v, p, 2) == AfterSteps(w, p, 2)
    ensures AfterSteps(v, p, 5) == AfterSteps(w, p, 5)
  {
    assert AfterSteps(v, p, 3) == AfterSteps(w, p, 3);
    assert AfterSteps(v, p, 4) == AfterSteps(w, p, 4);
  }

  lemma TempTwice(w: World, p: Plan)
    ensures AfterSteps(AfterSteps(w, p, 1), p, 5) == AfterSteps(w, p, 5)
  {
    assert WriteTemp(WriteTemp(w, p), p) == WriteTemp(w, p);
    assert AfterSteps(AfterSteps(w, p, 1), p, 2) == AfterSteps(w, p, 2);
    SameFromHere(AfterSteps(w, p, 1), w, p);
  }

  /** Stopped before the rename, the move can simply be made again. */
  lemma RetryCompletes(w: World, q: Request, k: nat)
    requires PlanOf(w, q).Planned? && k <= 1
    requires PathName(q.item) != PlanOf(w, q).plan.Temp().name
    ensures Moved(AfterSteps(w, PlanOf(w, q).plan, k), q) == Moved(w, q)
  {
    RetryAtStep(w, q, k);
    if k == 1 {
      TempTwice(w, PlanOf(w, q).plan);
    }
  }
}
