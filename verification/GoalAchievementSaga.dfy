/** The saga as an object: handlers that load, change and save its state, and the replay after a rebase. */
module GoalAchievementSaga {
  import opened Wrappers
  import opened ProjectModel
  import opened GoalSaga
  import opened SagaCommands

  // Where its events come from

  /** The part of a project event the saga listens to. */
  function Heard(p: ProjectId, e: ProjectEvent): Option<SagaEvent> {
    match e
    case ProjectCreated(_, status, _, _, _, goal, _, _) => Some(Created(p, goal, status))
    case ProjectGoalAdded(goal, _) => Some(GoalAdded(p, goal))
    case ProjectGoalRemoved(_) => Some(GoalRemoved(p))
    case ProjectStatusTransitioned(status, _) => Some(Transitioned(p, status))
    case _ => None
  }

  /** What a command on a project decides is an event the saga counts exactly, and the facts keep following the
      project. */
  lemma DecidedIsAllowed(f: map<ProjectId, ProjectState>, p: ProjectId, s: State, c: Command, at: Millis)
    requires p in f && f[p] == ProjectState(s.goalId, s.status)
    requires Decide(s, c, at).Ok? && Decide(s, c, at).value.Some?
    ensures var e := Decide(s, c, at).value.value;
            match Heard(p, e)
            case None => Apply(s, e).Ok? ==> ProjectState(Apply(s, e).value.goalId, Apply(s, e).value.status) == f[p]
            case Some(heard) =>
              && Allowed(f, heard) && Apply(s, e).Ok?
              && NextFacts(f, heard)[p] == ProjectState(Apply(s, e).value.goalId, Apply(s, e).value.status)
  {
  }

  /** A creation is heard as one, and the facts start as the project does. */
  lemma CreatedIsAllowed(f: map<ProjectId, ProjectState>, p: ProjectId, e: ProjectEvent)
    requires e.ProjectCreated? && p !in f
    ensures Heard(p, e) == Some(Created(p, e.goalId, e.status)) && Allowed(f, Heard(p, e).value)
    ensures Apply(BLANK, e).Ok?
    ensures NextFacts(f, Heard(p, e).value) ==
              f[p := ProjectState(Apply(BLANK, e).value.goalId, Apply(BLANK, e).value.status)]
  {
  }

  /** The goal whose state an event saves. */
  function Touched(s: Store, e: SagaEvent): Option<GoalId> {
    if e.Achieved? || e.Unachieved? || e.GoalArchived? || e.GoalChanged? then Some(e.aggregate) else Concerned(s, e)
  }

  function SeenBy(s: Store, e: SagaEvent): set<GoalId> {
    if Touched(s, e).Some? then {Touched(s, e).value} else {}
  }

  /** Replay on top of a store, and the goals it meets. */
  function ReplayOn(s: Store, events: seq<SagaEvent>): Store {
    if events == [] then s else Recorded(ReplayOn(s, events[..|events| - 1]), events[|events| - 1])
  }

  function Met(s: Store, events: seq<SagaEvent>): set<GoalId> {
    if events == [] then {} else
      Met(s, events[..|events| - 1]) + SeenBy(ReplayOn(s, events[..|events| - 1]), events[|events| - 1])
  }

  lemma {:induction false} MetAreStored(s: Store, events: seq<SagaEvent>)
    ensures s.goals.Keys <= ReplayOn(s, events).goals.Keys
    ensures Met(s, events) <= ReplayOn(s, events).goals.Keys
  {
    hide Recorded, SeenBy;
    if events != [] {
      MetAreStored(s, events[..|events| - 1]);
      RecordedGoals(ReplayOn(s, events[..|events| - 1]), events[|events| - 1]);
    }
  }

  lemma RecordedGoals(s: Store, e: SagaEvent)
    ensures s.goals.Keys + SeenBy(s, e) <= Recorded(s, e).goals.Keys
  {
  }

  lemma SameCountsChain(a: Store, b: Store, c: Store)
    requires SameCounts(a, b) && SameCounts(b, c)
    ensures SameCounts(a, c)
  {
  }

  lemma SameGoals(a: Store, b: Store, g: GoalId)
    requires SameCounts(a, b)
    ensures GoalOf(b, g) == GoalOf(a, g).(requested := GoalOf(b, g).requested)
  {
  }

  lemma SameKeys(a: Store, b: Store)
    requires SameCounts(a, b)
    ensures a.goals.Keys == b.goals.Keys
  {
  }

  lemma SameCountsSelf(s: Store)
    ensures SameCounts(s, s)
  {
  }

  lemma {:induction false} ReplayOnEmpty(events: seq<SagaEvent>)
    ensures ReplayOn(EMPTY_STORE, events) == ReplayAll(events)
  {
    if events != [] {
      ReplayOnEmpty(events[..|events| - 1]);
    }
  }

  lemma {:induction false} MetAreAll(events: seq<SagaEvent>)
    ensures Met(EMPTY_STORE, events) == ReplayAll(events).goals.Keys
  {
    hide SeenBy;
    ReplayOnEmpty(events);
    if events != [] {
      MetAreAll(events[..|events| - 1]);
      ReplayOnEmpty(events[..|events| - 1]);
      RecordedKeys(ReplayAll(events[..|events| - 1]), events[|events| - 1]);
    }
  }

  lemma RecordedKeys(s: Store, e: SagaEvent)
    ensures Recorded(s, e).goals.Keys == s.goals.Keys + SeenBy(s, e)
  {
  }

  /** The commands a reconciliation owes a goal. */
  function Owed(g: GoalId, state: GoalState): (requests: seq<Request>)
    ensures |requests| <= 1 && forall r :: r in requests ==> r.goal == g
  {
    if ShouldAchieve(state, true) then [Achieve(g, state.version)]
    else if ShouldUnachieve(state) then [Unachieve(g, state.version)] else []
  }

  /** After a replay a goal is owed exactly what the replayed events call for. */
  lemma OwedIsCalledFor(events: seq<SagaEvent>, r: Request)
    requires WellFormed(events)
    ensures CalledFor(events, r) <==>
              r.goal in ReplayAll(events).goals && r in Owed(r.goal, ReplayAll(events).goals[r.goal])
  {
    hide WellFormed, ReplayAll, CalledFor, AllCompleted;
    CalledForIff(events, r);
  }

  /** Reconciling a goal sends what it is owed, and leaves the other goals alone. */
  lemma SettleSendsOwed(s: Store, g: GoalId, reply: Reply)
    requires g in s.goals
    ensures Settle(s, g, true, reply).requests == Owed(g, s.goals[g])
    ensures Settle(s, g, true, reply).failed <==> Owed(g, s.goals[g]) != [] && reply == Failed
    ensures SameCounts(s, Settle(s, g, true, reply).store)
    ensures forall h :: h in s.goals && h != g ==> Settle(s, g, true, reply).store.goals[h] == s.goals[h]
    ensures Settle(s, g, true, reply).store.goals[g].requested <==>
              if AsksToAchieve(Owed(g, s.goals[g]), g) then reply == Done else s.goals[g].requested
  {
    hide AllCompleted;
    var owed := Owed(g, s.goals[g]);
    assert AsksToAchieve(owed, g) <==> owed != [] && owed[0].Achieve?;
  }

  /** Whether a goal counts as asked to be achieved once the commands are out. */
  ghost predicate FlagsSet(before: Store, after: Store, sent: seq<Request>, replies: GoalId -> Reply) {
    forall g :: g in before.goals && g in after.goals ==>
      (after.goals[g].requested <==> if AsksToAchieve(sent, g) then replies(g) == Done else before.goals[g].requested)
  }

  predicate OnePerGoal(sent: seq<Request>) {
    forall i, j :: 0 <= i < j < |sent| ==> sent[i].goal != sent[j].goal
  }

  lemma AsksInSum(a: seq<Request>, b: seq<Request>, g: GoalId)
    ensures AsksToAchieve(a + b, g) <==> AsksToAchieve(a, g) || AsksToAchieve(b, g)
  {
    if i :| 0 <= i < |a| && a[i].Achieve? && a[i].goal == g { assert (a + b)[i] == a[i]; }
    if i :| 0 <= i < |b| && b[i].Achieve? && b[i].goal == g { assert (a + b)[|a| + i] == b[i]; }
  }

  /** Reconciliation with some goals done: each of them was sent what it is owed, the others are untouched. */
  ghost predicate Reconciled(s: Store, now: Store, sent: seq<Request>, done: set<GoalId>, replies: GoalId -> Reply) {
    && SameCounts(s, now) && done <= s.goals.Keys == now.goals.Keys
    && (forall g :: g in s.goals && g !in done ==> now.goals[g] == s.goals[g])
    && OnePerGoal(sent) && FlagsSet(s, now, sent, replies)
    && (forall r :: r in sent ==> r.goal in done && r in Owed(r.goal, s.goals[r.goal]))
    && (forall g, r :: g in done && r in Owed(g, s.goals[g]) ==> r in sent)
  }

  /** A command owed to one of the goals failed. */
  ghost predicate Refused(s: Store, done: set<GoalId>, replies: GoalId -> Reply) {
    exists g :: g in done && g in s.goals && Owed(g, s.goals[g]) != [] && replies(g) == Failed
  }

  lemma FlagsOne(s: Store, now: Store, sent: seq<Request>, replies: GoalId -> Reply, g: GoalId)
    requires g in now.goals && g in s.goals && now.goals[g] == s.goals[g] && s.goals.Keys == now.goals.Keys
    requires FlagsSet(s, now, sent, replies) && OnePerGoal(sent) && forall r :: r in sent ==> r.goal != g
    ensures var owed := Owed(g, s.goals[g]);
            OnePerGoal(sent + owed) && FlagsSet(s, Settle(now, g, true, replies(g)).store, sent + owed, replies)
  {
    hide Settle, Owed, AsksToAchieve;
    SettleSendsOwed(now, g, replies(g));
    var owed := Owed(g, s.goals[g]);
    assert forall r :: r in owed ==> r.goal == g;
    forall h ensures AsksToAchieve(sent + owed, h) <==> if h == g then AsksToAchieve(owed, h) else AsksToAchieve(sent, h)
    {
      AsksInSum(sent, owed, h);
      AsksOnly(sent, h);
      AsksOnly(owed, h);
    }
  }

  /** One more goal. */
  lemma ReconcileOne(s: Store, now: Store, sent: seq<Request>, done: set<GoalId>, replies: GoalId -> Reply, g: GoalId)
    requires Reconciled(s, now, sent, done, replies) && g in s.goals && g !in done
    ensures g in now.goals && Settle(now, g, true, replies(g)).requests == Owed(g, s.goals[g])
    ensures Settle(now, g, true, replies(g)).failed <==> Owed(g, s.goals[g]) != [] && replies(g) == Failed
    ensures Reconciled(s, Settle(now, g, true, replies(g)).store, sent + Owed(g, s.goals[g]), done + {g}, replies)
  {
    hide Settle, Owed, FlagsSet, OnePerGoal, SameCounts;
    SettleSendsOwed(now, g, replies(g));
    FlagsOne(s, now, sent, replies, g);
    SameCountsChain(s, now, Settle(now, g, true, replies(g)).store);
    SameKeys(s, Settle(now, g, true, replies(g)).store);
  }

  lemma AsksOnly(sent: seq<Request>, g: GoalId)
    ensures AsksToAchieve(sent, g) ==> exists r :: r in sent && r.goal == g
  {
  }

  lemma NothingSent(s: Store, replies: GoalId -> Reply)
    ensures Reconciled(s, s, [], {}, replies)
  {
  }

  lemma SplitSent(before: seq<Request>, sent: seq<Request>)
    ensures (before + sent)[..|before|] == before && (before + sent)[|before|..] == sent
  {
  }

  lemma ReconcileEnds(s: Store, now: Store, sent: seq<Request>, done: set<GoalId>, replies: GoalId -> Reply)
    requires Reconciled(s, now, sent, done, replies)
    ensures SameCounts(s, now) && OnePerGoal(sent) && FlagsSet(s, now, sent, replies) && done <= s.goals.Keys
    ensures forall r :: r in sent ==> r.goal in done && r in Owed(r.goal, s.goals[r.goal])
    ensures forall g, r :: g in done && r in Owed(g, s.goals[g]) ==> r in sent
  {
    hide SameCounts, OnePerGoal, FlagsSet, Owed;
  }

  class Saga {
    var goals: map<GoalId, GoalState>
    var projects: map<ProjectId, ProjectState>
    var replaying: bool
    var seen: set<GoalId>
    /** The commands handed to the dispatcher so far. */
    var dispatched: seq<Request>

    constructor ()
      ensures Now() == EMPTY_STORE && !replaying && seen == {} && dispatched == []
    {
      goals, projects, replaying, seen, dispatched := map[], map[], false, {}, [];
    }

    function Now(): Store
      reads this
    {
      Store(goals, projects)
    }

    /** What a handler leaves behind, live or replaying. */
    twostate predicate Reacted(e: SagaEvent, reply: Reply, failed: bool)
      reads this
    {
      var s := old(Now());
      && replaying == old(replaying) && seen == old(seen) + SeenBy(s, e)
      && if old(replaying) then Now() == Recorded(s, e) && dispatched == old(dispatched) && !failed
         else var r := Handle(s, e, reply);
              Now() == r.store && dispatched == old(dispatched) + r.requests && failed == r.failed
    }

    method EnsureGoalState(g: GoalId) returns (state: GoalState)
      ensures state == GoalOf(Now(), g)
    {
      state := if g in goals then goals[g] else NEW_GOAL;
    }

    method TryAchieve(g: GoalId, retry: bool, reply: Reply) returns (failed: bool)
      requires g in goals
      modifies this`goals, this`dispatched
      ensures var r := MaybeAchieve(old(Now()), g, retry, reply);
              Now() == r.store && dispatched == old(dispatched) + r.requests && failed == r.failed
    {
      var state := goals[g];
      if state.achieved || state.archived || state.linked == [] || !AllCompleted(state) || state.version == 0 {
        return false;
      }
      if state.requested && !retry {
        return false;
      }
      state := state.(requested := true);
      goals := goals[g := state];
      dispatched := dispatched + [Achieve(g, state.version)];
      if reply != Done {
        state := state.(requested := false);
        goals := goals[g := state];
        return reply == Failed;
      }
      return false;
    }

    method TryUnachieve(g: GoalId, reply: Reply) returns (failed: bool)
      requires g in goals
      modifies this`dispatched
      ensures var r := MaybeUnachieve(Now(), g, reply);
              Now() == r.store && dispatched == old(dispatched) + r.requests && failed == r.failed
    {
      var state := goals[g];
      if (!state.achieved && !state.requested) || state.archived || state.linked == [] || AllCompleted(state)
         || state.version == 0 {
        return false;
      }
      dispatched := dispatched + [Unachieve(g, state.version)];
      return reply == Failed;
    }

    method TryBoth(g: GoalId, retry: bool, reply: Reply) returns (failed: bool)
      requires g in goals
      modifies this`goals, this`dispatched
      ensures var r := Settle(old(Now()), g, retry, reply);
              Now() == r.store && dispatched == old(dispatched) + r.requests && failed == r.failed
    {
      failed := TryAchieve(g, retry, reply);
      if !failed {
        failed := TryUnachieve(g, reply);
      }
    }

    method HandleProjectCreated(p: ProjectId, goal: Option<GoalId>, status: Status, reply: Reply) returns (failed: bool)
      modifies this
      ensures Reacted(Created(p, goal, status), reply, failed)
    {
      projects := projects[p := ProjectState(goal, Some(status))];
      if goal.None? {
        return false;
      }
      seen := seen + {goal.value};
      var state := EnsureGoalState(goal.value);
      state := Link(state, p);
      if status == Completed {
        state := Complete(state, p);
      }
      goals := goals[goal.value := state];
      failed := false;
      if !replaying {
        failed := TryBoth(goal.value, state.requested, reply);
      }
    }

    method HandleProjectGoalAdded(p: ProjectId, goal: GoalId, reply: Reply) returns (failed: bool)
      modifies this
      ensures Reacted(GoalAdded(p, goal), reply, failed)
    {
      var project := ProjectOf(Now(), p).(goal := Some(goal));
      projects := projects[p := project];
      var state := EnsureGoalState(goal);
      state := Link(state, p);
      if project.status == Some(Completed) {
        state := Complete(state, p);
      }
      goals := goals[goal := state];
      seen := seen + {goal};
      failed := false;
      if !replaying {
        failed := TryBoth(goal, state.requested, reply);
      }
    }

    method HandleProjectGoalRemoved(p: ProjectId, reply: Reply) returns (failed: bool)
      modifies this
      ensures Reacted(GoalRemoved(p), reply, failed)
    {
      var project := ProjectOf(Now(), p);
      if project.goal.None? {
        projects := projects - {p};
        return false;
      }
      var goal := project.goal.value;
      projects := projects[p := project.(goal := None)];
      var state := EnsureGoalState(goal);
      goals := goals[goal := Unlink(state, p)];
      seen := seen + {goal};
      failed := false;
      if !replaying {
        failed := TryUnachieve(goal, reply);
      }
    }

    method HandleProjectStatusTransitioned(p: ProjectId, status: Status, reply: Reply) returns (failed: bool)
      modifies this
      ensures Reacted(Transitioned(p, status), reply, failed)
    {
      var project := ProjectOf(Now(), p).(status := Some(status));
      projects := projects[p := project];
      if project.goal.None? {
        return false;
      }
      var goal := project.goal.value;
      seen := seen + {goal};
      var state := EnsureGoalState(goal);
      state := Link(state, p);
      state := if status == Completed then Complete(state, p) else Reopen(state, p);
      goals := goals[goal := state];
      failed := false;
      if !replaying {
        failed := TryBoth(goal, state.requested, reply);
      }
    }

    method HandleGoalEvent(e: SagaEvent, reply: Reply)
      requires e.Achieved? || e.Unachieved? || e.GoalArchived? || e.GoalChanged?
      modifies this
      ensures Reacted(e, reply, false)
    {
      var state := EnsureGoalState(e.aggregate);
      match e {
        case Achieved(_, _) => state := state.(achieved := true, requested := false);
        case Unachieved(_, _) => state := state.(achieved := false, requested := false);
        case GoalArchived(_, _) => state := state.(archived := true, requested := false);
        case _ =>
      }
      state := state.(version := NextVersion(state, e.version));
      goals := goals[e.aggregate := state];
      seen := seen + {e.aggregate};
    }

    method HandleEvent(e: SagaEvent, reply: Reply) returns (failed: bool)
      modifies this
      ensures Reacted(e, reply, failed)
    {
      match e {
        case Created(p, goal, status) => failed := HandleProjectCreated(p, goal, status, reply);
        case GoalAdded(p, goal) => failed := HandleProjectGoalAdded(p, goal, reply);
        case GoalRemoved(p) => failed := HandleProjectGoalRemoved(p, reply);
        case Transitioned(p, status) => failed := HandleProjectStatusTransitioned(p, status, reply);
        case _ =>
          HandleGoalEvent(e, reply);
          failed := false;
      }
    }

    /** Replays the seed events with commands held back, then reconciles every goal it met: each is sent exactly what it
        is owed, in some order, up to the first failure. */
    method Bootstrap(events: seq<SagaEvent>, replies: GoalId -> Reply) returns (failed: bool)
      modifies this
      ensures !replaying && seen == Met(old(Now()), events)
      ensures SameCounts(ReplayOn(old(Now()), events), Now())
      ensures var s := ReplayOn(old(Now()), events);
              && |old(dispatched)| <= |dispatched| && dispatched[..|old(dispatched)|] == old(dispatched)
              && seen <= s.goals.Keys
              && (forall r :: r in dispatched[|old(dispatched)|..] ==> r.goal in seen && r in Owed(r.goal, s.goals[r.goal]))
              && OnePerGoal(dispatched[|old(dispatched)|..])
              && FlagsSet(s, Now(), dispatched[|old(dispatched)|..], replies)
              && (!failed ==> forall g, r :: g in seen && r in Owed(g, s.goals[g]) ==> r in dispatched[|old(dispatched)|..])
              && (failed ==> exists g :: g in seen && Owed(g, s.goals[g]) != [] && replies(g) == Failed)
    {
      hide Recorded, Owed, SeenBy, Settle, SameCounts, Handle, FlagsSet, OnePerGoal, Reconciled;
      MetAreStored(Now(), events);
      seen, replaying := {}, true;
      ghost var start, before := Now(), dispatched;
      for k := 0 to |events|
        invariant replaying && dispatched == before
        invariant Now() == ReplayOn(start, events[..k]) && seen == Met(start, events[..k])
      {
        assert events[..k + 1][..k] == events[..k];
        var _ := HandleEvent(events[k], Done);
      }
      assert events[..|events|] == events;
      replaying := false;
      ghost var done;
      failed, done := Reconcile(replies, start, events);
      ReconcileEnds(ReplayOn(start, events), Now(), dispatched[|before|..], done, replies);
    }

    /** One goal of the reconciliation. */
    method ReconcileGoal(g: GoalId, replies: GoalId -> Reply, ghost s: Store, ghost sent: seq<Request>,
                         ghost done: set<GoalId>) returns (failed: bool)
      requires Reconciled(s, Now(), sent, done, replies) && g in s.goals && g !in done
      modifies this`goals, this`dispatched
      ensures dispatched == old(dispatched) + Owed(g, s.goals[g])
      ensures Reconciled(s, Now(), sent + Owed(g, s.goals[g]), done + {g}, replies)
      ensures failed ==> Refused(s, done + {g}, replies)
    {
      hide Settle, Owed, Reconciled;
      ReconcileOne(s, Now(), sent, done, replies, g);
      failed := TryBoth(g, true, replies(g));
    }

    method Reconcile(replies: GoalId -> Reply, ghost start: Store, ghost events: seq<SagaEvent>)
      returns (failed: bool, ghost done: set<GoalId>)
      requires Now() == ReplayOn(start, events) && seen == Met(start, events) && !replaying
      modifies this`goals, this`dispatched
      ensures |old(dispatched)| <= |dispatched| && dispatched[..|old(dispatched)|] == old(dispatched)
      ensures Reconciled(ReplayOn(start, events), Now(), dispatched[|old(dispatched)|..], done, replies)
      ensures done <= seen && (!failed ==> done == seen)
      ensures failed ==> Refused(ReplayOn(start, events), done, replies)
    {
      hide ReplayOn, Met, Reconciled, Owed, Refused;
      MetAreStored(start, events);
      ghost var s, before := Now(), dispatched;
      ghost var sent: seq<Request> := [];
      NothingSent(s, replies);
      var rest := seen;
      done, failed := {}, false;
      while rest != {} && !failed
        invariant rest <= seen && done == seen - rest && (failed ==> Refused(s, done, replies))
        invariant dispatched == before + sent && Reconciled(s, Now(), sent, done, replies)
        decreases |rest|
      {
        var g :| g in rest;
        failed := ReconcileGoal(g, replies, s, sent, done);
        sent := sent + Owed(g, s.goals[g]);
        done, rest := done + {g}, rest - {g};
      }
      SplitSent(before, sent);
    }

    /** After a rebase: whatever was counted before, counts and goals are those of the replayed events, and each
        goal is sent once what these events call for, up to the first failure. */
    method OnRebaseRequired(events: seq<SagaEvent>, replies: GoalId -> Reply) returns (failed: bool)
      requires WellFormed(events)
      modifies this
      ensures Exact(Now(), FactsOf(events)) && forall g :: FollowsGoal(events, g, GoalOf(Now(), g))
      ensures |old(dispatched)| <= |dispatched| && dispatched[..|old(dispatched)|] == old(dispatched)
      ensures var sent := dispatched[|old(dispatched)|..];
              && OnePerGoal(sent)
              && (forall r :: r in sent ==> CalledFor(events, r))
              && (!failed ==> forall r :: CalledFor(events, r) ==> r in sent)
              && (failed ==> exists r :: CalledFor(events, r) && replies(r.goal) == Failed)
              && forall g :: g in goals ==> (goals[g].requested <==> AsksToAchieve(sent, g) && replies(g) == Done)
    {
      hide Exact, FactsOf, SameCounts, WellFormed, Owed, ReplayAll, CalledFor, FollowsGoal, OnePerGoal, AsksToAchieve;
      goals, projects := map[], map[];
      failed := Bootstrap(events, replies);
      ReplayOnEmpty(events);
      ReplayedIsExact(events);
      SameCountsSameExact(ReplayAll(events), Now(), FactsOf(events));
      MetAreAll(events);
      SameKeys(ReplayAll(events), Now());
      forall r ensures CalledFor(events, r) <==>
                         r.goal in seen && r in Owed(r.goal, ReplayAll(events).goals[r.goal])
      {
        OwedIsCalledFor(events, r);
      }
      forall g ensures FollowsGoal(events, g, GoalOf(Now(), g)) && !GoalOf(ReplayAll(events), g).requested {
        ReplayedFollowsGoal(events, g);
        SameGoals(ReplayAll(events), Now(), g);
        SameFlagsFollow(events, g, GoalOf(ReplayAll(events), g), GoalOf(Now(), g));
      }
      ghost var s, sent := ReplayAll(events), dispatched[|old(dispatched)|..];
      if failed {
        ghost var g :| g in seen && Owed(g, s.goals[g]) != [] && replies(g) == Failed;
        assert Owed(g, s.goals[g])[0] in Owed(g, s.goals[g]);
        assert CalledFor(events, Owed(g, s.goals[g])[0]);
      }
      forall g | g in goals ensures goals[g].requested <==> AsksToAchieve(sent, g) && replies(g) == Done {
        assert g in s.goals && s.goals[g] == GoalOf(s, g);
      }
    }
  }
}
