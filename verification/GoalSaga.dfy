/** The goal achievement saga: which projects a goal counts, which of them are completed, and when it asks for the
    goal to be achieved or unachieved. */
module GoalSaga {
  import opened Wrappers
  import opened ProjectModel

  type ProjectId = string
  type GoalId = string

  datatype SagaEvent =
    | Created(project: ProjectId, goal: Option<GoalId>, status: Status)
    | GoalAdded(project: ProjectId, to: GoalId)
    | GoalRemoved(project: ProjectId)
    | Transitioned(project: ProjectId, status: Status)
    | Achieved(aggregate: GoalId, version: Option<nat>)
    | Unachieved(aggregate: GoalId, version: Option<nat>)
    | GoalArchived(aggregate: GoalId, version: Option<nat>)
    | GoalChanged(aggregate: GoalId, version: Option<nat>)

  datatype ProjectState = ProjectState(goal: Option<GoalId>, status: Option<Status>)

  datatype GoalState = GoalState(linked: seq<ProjectId>, completed: seq<ProjectId>, achieved: bool, archived: bool,
                                 requested: bool, version: nat)

  const NEW_GOAL: GoalState := GoalState([], [], false, false, false, 0)
  const NEW_PROJECT: ProjectState := ProjectState(None, None)

  datatype Store = Store(goals: map<GoalId, GoalState>, projects: map<ProjectId, ProjectState>)

  const EMPTY_STORE: Store := Store(map[], map[])

  datatype Request = Achieve(goal: GoalId, knownVersion: nat) | Unachieve(goal: GoalId, knownVersion: nat)

  /** How a dispatched command ends: done, refused by a concurrent write, or failed otherwise. */
  datatype Reply = Done | Conflict | Failed

  // Lists of ids

  function Including(ids: seq<ProjectId>, p: ProjectId): seq<ProjectId> {
    if p in ids then ids else ids + [p]
  }

  function Excluding(ids: seq<ProjectId>, p: ProjectId): (r: seq<ProjectId>)
    ensures forall q :: q in r <==> q in ids && q != p
    ensures Distinct(ids) ==> Distinct(r)
  {
    if ids == [] then [] else
      var init, last := ids[..|ids| - 1], ids[|ids| - 1];
      assert ids == init + [last];
      assert Distinct(ids) ==> last !in Excluding(init, p);
      if last == p then Excluding(init, p) else Excluding(init, p) + [last]
  }

  ghost predicate Distinct(ids: seq<ProjectId>) {
    forall i, j :: 0 <= i < j < |ids| ==> ids[i] != ids[j]
  }

  function Link(g: GoalState, p: ProjectId): GoalState { g.(linked := Including(g.linked, p)) }
  function Complete(g: GoalState, p: ProjectId): GoalState { g.(completed := Including(g.completed, p)) }
  function Reopen(g: GoalState, p: ProjectId): GoalState { g.(completed := Excluding(g.completed, p)) }
  function Unlink(g: GoalState, p: ProjectId): GoalState {
    g.(linked := Excluding(g.linked, p), completed := Excluding(g.completed, p))
  }

  // One event

  function GoalOf(s: Store, g: GoalId): GoalState { if g in s.goals then s.goals[g] else NEW_GOAL }
  function ProjectOf(s: Store, p: ProjectId): ProjectState { if p in s.projects then s.projects[p] else NEW_PROJECT }
  function NextVersion(g: GoalState, v: Option<nat>): nat { if v.Some? then v.value else g.version + 1 }

  function SaveGoal(s: Store, g: GoalId, state: GoalState): Store { s.(goals := s.goals[g := state]) }
  function SaveProject(s: Store, p: ProjectId, state: ProjectState): Store { s.(projects := s.projects[p := state]) }

  /** The goal whose state a project event changes. */
  function Concerned(s: Store, e: SagaEvent): Option<GoalId> {
    match e
    case Created(_, goal, _) => goal
    case GoalAdded(_, goal) => Some(goal)
    case GoalRemoved(p) => ProjectOf(s, p).goal
    case Transitioned(p, _) => ProjectOf(s, p).goal
    case _ => None
  }

  /** What the handler saves before it considers any command. */
  function Recorded(s: Store, e: SagaEvent): Store {
    match e
    case Created(p, goal, status) =>
      var saved := SaveProject(s, p, ProjectState(goal, Some(status)));
      if goal.None? then saved else
        var linked := Link(GoalOf(s, goal.value), p);
        SaveGoal(saved, goal.value, if status == Completed then Complete(linked, p) else linked)
    case GoalAdded(p, goal) =>
      var state := ProjectOf(s, p).(goal := Some(goal));
      var linked := Link(GoalOf(s, goal), p);
      SaveGoal(SaveProject(s, p, state), goal, if state.status == Some(Completed) then Complete(linked, p) else linked)
    case GoalRemoved(p) =>
      var state := ProjectOf(s, p);
      if state.goal.None? then s.(projects := s.projects - {p})
      else SaveGoal(SaveProject(s, p, state.(goal := None)), state.goal.value, Unlink(GoalOf(s, state.goal.value), p))
    case Transitioned(p, status) =>
      var state := ProjectOf(s, p).(status := Some(status));
      var saved := SaveProject(s, p, state);
      if state.goal.None? then saved else
        var linked := Link(GoalOf(s, state.goal.value), p);
        SaveGoal(saved, state.goal.value, if status == Completed then Complete(linked, p) else Reopen(linked, p))
    case Achieved(g, v) =>
      SaveGoal(s, g, GoalOf(s, g).(achieved := true, requested := false, version := NextVersion(GoalOf(s, g), v)))
    case Unachieved(g, v) =>
      SaveGoal(s, g, GoalOf(s, g).(achieved := false, requested := false, version := NextVersion(GoalOf(s, g), v)))
    case GoalArchived(g, v) =>
      SaveGoal(s, g, GoalOf(s, g).(archived := true, requested := false, version := NextVersion(GoalOf(s, g), v)))
    case GoalChanged(g, v) => SaveGoal(s, g, GoalOf(s, g).(version := NextVersion(GoalOf(s, g), v)))
  }

  predicate AllCompleted(g: GoalState) {
    forall i :: 0 <= i < |g.linked| ==> g.linked[i] in g.completed
  }

  predicate ShouldAchieve(g: GoalState, retry: bool) {
    !g.achieved && !g.archived && g.linked != [] && AllCompleted(g) && g.version > 0 && (!g.requested || retry)
  }

  predicate ShouldUnachieve(g: GoalState) {
    (g.achieved || g.requested) && !g.archived && g.linked != [] && !AllCompleted(g) && g.version > 0
  }

  /** The store, the commands dispatched, and whether the handler ended in an error. */
  datatype Reaction = Reaction(store: Store, requests: seq<Request>, failed: bool)

  function MaybeAchieve(s: Store, g: GoalId, retry: bool, reply: Reply): Reaction
    requires g in s.goals
  {
    var state := s.goals[g];
    if !ShouldAchieve(state, retry) then Reaction(s, [], false)
    else Reaction(SaveGoal(s, g, state.(requested := reply == Done)), [Achieve(g, state.version)], reply == Failed)
  }

  function MaybeUnachieve(s: Store, g: GoalId, reply: Reply): Reaction
    requires g in s.goals
  {
    var state := s.goals[g];
    if !ShouldUnachieve(state) then Reaction(s, [], false)
    else Reaction(s, [Unachieve(g, state.version)], reply == Failed)
  }

  /** First the one, then, unless that failed, the other. */
  function Settle(s: Store, g: GoalId, retry: bool, reply: Reply): (r: Reaction)
    requires g in s.goals
    ensures |r.requests| <= 1
  {
    var first := MaybeAchieve(s, g, retry, reply);
    if first.failed then first else
      var second := MaybeUnachieve(first.store, g, reply);
      Reaction(second.store, first.requests + second.requests, second.failed)
  }

  /** One event handled live.  A removed project can only lead to an unachievement. */
  function Handle(s: Store, e: SagaEvent, reply: Reply): (r: Reaction)
    ensures |r.requests| <= 1
  {
    var saved := Recorded(s, e);
    var goal := Concerned(s, e);
    if goal.None? then Reaction(saved, [], false)
    else if e.GoalRemoved? then MaybeUnachieve(saved, goal.value, reply)
    else Settle(saved, goal.value, saved.goals[goal.value].requested, reply)
  }

  // The reference: each project's current goal and status

  function NextFacts(f: map<ProjectId, ProjectState>, e: SagaEvent): map<ProjectId, ProjectState> {
    match e
    case Created(p, goal, status) => f[p := ProjectState(goal, Some(status))]
    case GoalAdded(p, goal) => f[p := ProjectState(Some(goal), if p in f then f[p].status else None)]
    case GoalRemoved(p) => if p in f then f[p := f[p].(goal := None)] else f
    case Transitioned(p, status) => f[p := ProjectState(if p in f then f[p].goal else None, Some(status))]
    case _ => f
  }

  function FactsOf(events: seq<SagaEvent>): map<ProjectId, ProjectState> {
    if events == [] then map[] else NextFacts(FactsOf(events[..|events| - 1]), events[|events| - 1])
  }

  predicate Counts(f: map<ProjectId, ProjectState>, p: ProjectId, g: GoalId) {
    p in f && f[p].goal == Some(g)
  }

  predicate CountsCompleted(f: map<ProjectId, ProjectState>, p: ProjectId, g: GoalId) {
    Counts(f, p, g) && f[p].status == Some(Completed)
  }

  ghost predicate GoalExact(f: map<ProjectId, ProjectState>, g: GoalId, state: GoalState) {
    && Distinct(state.linked) && Distinct(state.completed)
    && (forall p :: p in state.linked <==> Counts(f, p, g))
    && (forall p :: p in state.completed <==> CountsCompleted(f, p, g))
  }

  /** Every goal links exactly the projects whose current goal it is, and has completed exactly those of them that
      are completed now. */
  ghost predicate Exact(s: Store, f: map<ProjectId, ProjectState>) {
    && s.projects == f
    && (forall g :: g in s.goals ==> GoalExact(f, g, s.goals[g]))
    && (forall p :: p in f && f[p].goal.Some? ==> f[p].goal.value in s.goals)
  }

  /** What the history of a project allows: it gets a goal only when it has none (or the same), loses one only when
      it has one, and is not created again with another outcome. */
  predicate Allowed(f: map<ProjectId, ProjectState>, e: SagaEvent) {
    match e
    case Created(p, goal, status) =>
      p !in f || f[p].goal.None?
      || (f[p].goal == goal && (status == Completed || f[p].status != Some(Completed)))
    case GoalAdded(p, goal) => p !in f || f[p].goal.None? || f[p].goal == Some(goal)
    case GoalRemoved(p) => p !in f || f[p].goal.Some?
    case _ => true
  }

  lemma GoalOfExact(s: Store, f: map<ProjectId, ProjectState>, g: GoalId)
    requires Exact(s, f)
    ensures GoalExact(f, g, GoalOf(s, g))
  {
  }

  lemma IncludingFacts(ids: seq<ProjectId>, p: ProjectId)
    ensures forall q :: q in Including(ids, p) <==> q in ids || q == p
    ensures Distinct(ids) ==> Distinct(Including(ids, p))
  {
  }

  /** Only one project changes, so another goal is exact after as before unless the project left it. */
  lemma OtherGoals(f: map<ProjectId, ProjectState>, f': map<ProjectId, ProjectState>, p: ProjectId, g: GoalId,
                   state: GoalState)
    requires GoalExact(f, g, state) && forall q :: q != p ==> (q in f <==> q in f') && (q in f ==> f[q] == f'[q])
    requires Counts(f, p, g) == Counts(f', p, g) && CountsCompleted(f, p, g) == CountsCompleted(f', p, g)
    ensures GoalExact(f', g, state)
  {
    forall q ensures Counts(f, q, g) == Counts(f', q, g) && CountsCompleted(f, q, g) == CountsCompleted(f', q, g) {
    }
  }

  /** The goal the event is about, in its new state. */
  lemma ThisGoal(f: map<ProjectId, ProjectState>, f': map<ProjectId, ProjectState>, p: ProjectId, g: GoalId,
                 state: GoalState, state': GoalState)
    requires GoalExact(f, g, state) && forall q :: q != p ==> (q in f <==> q in f') && (q in f ==> f[q] == f'[q])
    requires Distinct(state'.linked) && Distinct(state'.completed)
    requires forall q :: q != p ==> (q in state'.linked <==> q in state.linked)
    requires forall q :: q != p ==> (q in state'.completed <==> q in state.completed)
    requires p in state'.linked <==> Counts(f', p, g)
    requires p in state'.completed <==> CountsCompleted(f', p, g)
    ensures GoalExact(f', g, state')
  {
    forall q | q != p ensures Counts(f, q, g) == Counts(f', q, g) && CountsCompleted(f, q, g) == CountsCompleted(f', q, g) {
    }
  }

  /** A project that is given a second goal before it loses the first stays linked to the first, which would then wait
      for it and count it. */
  lemma SecondGoalStaysLinked(s: Store, f: map<ProjectId, ProjectState>, p: ProjectId, first: GoalId, second: GoalId,
                              reply: Reply)
    requires Exact(s, f) && Counts(f, p, first) && first != second
    ensures var e := GoalAdded(p, second); var after := Handle(s, e, reply).store;
            !Counts(NextFacts(f, e), p, first) && p in GoalOf(after, first).linked && p in GoalOf(after, second).linked
  {
    hide Handle;
    assert p in s.goals[first].linked;
    OnlyRequested(s, GoalAdded(p, second), reply);
  }

  /** Handling an event keeps the counts exact if and only if the project's history allows the event. */
  lemma RecordedExactIff(s: Store, f: map<ProjectId, ProjectState>, e: SagaEvent)
    requires Exact(s, f)
    ensures Exact(Recorded(s, e), NextFacts(f, e)) <==> Allowed(f, e)
  {
    match e
    case Created(p, goal, status) => CreatedExactIff(s, f, p, goal, status);
    case GoalAdded(p, goal) => AddedExactIff(s, f, p, goal);
    case GoalRemoved(p) => RemovedExactIff(s, f, p);
    case Transitioned(p, status) => TransitionedExact(s, f, p, status);
    case _ =>
      GoalOfExact(s, f, e.aggregate);
      assert Recorded(s, e).goals.Keys == s.goals.Keys + {e.aggregate};
  }

  lemma CreatedExactIff(s: Store, f: map<ProjectId, ProjectState>, p: ProjectId, goal: Option<GoalId>, status: Status)
    requires Exact(s, f)
    ensures var e := Created(p, goal, status); Exact(Recorded(s, e), NextFacts(f, e)) <==> Allowed(f, e)
  {
    hide GoalExact, Distinct, Including;
    var e := Created(p, goal, status);
    var f', s' := NextFacts(f, e), Recorded(s, e);
    if p in f && f[p].goal.Some? && f[p].goal != goal {
      var left := f[p].goal.value;
      LeftBehind(f, f', p, left, s.goals[left]);
      assert left in s'.goals && s'.goals[left] == s.goals[left];
    } else {
      forall g | g in s.goals && Some(g) != goal ensures GoalExact(f', g, s'.goals[g]) {
        NotThere(f, f', p, g);
        OtherGoals(f, f', p, g, s.goals[g]);
      }
      if goal.Some? {
        GoalOfExact(s, f, goal.value);
        LinkedIff(f, f', p, goal.value, GoalOf(s, goal.value), status == Completed);
      }
    }
  }

  lemma NotThere(f: map<ProjectId, ProjectState>, f': map<ProjectId, ProjectState>, p: ProjectId, g: GoalId)
    requires p in f ==> f[p].goal != Some(g)
    requires p in f' ==> f'[p].goal != Some(g)
    ensures Counts(f, p, g) == Counts(f', p, g) && CountsCompleted(f, p, g) == CountsCompleted(f', p, g)
  {
  }

  /** A project that moved on without being unlinked is still counted. */
  lemma LeftBehind(f: map<ProjectId, ProjectState>, f': map<ProjectId, ProjectState>, p: ProjectId, g: GoalId,
                   state: GoalState)
    requires GoalExact(f, g, state) && Counts(f, p, g) && p in f' && f'[p].goal != Some(g)
    ensures !GoalExact(f', g, state)
  {
    assert p in state.linked;
  }

  /** Linking a project, and completing it if it is completed, is exact unless it was completed and no longer is. */
  lemma LinkedIff(f: map<ProjectId, ProjectState>, f': map<ProjectId, ProjectState>, p: ProjectId, g: GoalId,
                  state: GoalState, done: bool)
    requires GoalExact(f, g, state) && forall q :: q != p ==> (q in f <==> q in f') && (q in f ==> f[q] == f'[q])
    requires p in f' && f'[p].goal == Some(g) && (done <==> f'[p].status == Some(Completed))
    ensures var linked := Link(state, p);
            GoalExact(f', g, if done then Complete(linked, p) else linked) <==> (done || !CountsCompleted(f, p, g))
  {
    IncludingFacts(state.linked, p);
    IncludingFacts(state.completed, p);
    var state' := if done then Complete(Link(state, p), p) else Link(state, p);
    if done || !CountsCompleted(f, p, g) {
      ThisGoal(f, f', p, g, state, state');
    } else {
      assert p in state'.completed && !CountsCompleted(f', p, g);
    }
  }

  lemma AddedExactIff(s: Store, f: map<ProjectId, ProjectState>, p: ProjectId, goal: GoalId)
    requires Exact(s, f)
    ensures var e := GoalAdded(p, goal); Exact(Recorded(s, e), NextFacts(f, e)) <==> Allowed(f, e)
  {
    hide GoalExact, Distinct, Including;
    var e := GoalAdded(p, goal);
    var f', s' := NextFacts(f, e), Recorded(s, e);
    if p in f && f[p].goal.Some? && f[p].goal != Some(goal) {
      var left := f[p].goal.value;
      LeftBehind(f, f', p, left, s.goals[left]);
      assert left in s'.goals && s'.goals[left] == s.goals[left];
    } else {
      forall g | g in s.goals && g != goal ensures GoalExact(f', g, s'.goals[g]) {
        NotThere(f, f', p, g);
        OtherGoals(f, f', p, g, s.goals[g]);
      }
      GoalOfExact(s, f, goal);
      LinkedIff(f, f', p, goal, GoalOf(s, goal), f'[p].status == Some(Completed));
    }
  }

  lemma RemovedExactIff(s: Store, f: map<ProjectId, ProjectState>, p: ProjectId)
    requires Exact(s, f)
    ensures var e := GoalRemoved(p); Exact(Recorded(s, e), NextFacts(f, e)) <==> Allowed(f, e)
  {
    hide Distinct, Excluding;
    var e := GoalRemoved(p);
    var f', s' := NextFacts(f, e), Recorded(s, e);
    if p !in f {
      assert s.projects - {p} == s.projects;
    } else if f[p].goal.Some? {
      var left := f[p].goal.value;
      forall g | g in s.goals && g != left ensures GoalExact(f', g, s'.goals[g]) {
        OtherGoals(f, f', p, g, s.goals[g]);
      }
      ThisGoal(f, f', p, left, s.goals[left], Unlink(s.goals[left], p));
    } else {
      assert p in f' && p !in s'.projects;
    }
  }

  lemma TransitionedExact(s: Store, f: map<ProjectId, ProjectState>, p: ProjectId, status: Status)
    requires Exact(s, f)
    ensures var e := Transitioned(p, status); Exact(Recorded(s, e), NextFacts(f, e))
  {
    hide Distinct, Excluding, Including;
    var e := Transitioned(p, status);
    var f', s' := NextFacts(f, e), Recorded(s, e);
    var goal := f'[p].goal;
    forall g | g in s.goals && Some(g) != goal ensures GoalExact(f', g, s'.goals[g]) {
      OtherGoals(f, f', p, g, s.goals[g]);
    }
    if goal.Some? {
      var state := GoalOf(s, goal.value);
      IncludingFacts(state.linked, p);
      IncludingFacts(state.completed, p);
      ThisGoal(f, f', p, goal.value, state, s'.goals[goal.value]);
    }
  }

  // Commands

  lemma HandledExactIff(s: Store, f: map<ProjectId, ProjectState>, e: SagaEvent, reply: Reply)
    requires Exact(s, f)
    ensures Exact(Handle(s, e, reply).store, NextFacts(f, e)) <==> Allowed(f, e)
  {
    hide Recorded, Exact, Allowed, NextFacts, ShouldAchieve, ShouldUnachieve;
    RecordedExactIff(s, f, e);
    OnlyRequested(s, e, reply);
    SameCountsSameExact(Recorded(s, e), Handle(s, e, reply).store, NextFacts(f, e));
  }

  /** The same projects, and the same goals but for their request flags. */
  ghost predicate SameCounts(a: Store, b: Store) {
    && a.projects == b.projects && a.goals.Keys == b.goals.Keys
    && forall g :: g in a.goals ==> b.goals[g] == a.goals[g].(requested := b.goals[g].requested)
  }

  /** Deciding on commands changes nothing but the request flags. */
  lemma OnlyRequested(s: Store, e: SagaEvent, reply: Reply)
    ensures SameCounts(Recorded(s, e), Handle(s, e, reply).store)
  {
    hide Recorded, Concerned, Settle, MaybeUnachieve;
    if Concerned(s, e).Some? {
      var saved, g := Recorded(s, e), Concerned(s, e).value;
      ConcernedSaved(s, e);
      OnlyFlags(saved, g, saved.goals[g].requested, reply);
    }
  }

  lemma OnlyFlags(s: Store, g: GoalId, retry: bool, reply: Reply)
    requires g in s.goals
    ensures SameCounts(s, Settle(s, g, retry, reply).store) && SameCounts(s, MaybeUnachieve(s, g, reply).store)
  {
    hide ShouldAchieve, ShouldUnachieve;
  }

  lemma SameCountsSameExact(a: Store, b: Store, f: map<ProjectId, ProjectState>)
    requires SameCounts(a, b)
    ensures Exact(a, f) <==> Exact(b, f)
  {
    if Exact(a, f) {
      forall g | g in b.goals ensures GoalExact(f, g, b.goals[g]) {
        assert GoalExact(f, g, a.goals[g]);
      }
    }
    if Exact(b, f) {
      forall g | g in a.goals ensures GoalExact(f, g, a.goals[g]) {
        assert GoalExact(f, g, b.goals[g]);
      }
    }
  }

  /** A goal is asked to be achieved only when it has projects and all of them are completed, and to be unachieved only
      when one of them is not; so never both for one event. */
  lemma RequestsAreRight(s: Store, f: map<ProjectId, ProjectState>, e: SagaEvent, reply: Reply)
    requires Exact(s, f) && Allowed(f, e)
    ensures var f', requests := NextFacts(f, e), Handle(s, e, reply).requests;
            && |requests| <= 1
            && forall r :: r in requests ==>
                 && (r.Achieve? ==> (exists p :: Counts(f', p, r.goal))
                                    && forall p :: Counts(f', p, r.goal) ==> CountsCompleted(f', p, r.goal))
                 && (r.Unachieve? ==> exists p :: Counts(f', p, r.goal) && !CountsCompleted(f', p, r.goal))
  {
    hide Recorded, Exact, Allowed, NextFacts, Concerned, Counts, CountsCompleted, Distinct;
    RecordedExactIff(s, f, e);
    var f', saved, goal := NextFacts(f, e), Recorded(s, e), Concerned(s, e);
    if goal.Some? {
      ConcernedSaved(s, e);
      RequestFor(saved, f', goal.value);
    }
  }

  lemma ConcernedSaved(s: Store, e: SagaEvent)
    requires Concerned(s, e).Some?
    ensures Concerned(s, e).value in Recorded(s, e).goals
  {
  }

  lemma RequestFor(s: Store, f: map<ProjectId, ProjectState>, g: GoalId)
    requires Exact(s, f) && g in s.goals
    ensures s.goals[g].linked != [] && AllCompleted(s.goals[g]) ==>
              (exists p :: Counts(f, p, g)) && forall p :: Counts(f, p, g) ==> CountsCompleted(f, p, g)
    ensures !AllCompleted(s.goals[g]) ==> exists p :: Counts(f, p, g) && !CountsCompleted(f, p, g)
  {
    hide Counts, CountsCompleted, Distinct;
    var state := s.goals[g];
    assert GoalExact(f, g, state);
    if state.linked != [] && AllCompleted(state) {
      assert Counts(f, state.linked[0], g);
    }
    if !AllCompleted(state) {
      var i :| 0 <= i < |state.linked| && state.linked[i] !in state.completed;
      assert state.linked[i] in state.linked;
    }
  }

  // Histories

  datatype Delivery = Delivery(event: SagaEvent, reply: Reply)

  function EventsOf(ds: seq<Delivery>): (r: seq<SagaEvent>)
    ensures |r| == |ds| && forall i :: 0 <= i < |r| ==> r[i] == ds[i].event
  {
    seq(|ds|, i requires 0 <= i < |ds| => ds[i].event)
  }

  /** Live handling of every delivery. */
  function HandleAll(ds: seq<Delivery>): Store {
    if ds == [] then EMPTY_STORE
    else Handle(HandleAll(ds[..|ds| - 1]), ds[|ds| - 1].event, ds[|ds| - 1].reply).store
  }

  /** Replay from an empty store, with commands held back. */
  function ReplayAll(events: seq<SagaEvent>): Store {
    if events == [] then EMPTY_STORE else Recorded(ReplayAll(events[..|events| - 1]), events[|events| - 1])
  }

  ghost predicate WellFormed(events: seq<SagaEvent>) {
    forall k :: 0 <= k < |events| ==> Allowed(FactsOf(events[..k]), events[k])
  }

  lemma {:induction false} HandledIsExact(ds: seq<Delivery>)
    requires WellFormed(EventsOf(ds))
    ensures Exact(HandleAll(ds), FactsOf(EventsOf(ds)))
  {
    hide Handle, Exact, Allowed, NextFacts;
    if ds == [] {
      NothingExact();
      assert EventsOf(ds) == [];
    } else {
      var init, last := ds[..|ds| - 1], ds[|ds| - 1];
      var events := EventsOf(ds);
      assert EventsOf(init) == events[..|events| - 1];
      PrefixWellFormed(events);
      HandledIsExact(init);
      HandledExactIff(HandleAll(init), FactsOf(EventsOf(init)), last.event, last.reply);
    }
  }

  lemma NothingExact()
    ensures Exact(EMPTY_STORE, map[])
  {
  }

  lemma PrefixWellFormed(events: seq<SagaEvent>)
    requires WellFormed(events) && events != []
    ensures WellFormed(events[..|events| - 1])
    ensures Allowed(FactsOf(events[..|events| - 1]), events[|events| - 1])
  {
    hide Allowed, FactsOf;
    var init := events[..|events| - 1];
    forall k | 0 <= k < |init| ensures Allowed(FactsOf(init[..k]), init[k]) {
      assert init[..k] == events[..k];
    }
  }

  lemma {:induction false} ReplayedIsExact(events: seq<SagaEvent>)
    requires WellFormed(events)
    ensures Exact(ReplayAll(events), FactsOf(events))
  {
    hide Recorded, Exact, Allowed, NextFacts;
    if events == [] {
      NothingExact();
    } else {
      PrefixWellFormed(events);
      ReplayedIsExact(events[..|events| - 1]);
      RecordedExactIff(ReplayAll(events[..|events| - 1]), FactsOf(events[..|events| - 1]), events[|events| - 1]);
    }
  }

  predicate About(e: SagaEvent, p: ProjectId) {
    (e.Created? || e.GoalAdded? || e.GoalRemoved? || e.Transitioned?) && e.project == p
  }

  /** The events of one project, in order. */
  function HistoryOf(events: seq<SagaEvent>, p: ProjectId): seq<SagaEvent> {
    if events == [] then [] else
      HistoryOf(events[..|events| - 1], p) + if About(events[|events| - 1], p) then [events[|events| - 1]] else []
  }

  ghost predicate SameFact(f: map<ProjectId, ProjectState>, f': map<ProjectId, ProjectState>, p: ProjectId) {
    (p in f <==> p in f') && (p in f ==> f[p] == f'[p])
  }

  lemma {:induction false} FactsByHistory(events: seq<SagaEvent>, p: ProjectId)
    ensures SameFact(FactsOf(events), FactsOf(HistoryOf(events, p)), p)
  {
    if events != [] {
      var init, e := events[..|events| - 1], events[|events| - 1];
      FactsByHistory(init, p);
      var h := HistoryOf(events, p);
      if About(e, p) {
        assert h[..|h| - 1] == HistoryOf(init, p) && h[|h| - 1] == e;
      } else {
        assert h == HistoryOf(init, p);
      }
    }
  }

  /** Live handling and a rebase's replay agree on what every goal counts, whatever the commands came to and however
      the replay interleaves the projects. */
  lemma LiveAgreesWithReplay(ds: seq<Delivery>, events: seq<SagaEvent>, g: GoalId, p: ProjectId)
    requires WellFormed(EventsOf(ds)) && WellFormed(events)
    requires forall q :: HistoryOf(EventsOf(ds), q) == HistoryOf(events, q)
    ensures p in GoalOf(HandleAll(ds), g).linked <==> p in GoalOf(ReplayAll(events), g).linked
    ensures p in GoalOf(HandleAll(ds), g).completed <==> p in GoalOf(ReplayAll(events), g).completed
  {
    hide WellFormed, HandleAll, ReplayAll, FactsOf, HistoryOf, Exact, GoalOf;
    HandledIsExact(ds);
    ReplayedIsExact(events);
    FactsByHistory(EventsOf(ds), p);
    FactsByHistory(events, p);
    GoalOfExact(HandleAll(ds), FactsOf(EventsOf(ds)), g);
    GoalOfExact(ReplayAll(events), FactsOf(events), g);
  }
}
