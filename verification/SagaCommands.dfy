/** When the saga commands a goal, told by what the projects and the goal went through: no condition here mentions
    how the handlers decide. */
module SagaCommands {
  import opened Wrappers
  import opened ProjectModel
  import opened GoalSaga

  // What the events say about a goal

  predicate OfGoal(e: SagaEvent, g: GoalId) {
    (e.Achieved? || e.Unachieved? || e.GoalArchived? || e.GoalChanged?) && e.aggregate == g
  }

  predicate AchievedAt(events: seq<SagaEvent>, g: GoalId, i: nat) {
    i < |events| && events[i].Achieved? && events[i].aggregate == g
  }

  predicate UnachievedAt(events: seq<SagaEvent>, g: GoalId, i: nat) {
    i < |events| && events[i].Unachieved? && events[i].aggregate == g
  }

  predicate ArchivedAt(events: seq<SagaEvent>, g: GoalId, i: nat) {
    i < |events| && events[i].GoalArchived? && events[i].aggregate == g
  }

  predicate VersionedAt(events: seq<SagaEvent>, g: GoalId, i: nat) {
    i < |events| && OfGoal(events[i], g) && events[i].version.Some?
  }

  /** Achieved once, and not unachieved since. */
  ghost predicate IsAchieved(events: seq<SagaEvent>, g: GoalId) {
    exists i: nat :: AchievedAt(events, g, i) && forall j: nat :: i < j ==> !UnachievedAt(events, g, j)
  }

  ghost predicate IsArchived(events: seq<SagaEvent>, g: GoalId) {
    exists i: nat :: ArchivedAt(events, g, i)
  }

  /** How many of the events from position i on are the goal's own. */
  function GoalEventsFrom(events: seq<SagaEvent>, g: GoalId, i: nat): (c: nat)
    decreases |events| - i
  {
    if i >= |events| then 0 else GoalEventsFrom(events, g, i + 1) + if OfGoal(events[i], g) then 1 else 0
  }

  /** The last version an event of the goal carried, and one more for each of its events since; without any carried
      version, the number of its events. */
  ghost predicate AtVersion(events: seq<SagaEvent>, g: GoalId, v: nat) {
    && (forall i: nat :: VersionedAt(events, g, i) && (forall j: nat :: i < j ==> !VersionedAt(events, g, j)) ==>
          v == events[i].version.value + GoalEventsFrom(events, g, i + 1))
    && ((forall i: nat :: !VersionedAt(events, g, i)) ==> v == GoalEventsFrom(events, g, 0))
  }

  ghost predicate FollowsGoal(events: seq<SagaEvent>, g: GoalId, state: GoalState) {
    && (state.achieved <==> IsAchieved(events, g))
    && (state.archived <==> IsArchived(events, g))
    && AtVersion(events, g, state.version)
  }

  lemma {:induction false} EventsFromSnoc(events: seq<SagaEvent>, e: SagaEvent, g: GoalId, i: nat)
    requires i <= |events|
    ensures GoalEventsFrom(events + [e], g, i) == GoalEventsFrom(events, g, i) + if OfGoal(e, g) then 1 else 0
    decreases |events| - i
  {
    if i < |events| {
      EventsFromSnoc(events, e, g, i + 1);
    } else {
      assert (events + [e])[i] == e;
    }
  }

  lemma AtOlder(events: seq<SagaEvent>, e: SagaEvent, g: GoalId, i: nat)
    ensures var after := events + [e];
            && (AchievedAt(after, g, i) <==> AchievedAt(events, g, i) || (i == |events| && AchievedAt([e], g, 0)))
            && (UnachievedAt(after, g, i) <==> UnachievedAt(events, g, i) || (i == |events| && UnachievedAt([e], g, 0)))
            && (ArchivedAt(after, g, i) <==> ArchivedAt(events, g, i) || (i == |events| && ArchivedAt([e], g, 0)))
            && (VersionedAt(after, g, i) <==> VersionedAt(events, g, i) || (i == |events| && VersionedAt([e], g, 0)))
  {
  }

  lemma AchievedSnoc(events: seq<SagaEvent>, e: SagaEvent, g: GoalId)
    ensures IsAchieved(events + [e], g) <==>
              AchievedAt([e], g, 0) || (IsAchieved(events, g) && !UnachievedAt([e], g, 0))
  {
    var after, n := events + [e], |events|;
    forall i: nat
      ensures AchievedAt(after, g, i) <==> AchievedAt(events, g, i) || (i == n && AchievedAt([e], g, 0))
      ensures UnachievedAt(after, g, i) <==> UnachievedAt(events, g, i) || (i == n && UnachievedAt([e], g, 0))
    {
      AtOlder(events, e, g, i);
    }
    hide AchievedAt, UnachievedAt;
    if IsAchieved(after, g) {
      var i: nat :| AchievedAt(after, g, i) && forall j: nat :: i < j ==> !UnachievedAt(after, g, j);
      if AchievedAt(events, g, i) {
        assert forall j: nat :: i < j ==> !UnachievedAt(events, g, j);
        OnlyThere(events, g, i);
        assert !UnachievedAt(after, g, n);
      }
    }
    if IsAchieved(events, g) && !UnachievedAt([e], g, 0) {
      var i: nat :| AchievedAt(events, g, i) && forall j: nat :: i < j ==> !UnachievedAt(events, g, j);
      assert AchievedAt(after, g, i);
    }
    if AchievedAt([e], g, 0) {
      OnlyEarlier(events, g);
      assert AchievedAt(after, g, n);
      NotBoth(after, g, n);
    }
  }

  lemma OnlyThere(events: seq<SagaEvent>, g: GoalId, i: nat)
    requires AchievedAt(events, g, i)
    ensures i < |events|
  {
  }

  lemma OnlyEarlier(events: seq<SagaEvent>, g: GoalId)
    ensures forall j: nat :: UnachievedAt(events, g, j) ==> j < |events|
  {
  }

  lemma NotBoth(events: seq<SagaEvent>, g: GoalId, i: nat)
    requires AchievedAt(events, g, i)
    ensures !UnachievedAt(events, g, i)
  {
  }

  lemma ArchivedSnoc(events: seq<SagaEvent>, e: SagaEvent, g: GoalId)
    ensures IsArchived(events + [e], g) <==> ArchivedAt([e], g, 0) || IsArchived(events, g)
  {
    forall i: nat
      ensures ArchivedAt(events + [e], g, i) <==> ArchivedAt(events, g, i) || (i == |events| && ArchivedAt([e], g, 0))
    {
      AtOlder(events, e, g, i);
    }
    hide ArchivedAt;
    if i: nat :| ArchivedAt(events, g, i) { assert ArchivedAt(events + [e], g, i); }
    if ArchivedAt([e], g, 0) { assert ArchivedAt(events + [e], g, |events|); }
  }

  lemma {:induction false} LastVersioned(events: seq<SagaEvent>, g: GoalId, n: nat) returns (i: Option<nat>)
    requires n <= |events|
    ensures i.None? ==> forall j: nat :: j < n ==> !VersionedAt(events, g, j)
    ensures i.Some? ==> i.value < n && VersionedAt(events, g, i.value)
    ensures i.Some? ==> forall j: nat :: i.value < j < n ==> !VersionedAt(events, g, j)
  {
    if n == 0 {
      i := None;
    } else if VersionedAt(events, g, n - 1) {
      i := Some(n - 1);
    } else {
      i := LastVersioned(events, g, n - 1);
    }
  }

  lemma VersionedEnds(events: seq<SagaEvent>, g: GoalId)
    ensures forall j: nat :: VersionedAt(events, g, j) ==> j < |events|
  {
  }

  lemma VersionedSnoc(events: seq<SagaEvent>, e: SagaEvent, g: GoalId)
    ensures forall i: nat :: VersionedAt(events + [e], g, i) <==>
              VersionedAt(events, g, i) || (i == |events| && OfGoal(e, g) && e.version.Some?)
    ensures forall i: nat :: VersionedAt(events, g, i) ==> i < |events|
  {
    forall i: nat ensures VersionedAt(events + [e], g, i) <==>
                            VersionedAt(events, g, i) || (i == |events| && OfGoal(e, g) && e.version.Some?)
    {
      AtOlder(events, e, g, i);
    }
  }

  function VersionAfter(v: nat, e: SagaEvent, g: GoalId): nat {
    if !OfGoal(e, g) then v else if e.version.Some? then e.version.value else v + 1
  }

  /** The last version carried, with the events since. */
  lemma CarriedSnoc(events: seq<SagaEvent>, e: SagaEvent, g: GoalId, v: nat, i: nat)
    requires AtVersion(events, g, v)
    requires VersionedAt(events + [e], g, i) && forall j: nat :: i < j ==> !VersionedAt(events + [e], g, j)
    ensures VersionAfter(v, e, g) == (events + [e])[i].version.value + GoalEventsFrom(events + [e], g, i + 1)
  {
    var after, n := events + [e], |events|;
    VersionedSnoc(events, e, g);
    hide VersionedAt;
    if i < n {
      assert !VersionedAt(after, g, n) && after[i] == events[i];
      assert VersionedAt(events, g, i) && forall j: nat :: i < j ==> !VersionedAt(events, g, j);
      EventsFromSnoc(events, e, g, i + 1);
    } else {
      assert i == n && after[n] == e;
    }
  }

  lemma VersionSnoc(events: seq<SagaEvent>, e: SagaEvent, g: GoalId, v: nat)
    requires AtVersion(events, g, v)
    ensures AtVersion(events + [e], g, VersionAfter(v, e, g))
  {
    var after, n := events + [e], |events|;
    VersionedSnoc(events, e, g);
    assert forall i: nat :: VersionedAt(after, g, i) ==> i < |after| && OfGoal(after[i], g) && after[i].version.Some?;
    hide VersionedAt, OfGoal;
    forall i: nat | VersionedAt(after, g, i) && (forall j: nat :: i < j ==> !VersionedAt(after, g, j))
      ensures VersionAfter(v, e, g) == after[i].version.value + GoalEventsFrom(after, g, i + 1)
    {
      CarriedSnoc(events, e, g, v, i);
    }
    if forall i: nat :: !VersionedAt(after, g, i) {
      assert !VersionedAt(after, g, n);
      assert forall i: nat :: !VersionedAt(events, g, i);
      EventsFromSnoc(events, e, g, 0);
    }
  }

  /** Every event saves what the goal's own history then says. */
  lemma RecordedFollows(events: seq<SagaEvent>, s: Store, e: SagaEvent, g: GoalId)
    requires FollowsGoal(events, g, GoalOf(s, g))
    ensures FollowsGoal(events + [e], g, GoalOf(Recorded(s, e), g))
  {
    hide IsAchieved, IsArchived, AtVersion;
    var before, after := GoalOf(s, g), GoalOf(Recorded(s, e), g);
    AchievedSnoc(events, e, g);
    ArchivedSnoc(events, e, g);
    VersionSnoc(events, e, g, before.version);
    hide Including, Excluding;
  }

  /** Deciding on a command changes the goal's request flag at most. */
  lemma DecidingKeeps(s: Store, e: SagaEvent, reply: Reply, g: GoalId)
    ensures var saved, after := GoalOf(Recorded(s, e), g), GoalOf(Handle(s, e, reply).store, g);
            after == saved.(requested := after.requested)
  {
    hide Recorded, AllCompleted;
    if Concerned(s, e).Some? {
      ConcernedSaved(s, e);
    }
  }

  /** After any deliveries a goal is held to be achieved, archived and at its version as its own events say. */
  lemma {:induction false} HandledFollowsGoal(ds: seq<Delivery>, g: GoalId)
    ensures FollowsGoal(EventsOf(ds), g, GoalOf(HandleAll(ds), g))
  {
    hide Handle, Recorded, FollowsGoal, GoalOf;
    if ds == [] {
      assert EventsOf(ds) == [];
      NothingFollowed(g);
    } else {
      var init, last := ds[..|ds| - 1], ds[|ds| - 1];
      HandledFollowsGoal(init, g);
      assert EventsOf(ds) == EventsOf(init) + [last.event];
      RecordedFollows(EventsOf(init), HandleAll(init), last.event, g);
      DecidingKeeps(HandleAll(init), last.event, last.reply, g);
      SameFlagsFollow(EventsOf(ds), g, GoalOf(Recorded(HandleAll(init), last.event), g), GoalOf(HandleAll(ds), g));
    }
  }

  lemma NothingFollowed(g: GoalId)
    ensures FollowsGoal([], g, GoalOf(EMPTY_STORE, g))
  {
    forall i: nat ensures !VersionedAt([], g, i) && !AchievedAt([], g, i) && !ArchivedAt([], g, i) {
    }
  }

  lemma SameFlagsFollow(events: seq<SagaEvent>, g: GoalId, a: GoalState, b: GoalState)
    requires FollowsGoal(events, g, a) && b == a.(requested := b.requested)
    ensures FollowsGoal(events, g, b)
  {
    hide IsAchieved, IsArchived, AtVersion;
  }

  lemma {:induction false} ReplayedFollowsGoal(events: seq<SagaEvent>, g: GoalId)
    ensures FollowsGoal(events, g, GoalOf(ReplayAll(events), g))
    ensures !GoalOf(ReplayAll(events), g).requested
  {
    hide FollowsGoal;
    if events == [] {
      NothingFollowed(g);
    } else {
      var init, last := events[..|events| - 1], events[|events| - 1];
      ReplayedFollowsGoal(init, g);
      assert events == init + [last];
      RecordedFollows(init, ReplayAll(init), last, g);
      RecordedRequest(ReplayAll(init), last, g);
    }
  }

  // The request flag

  predicate SettlesRequest(e: SagaEvent, g: GoalId) {
    OfGoal(e, g) && !e.GoalChanged?
  }

  lemma RecordedRequest(s: Store, e: SagaEvent, g: GoalId)
    ensures GoalOf(Recorded(s, e), g).requested <==> GoalOf(s, g).requested && !SettlesRequest(e, g)
  {
    hide Including, Excluding;
  }

  predicate AsksToAchieve(requests: seq<Request>, g: GoalId) {
    exists i: nat :: 0 <= i < |requests| && requests[i].Achieve? && requests[i].goal == g
  }

  lemma AsksFirst(requests: seq<Request>, g: GoalId)
    requires |requests| <= 1
    ensures AsksToAchieve(requests, g) <==> requests != [] && requests[0].Achieve? && requests[0].goal == g
  {
  }

  ghost predicate Answered(before: Store, r: Reaction, reply: Reply, g: GoalId) {
    && (GoalOf(r.store, g).requested <==>
          if AsksToAchieve(r.requests, g) then reply == Done else GoalOf(before, g).requested)
    && (r.failed <==> r.requests != [] && reply == Failed)
  }

  lemma AchieveAnswered(s: Store, h: GoalId, retry: bool, reply: Reply, g: GoalId)
    requires h in s.goals
    ensures Answered(s, MaybeAchieve(s, h, retry, reply), reply, g)
    ensures Answered(s, MaybeUnachieve(s, h, reply), reply, g)
  {
    hide ShouldAchieve, ShouldUnachieve, AsksToAchieve;
    AsksFirst(MaybeAchieve(s, h, retry, reply).requests, g);
    AsksFirst(MaybeUnachieve(s, h, reply).requests, g);
  }

  /** Never both. */
  lemma OneCommand(s: Store, h: GoalId, retry: bool, reply: Reply)
    requires h in s.goals
    ensures var first := MaybeAchieve(s, h, retry, reply);
            h in first.store.goals && (first.requests == [] || MaybeUnachieve(first.store, h, reply) == Reaction(first.store, [], false))
    ensures MaybeAchieve(s, h, retry, reply).requests == [] ==> MaybeAchieve(s, h, retry, reply) == Reaction(s, [], false)
  {
  }

  lemma SettleAnswered(s: Store, h: GoalId, retry: bool, reply: Reply, g: GoalId)
    requires h in s.goals
    ensures Answered(s, Settle(s, h, retry, reply), reply, g)
  {
    hide MaybeAchieve, MaybeUnachieve, AsksToAchieve;
    AchieveAnswered(s, h, retry, reply, g);
    OneCommand(s, h, retry, reply);
    var first := MaybeAchieve(s, h, retry, reply);
    var second := MaybeUnachieve(first.store, h, reply);
    assert first.requests + [] == first.requests && [] + second.requests == second.requests;
  }

  /** After one event the request flag is the answer to the command it led to, or else as the event left it. */
  lemma RequestAfter(s: Store, e: SagaEvent, reply: Reply, g: GoalId)
    ensures var r := Handle(s, e, reply);
            && (AsksToAchieve(r.requests, g) ==> (GoalOf(r.store, g).requested <==> reply == Done))
            && (!AsksToAchieve(r.requests, g) ==>
                  (GoalOf(r.store, g).requested <==> GoalOf(s, g).requested && !SettlesRequest(e, g)))
            && (r.failed <==> r.requests != [] && reply == Failed)
  {
    RecordedRequest(s, e, g);
    hide Recorded, SettlesRequest, Settle, MaybeUnachieve, GoalOf, Concerned;
    var saved, goal := Recorded(s, e), Concerned(s, e);
    if goal.Some? {
      ConcernedSaved(s, e);
      SettleAnswered(saved, goal.value, saved.goals[goal.value].requested, reply, g);
      AchieveAnswered(saved, goal.value, false, reply, g);
    }
  }

  /** Delivery i asked for the goal to be achieved and was told it was done. */
  predicate AskedAt(ds: seq<Delivery>, g: GoalId, i: nat) {
    i < |ds| && ds[i].reply == Done
    && AsksToAchieve(Handle(HandleAll(ds[..i]), ds[i].event, ds[i].reply).requests, g)
  }

  /** Since delivery i the goal was neither asked for again nor achieved, unachieved or archived. */
  ghost predicate Unanswered(ds: seq<Delivery>, g: GoalId, i: nat) {
    forall j: nat :: i < j < |ds| ==>
      !SettlesRequest(ds[j].event, g)
      && !AsksToAchieve(Handle(HandleAll(ds[..j]), ds[j].event, ds[j].reply).requests, g)
  }

  ghost predicate IsRequested(ds: seq<Delivery>, g: GoalId) {
    exists i: nat :: AskedAt(ds, g, i) && Unanswered(ds, g, i)
  }

  lemma AskedSnoc(ds: seq<Delivery>, g: GoalId, i: nat)
    requires ds != []
    ensures var init, last := ds[..|ds| - 1], ds[|ds| - 1];
            var r := Handle(HandleAll(init), last.event, last.reply);
            && (AskedAt(ds, g, i) <==> if i == |ds| - 1 then last.reply == Done && AsksToAchieve(r.requests, g)
                                       else AskedAt(init, g, i))
            && (i < |ds| - 1 ==>
                  (Unanswered(ds, g, i) <==>
                     Unanswered(init, g, i) && !SettlesRequest(last.event, g) && !AsksToAchieve(r.requests, g)))
  {
    hide Handle, HandleAll, SettlesRequest, AsksToAchieve;
    var init, n := ds[..|ds| - 1], |ds| - 1;
    forall j | 0 <= j < n ensures ds[..j] == init[..j] && ds[j] == init[j] {
    }
    assert ds[..n] == init;
    if i < n && Unanswered(ds, g, i) {
      assert forall j: nat :: i < j < n ==> ds[j] == init[j] && ds[..j] == init[..j];
    }
  }

  /** The request flag stands exactly when the last word on the goal was a request answered as done. */
  lemma {:induction false} RequestedIff(ds: seq<Delivery>, g: GoalId)
    ensures GoalOf(HandleAll(ds), g).requested <==> IsRequested(ds, g)
  {
    hide Handle, GoalOf, SettlesRequest, AsksToAchieve, AskedAt, Unanswered;
    if ds == [] {
      NothingAsked(g);
      assert ds == [];
    } else {
      var init, last, n := ds[..|ds| - 1], ds[|ds| - 1], |ds| - 1;
      RequestedIff(init, g);
      RequestAfter(HandleAll(init), last.event, last.reply, g);
      forall i: nat
        ensures AskedAt(ds, g, i) <==>
                  if i == n then last.reply == Done
                                 && AsksToAchieve(Handle(HandleAll(init), last.event, last.reply).requests, g)
                  else AskedAt(init, g, i)
        ensures i < n ==>
                  (Unanswered(ds, g, i) <==>
                     Unanswered(init, g, i) && !SettlesRequest(last.event, g)
                     && !AsksToAchieve(Handle(HandleAll(init), last.event, last.reply).requests, g))
      {
        AskedSnoc(ds, g, i);
      }
      AskedEarly(init, g);
      LastIsUnanswered(ds, g);
      if IsRequested(init, g) {
        var i: nat :| AskedAt(init, g, i) && Unanswered(init, g, i);
        assert AskedAt(ds, g, i);
      }
      if IsRequested(ds, g) {
        var i: nat :| AskedAt(ds, g, i) && Unanswered(ds, g, i);
        if i != n { assert AskedAt(init, g, i) && Unanswered(init, g, i); }
      }
    }
  }

  lemma AskedEarly(ds: seq<Delivery>, g: GoalId)
    ensures forall i: nat :: AskedAt(ds, g, i) ==> i < |ds|
  {
  }

  lemma LastIsUnanswered(ds: seq<Delivery>, g: GoalId)
    requires ds != []
    ensures Unanswered(ds, g, |ds| - 1)
  {
  }

  lemma NothingAsked(g: GoalId)
    ensures !IsRequested([], g) && !GoalOf(HandleAll([]), g).requested
  {
  }

  // The commands of one event

  /** A project event about the goal: one that names it, or one of a project counted for it. */
  predicate Concerns(f: map<ProjectId, ProjectState>, e: SagaEvent, g: GoalId) {
    match e
    case Created(_, goal, _) => goal == Some(g)
    case GoalAdded(_, goal) => goal == g
    case GoalRemoved(p) => Counts(f, p, g)
    case Transitioned(p, _) => Counts(f, p, g)
    case _ => false
  }

  ghost predicate AllDone(f: map<ProjectId, ProjectState>, g: GoalId) {
    (exists p :: Counts(f, p, g)) && forall p :: Counts(f, p, g) ==> CountsCompleted(f, p, g)
  }

  ghost predicate SomeOpen(f: map<ProjectId, ProjectState>, g: GoalId) {
    exists p :: Counts(f, p, g) && !CountsCompleted(f, p, g)
  }

  lemma LinkedTells(f: map<ProjectId, ProjectState>, g: GoalId, state: GoalState)
    requires GoalExact(f, g, state)
    ensures state.linked != [] && AllCompleted(state) <==> AllDone(f, g)
    ensures state.linked != [] && !AllCompleted(state) <==> SomeOpen(f, g)
  {
    hide Counts, CountsCompleted, Distinct;
    forall i | 0 <= i < |state.linked| ensures Counts(f, state.linked[i], g) {
      assert state.linked[i] in state.linked;
    }
    if AllDone(f, g) {
      forall i | 0 <= i < |state.linked| ensures state.linked[i] in state.completed {
        assert state.linked[i] in state.linked;
      }
    }
    if p :| Counts(f, p, g) {
      assert p in state.linked;
    }
    if p :| Counts(f, p, g) && !CountsCompleted(f, p, g) {
      var i :| 0 <= i < |state.linked| && state.linked[i] == p;
    }
    if state.linked != [] && !AllCompleted(state) {
      var i :| 0 <= i < |state.linked| && state.linked[i] !in state.completed;
      assert Counts(f, state.linked[i], g) && !CountsCompleted(f, state.linked[i], g);
    }
    if state.linked != [] {
      assert Counts(f, state.linked[0], g);
    }
  }

  /** A project event leaves the goal's own flags and version alone. */
  lemma ProjectEventKeeps(s: Store, f: map<ProjectId, ProjectState>, e: SagaEvent, g: GoalId)
    requires Exact(s, f) && Concerned(s, e) == Some(g)
    ensures g in Recorded(s, e).goals
    ensures var before, after := GoalOf(s, g), Recorded(s, e).goals[g];
            after == before.(linked := after.linked, completed := after.completed)
  {
    hide Including, Excluding, GoalExact;
  }

  lemma ConcernedIff(s: Store, f: map<ProjectId, ProjectState>, e: SagaEvent, g: GoalId)
    requires Exact(s, f)
    ensures Concerned(s, e) == Some(g) <==> Concerns(f, e, g)
  {
    hide GoalExact;
  }

  lemma RequestsOf(s: Store, g: GoalId, retry: bool, reply: Reply, r: Request)
    requires g in s.goals && (s.goals[g].requested ==> retry)
    ensures var state := s.goals[g];
            && (r in Settle(s, g, retry, reply).requests <==>
                  (r == Achieve(g, state.version) && ShouldAchieve(state, true))
                  || (r == Unachieve(g, state.version) && ShouldUnachieve(state)))
            && (r in MaybeUnachieve(s, g, reply).requests <==>
                  r == Unachieve(g, state.version) && ShouldUnachieve(state))
  {
    hide AllCompleted;
  }

  lemma NoOtherGoal(s: Store, e: SagaEvent, reply: Reply, r: Request)
    requires r in Handle(s, e, reply).requests
    ensures Concerned(s, e) == Some(r.goal)
  {
    hide Recorded, AllCompleted;
    if Concerned(s, e).Some? {
      ConcernedSaved(s, e);
    }
  }

  /** One event asks for a goal to be achieved if and only if it is about that goal and is not a removal, the goal is
      neither achieved nor archived and has a version, and it has projects, all of them completed by now.  It asks for
      it to be unachieved if and only if it is about that goal, which is achieved or asked to be, not archived and has
      a version, and one of its projects is not completed now. */
  lemma CommandIff(s: Store, f: map<ProjectId, ProjectState>, e: SagaEvent, reply: Reply, g: GoalId, v: nat)
    requires Exact(s, f) && Allowed(f, e)
    ensures var f', state, requests := NextFacts(f, e), GoalOf(s, g), Handle(s, e, reply).requests;
            && (Achieve(g, v) in requests <==>
                  && Concerns(f, e, g) && !e.GoalRemoved?
                  && !state.achieved && !state.archived && state.version == v > 0 && AllDone(f', g))
            && (Unachieve(g, v) in requests <==>
                  && Concerns(f, e, g)
                  && (state.achieved || state.requested) && !state.archived && state.version == v > 0
                  && SomeOpen(f', g))
  {
    hide Recorded, Exact, Allowed, NextFacts, Concerned, Concerns, AllDone, SomeOpen, Settle, MaybeUnachieve, GoalExact,
         AllCompleted;
    ConcernedIff(s, f, e, g);
    if Concerned(s, e) == Some(g) {
      var saved := Recorded(s, e);
      RecordedExactIff(s, f, e);
      ProjectEventKeeps(s, f, e, g);
      ExactAt(saved, NextFacts(f, e), g);
      LinkedTells(NextFacts(f, e), g, saved.goals[g]);
      RequestsOf(saved, g, saved.goals[g].requested, reply, Achieve(g, v));
      RequestsOf(saved, g, saved.goals[g].requested, reply, Unachieve(g, v));
    } else {
      forall r | r in Handle(s, e, reply).requests ensures r.goal != g {
        NoOtherGoal(s, e, reply, r);
      }
    }
  }

  lemma ExactAt(s: Store, f: map<ProjectId, ProjectState>, g: GoalId)
    requires Exact(s, f) && g in s.goals
    ensures GoalExact(f, g, s.goals[g])
  {
  }

  // The commands of a run

  /** In any run over well-formed histories: a delivered event dispatches AchieveGoal, or UnachieveGoal, for a goal at
      a known version exactly when the deliveries so far and the event itself call for it. */
  lemma RunCommandIff(ds: seq<Delivery>, e: SagaEvent, reply: Reply, g: GoalId, v: nat)
    requires WellFormed(EventsOf(ds) + [e])
    ensures var before, f' := EventsOf(ds), FactsOf(EventsOf(ds) + [e]);
            var f, requests := FactsOf(before), Handle(HandleAll(ds), e, reply).requests;
            && (Achieve(g, v) in requests <==>
                  && Concerns(f, e, g) && !e.GoalRemoved?
                  && !IsAchieved(before, g) && !IsArchived(before, g) && AtVersion(before, g, v) && v > 0
                  && AllDone(f', g))
            && (Unachieve(g, v) in requests <==>
                  && Concerns(f, e, g)
                  && (IsAchieved(before, g) || IsRequested(ds, g)) && !IsArchived(before, g)
                  && AtVersion(before, g, v) && v > 0 && SomeOpen(f', g))
  {
    hide Handle, Exact, Allowed, NextFacts, Concerns, AllDone, SomeOpen, IsAchieved, IsArchived, AtVersion, IsRequested,
         GoalOf, WellFormed;
    var events := EventsOf(ds) + [e];
    assert events[..|events| - 1] == EventsOf(ds);
    PrefixWellFormed(events);
    HandledIsExact(ds);
    HandledFollowsGoal(ds, g);
    RequestedIff(ds, g);
    OneVersion(EventsOf(ds), g, GoalOf(HandleAll(ds), g).version, v);
    CommandIff(HandleAll(ds), FactsOf(EventsOf(ds)), e, reply, g, v);
  }

  /** A history gives a goal one version. */
  lemma OneVersion(events: seq<SagaEvent>, g: GoalId, v: nat, w: nat)
    requires AtVersion(events, g, v)
    ensures AtVersion(events, g, w) <==> v == w
  {
    var i := LastVersioned(events, g, |events|);
    VersionedEnds(events, g);
    hide VersionedAt;
    if i.Some? {
      assert VersionedAt(events, g, i.value) && forall j: nat :: i.value < j ==> !VersionedAt(events, g, j);
    } else {
      assert forall j: nat :: !VersionedAt(events, g, j);
    }
  }

  // The commands of a reconciliation

  /** What the events call for when they are all there is to go by. */
  ghost predicate CalledFor(events: seq<SagaEvent>, r: Request) {
    var f, g, v := FactsOf(events), r.goal, r.knownVersion;
    && !IsArchived(events, g) && AtVersion(events, g, v) && v > 0
    && match r
       case Achieve(_, _) => !IsAchieved(events, g) && AllDone(f, g)
       case Unachieve(_, _) => IsAchieved(events, g) && SomeOpen(f, g)
  }

  lemma CalledForIff(events: seq<SagaEvent>, r: Request)
    requires WellFormed(events)
    ensures var state := GoalOf(ReplayAll(events), r.goal);
            CalledFor(events, r) <==>
              (r == Achieve(r.goal, state.version) && ShouldAchieve(state, true))
              || (r == Unachieve(r.goal, state.version) && ShouldUnachieve(state))
    ensures CalledFor(events, r) ==> r.goal in ReplayAll(events).goals
  {
    hide Exact, AllDone, SomeOpen, IsAchieved, IsArchived, AtVersion, WellFormed, FactsOf, ReplayAll, GoalExact,
         AllCompleted;
    ReplayedIsExact(events);
    ReplayedFollowsGoal(events, r.goal);
    OneVersion(events, r.goal, GoalOf(ReplayAll(events), r.goal).version, r.knownVersion);
    GoalOfExact(ReplayAll(events), FactsOf(events), r.goal);
    LinkedTells(FactsOf(events), r.goal, GoalOf(ReplayAll(events), r.goal));
  }
}
