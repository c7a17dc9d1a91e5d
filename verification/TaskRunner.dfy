/** The single-flight task runner: callers that arrive during a run ask for one more and wait for the whole cycle. */
module TaskRunner {
  import opened Wrappers

  type CallId = nat

  /** One execution, from `start` to `end`, or until it threw. */
  datatype Execution = Execution(start: nat, end: nat, threw: bool)

  /** Waiting for the cycle, let go by it, or returned to the caller. */
  datatype Phase = Waiting | Released | Returned(at: nat)

  datatype Call = Call(made: nat, phase: Phase)

  /** `started` is when the current execution began, while a cycle is active. */
  datatype State = State(clock: nat, pending: bool, started: Option<nat>, calls: map<CallId, Call>, past: seq<Execution>)

  const IDLE: State := State(0, false, None, map[], [])

  /** The synchronous pieces between which the runner can be interleaved: a call, the end of an execution, an
      execution that throws, and a waiting caller that resumes after its cycle is over. */
  datatype Step = Enter(id: CallId) | Finish | Throw | Resume(id: CallId)

  predicate Enabled(s: State, step: Step) {
    match step
    case Enter(id) => id !in s.calls
    case Finish => s.started.Some?
    case Throw => s.started.Some?
    case Resume(id) => id in s.calls && s.calls[id].phase == Released
  }

  function Release(calls: map<CallId, Call>): (r: map<CallId, Call>)
    ensures r.Keys == calls.Keys
    ensures forall id :: id in calls ==> r[id] == if calls[id].phase == Waiting then calls[id].(phase := Released) else calls[id]
  {
    map id | id in calls :: if calls[id].phase == Waiting then calls[id].(phase := Released) else calls[id]
  }

  function Next(s: State, step: Step): State
    requires Enabled(s, step)
  {
    var now := s.clock + 1;
    match step
    case Enter(id) =>
      var called := s.(clock := now, calls := s.calls[id := Call(s.clock, Waiting)]);
      if s.started.Some? then called.(pending := true) else called.(pending := false, started := Some(s.clock))
    case Finish =>
      var ended := s.(clock := now, past := s.past + [Execution(s.started.value, s.clock, false)]);
      if s.pending then ended.(pending := false, started := Some(s.clock))
      else ended.(started := None, calls := Release(s.calls))
    case Throw =>
      s.(clock := now, past := s.past + [Execution(s.started.value, s.clock, true)], started := None,
         calls := Release(s.calls))
    case Resume(id) => s.(clock := now, calls := s.calls[id := s.calls[id].(phase := Returned(s.clock))])
  }

  // What holds in every state

  /** One execution after the other. */
  ghost predicate OneAtATime(s: State) {
    && (forall k :: 0 <= k < |s.past| ==> s.past[k].start <= s.past[k].end < s.clock)
    && (forall j, k :: 0 <= j < k < |s.past| ==> s.past[j].end <= s.past[k].start)
    && (s.started.Some? ==> s.started.value <= s.clock
                            && forall k :: 0 <= k < |s.past| ==> s.past[k].end <= s.started.value)
  }

  /** A complete execution that began at or after one time and ended by another. */
  ghost predicate ServedBy(s: State, made: nat, until: nat, k: nat) {
    k < |s.past| && s.past[k].start >= made && s.past[k].end <= until && !s.past[k].threw
  }

  /** An execution that was under way at this time or later threw. */
  ghost predicate Spoiled(s: State, made: nat) {
    exists k :: 0 <= k < |s.past| && s.past[k].threw && s.past[k].end >= made
  }

  ghost predicate Served(s: State, made: nat, until: nat) {
    exists k: nat :: ServedBy(s, made, until, k)
  }

  ghost predicate CallOk(s: State, c: Call) {
    && c.made <= s.clock
    && match c.phase
       case Waiting => s.started.Some? && (s.pending || s.started.value >= c.made) && !Spoiled(s, c.made)
       case Released => Served(s, c.made, s.clock) || Spoiled(s, c.made)
       case Returned(at) => Served(s, c.made, at) || Spoiled(s, c.made)
  }

  ghost predicate Ok(s: State) {
    OneAtATime(s) && forall id :: id in s.calls ==> CallOk(s, s.calls[id])
  }

  lemma PastGrows(s: State, t: State, made: nat, until: nat, until': nat)
    requires |s.past| <= |t.past| && t.past[..|s.past|] == s.past && until <= until'
    ensures Served(s, made, until) ==> Served(t, made, until')
    ensures Spoiled(s, made) ==> Spoiled(t, made)
  {
    if Served(s, made, until) {
      var k: nat :| ServedBy(s, made, until, k);
      assert t.past[..|s.past|][k] == t.past[k];
      assert ServedBy(t, made, until', k);
    }
    if Spoiled(s, made) {
      var k :| 0 <= k < |s.past| && s.past[k].threw && s.past[k].end >= made;
      assert t.past[..|s.past|][k] == t.past[k];
    }
  }

  /** One more execution adds what it serves and spoils, and nothing else. */
  lemma NewestCounts(s: State, t: State, e: Execution, made: nat, until: nat)
    requires t.past == s.past + [e]
    ensures Served(t, made, until) <==> Served(s, made, until) || (!e.threw && e.start >= made && e.end <= until)
    ensures Spoiled(t, made) <==> Spoiled(s, made) || (e.threw && e.end >= made)
  {
    PastGrows(s, t, made, until, until);
    if !e.threw && e.start >= made && e.end <= until {
      assert ServedBy(t, made, until, |s.past|);
    }
    if e.threw && e.end >= made {
      assert t.past[|s.past|] == e;
    }
    if k: nat :| ServedBy(t, made, until, k) && k < |s.past| {
      assert ServedBy(s, made, until, k);
    }
  }

  /** What is past stays counted through a step, and a step that ends an execution adds just that one. */
  lemma StepCounts(s: State, step: Step, made: nat, until: nat)
    requires Enabled(s, step) && until <= s.clock
    ensures var t := Next(s, step);
            && (Served(s, made, until) ==> Served(t, made, until) && Served(t, made, t.clock))
            && (Spoiled(s, made) ==> Spoiled(t, made))
            && (!step.Throw? ==> (Spoiled(t, made) <==> Spoiled(s, made)))
            && (step.Throw? && made <= s.clock ==> Spoiled(t, made))
            && (step.Finish? && s.started.value >= made ==> Served(t, made, t.clock))
  {
    var t := Next(s, step);
    PastGrows(s, t, made, until, until);
    PastGrows(s, t, made, until, t.clock);
    if step.Finish? || step.Throw? {
      var e := Execution(s.started.value, s.clock, step.Throw?);
      NewestCounts(s, t, e, made, until);
      NewestCounts(s, t, e, made, t.clock);
    }
  }

  lemma NothingSpoiled(s: State, made: nat)
    requires forall k :: 0 <= k < |s.past| ==> s.past[k].end < made
    ensures !Spoiled(s, made)
  {
  }

  lemma StepKeepsOk(s: State, step: Step)
    requires Ok(s) && Enabled(s, step)
    ensures Ok(Next(s, step))
  {
    hide Served, Spoiled;
    var t := Next(s, step);
    forall id | id in t.calls ensures CallOk(t, t.calls[id]) {
      var c := t.calls[id];
      if step.Enter? && id == step.id {
        NothingSpoiled(t, c.made);
      } else {
        assert CallOk(s, s.calls[id]);
        StepCounts(s, step, c.made, s.clock);
        if s.calls[id].phase.Returned? {
          ReturnedStays(s, step, c.made, s.calls[id].phase.at);
        }
      }
    }
  }

  lemma ReturnedStays(s: State, step: Step, made: nat, until: nat)
    requires Enabled(s, step)
    ensures Served(s, made, until) ==> Served(Next(s, step), made, until)
  {
    PastGrows(s, Next(s, step), made, until, until);
  }

  ghost predicate Legal(s: State, steps: seq<Step>)
    decreases |steps|
  {
    steps == [] || (Enabled(s, steps[0]) && Legal(Next(s, steps[0]), steps[1..]))
  }

  function Run(s: State, steps: seq<Step>): State
    requires Legal(s, steps)
    decreases |steps|
  {
    if steps == [] then s else Run(Next(s, steps[0]), steps[1..])
  }

  lemma {:induction false} RunKeepsOk(s: State, steps: seq<Step>)
    requires Ok(s) && Legal(s, steps)
    ensures Ok(Run(s, steps))
    decreases |steps|
  {
    hide Ok, Enabled, Next;
    if steps != [] {
      StepKeepsOk(s, steps[0]);
      RunKeepsOk(Next(s, steps[0]), steps[1..]);
    }
  }

  lemma {:induction false} NoThrowNoSpoil(s: State, steps: seq<Step>)
    requires Legal(s, steps) && Throw !in steps
    requires forall k :: 0 <= k < |s.past| ==> !s.past[k].threw
    ensures forall k :: 0 <= k < |Run(s, steps).past| ==> !Run(s, steps).past[k].threw
    decreases |steps|
  {
    if steps != [] {
      NoThrowNoSpoil(Next(s, steps[0]), steps[1..]);
    }
  }

  /** With tasks that do not fail, executions never overlap, and a call that has returned did so only after the end of
      a complete execution that began at or after it. */
  lemma ReturnsAreFresh(steps: seq<Step>, id: CallId)
    requires Legal(IDLE, steps) && Throw !in steps && id in Run(IDLE, steps).calls
    ensures var s := Run(IDLE, steps); var c := s.calls[id];
            OneAtATime(s) && (c.phase.Returned? ==> Served(s, c.made, c.phase.at))
  {
    hide Legal, Run, Served;
    RunKeepsOk(IDLE, steps);
    NoThrowNoSpoil(IDLE, steps);
    var s := Run(IDLE, steps);
    assert CallOk(s, s.calls[id]);
  }

  // No execution that nobody asked for

  /** A call that came after one time and not after another. */
  ghost predicate AskedIn(s: State, after: int, until: nat) {
    exists id :: id in s.calls && after < s.calls[id].made <= until
  }

  function StartBefore(s: State, k: nat): int
    requires k <= |s.past|
  {
    if k == 0 then -1 else s.past[k - 1].start
  }

  ghost predicate LateCall(s: State) {
    s.started.Some? && exists id :: id in s.calls && s.calls[id].made > s.started.value
  }

  /** Every execution was asked for by a call made since the one before it began, and another is pending exactly when
      a call came during the present one. */
  ghost predicate Wanted(s: State) {
    && (forall id :: id in s.calls ==> s.calls[id].made < s.clock)
    && (s.started.Some? ==> s.started.value < s.clock && (s.pending <==> LateCall(s))
                            && AskedIn(s, StartBefore(s, |s.past|), s.started.value))
    && (forall k :: 0 <= k < |s.past| ==> AskedIn(s, StartBefore(s, k), s.past[k].start))
  }

  lemma AskedStays(s: State, step: Step, after: int, until: nat)
    requires Enabled(s, step) && AskedIn(s, after, until)
    ensures AskedIn(Next(s, step), after, until)
  {
    var id :| id in s.calls && after < s.calls[id].made <= until;
    assert id in Next(s, step).calls && Next(s, step).calls[id].made == s.calls[id].made;
  }

  lemma StepKeepsMade(s: State, step: Step, id: CallId)
    requires Enabled(s, step)
    ensures var t := Next(s, step);
            && (id in s.calls ==> id in t.calls && t.calls[id].made == s.calls[id].made)
            && (id in t.calls && id !in s.calls ==> step == Enter(id) && t.calls[id].made == s.clock)
            && (step == Enter(id) ==> id in t.calls && t.calls[id].made == s.clock)
  {
  }

  lemma StepKeepsWanted(s: State, step: Step)
    requires Ok(s) && Wanted(s) && Enabled(s, step)
    ensures Wanted(Next(s, step))
  {
    hide CallOk, AskedIn;
    var t := Next(s, step);
    forall id ensures (id in s.calls ==> id in t.calls && t.calls[id].made == s.calls[id].made)
                      && (id in t.calls && id !in s.calls ==> step == Enter(id) && t.calls[id].made == s.clock)
                      && (step == Enter(id) ==> id in t.calls && t.calls[id].made == s.clock)
    {
      StepKeepsMade(s, step, id);
    }
    forall k | 0 <= k < |s.past| ensures AskedIn(t, StartBefore(t, k), t.past[k].start) {
      AskedStays(s, step, StartBefore(s, k), s.past[k].start);
    }
    if s.started.Some? {
      AskedStays(s, step, StartBefore(s, |s.past|), s.started.value);
    }
    hide Enabled, Next;
    match step
    case Enter(id) =>
      if s.started.None? { StartedBy(s, id); }
    case Finish =>
      if s.pending { GoneRound(s); } else { EndedFor(s, Finish); }
    case Throw => EndedFor(s, Throw);
    case Resume(id) => SameRun(s, id);
  }

  lemma StartedBy(s: State, id: CallId)
    requires Ok(s) && Wanted(s) && Enabled(s, Enter(id)) && s.started.None?
    ensures var t := Next(s, Enter(id));
            && t.started == Some(s.clock) && t.clock == s.clock + 1 && !t.pending && !LateCall(t) && t.past == s.past
            && AskedIn(t, StartBefore(t, |t.past|), s.clock)
  {
    var t := Next(s, Enter(id));
    assert id in t.calls && t.calls[id].made == s.clock;
  }

  lemma GoneRound(s: State)
    requires Ok(s) && Wanted(s) && s.started.Some? && s.pending
    ensures var t := Next(s, Finish);
            && t.started == Some(s.clock) && t.clock == s.clock + 1 && !t.pending && !LateCall(t)
            && t.past == s.past + [Execution(s.started.value, s.clock, false)]
            && AskedIn(t, StartBefore(t, |t.past|), s.clock)
  {
    var t := Next(s, Finish);
    var id :| id in s.calls && s.calls[id].made > s.started.value;
    assert id in t.calls && t.calls[id].made <= s.clock;
  }

  lemma EndedFor(s: State, step: Step)
    requires Wanted(s) && Enabled(s, step) && (step.Throw? || (step.Finish? && !s.pending))
    ensures var t := Next(s, step);
            t.started.None? && t.clock == s.clock + 1 && |t.past| == |s.past| + 1 && t.past[..|s.past|] == s.past
            && t.past[|s.past|].start == s.started.value
  {
  }

  lemma SameRun(s: State, id: CallId)
    requires Enabled(s, Resume(id))
    ensures var t := Next(s, Resume(id));
            t.started == s.started && t.clock == s.clock + 1 && t.past == s.past && t.pending == s.pending
            && (LateCall(t) <==> LateCall(s))
  {
    var t := Next(s, Resume(id));
    if LateCall(s) {
      var x :| x in s.calls && s.calls[x].made > s.started.value;
      assert x in t.calls && t.calls[x].made > t.started.value;
    }
    if LateCall(t) {
      var x :| x in t.calls && t.calls[x].made > t.started.value;
      assert x in s.calls && s.calls[x].made > s.started.value;
    }
  }

  lemma {:induction false} RunKeepsWanted(s: State, steps: seq<Step>)
    requires Ok(s) && Wanted(s) && Legal(s, steps)
    ensures Wanted(Run(s, steps))
    decreases |steps|
  {
    hide Ok, Wanted, Enabled, Next;
    if steps != [] {
      StepKeepsOk(s, steps[0]);
      StepKeepsWanted(s, steps[0]);
      RunKeepsWanted(Next(s, steps[0]), steps[1..]);
    }
  }

  /** In every run: no execution without a call made since the previous one began, so calls that come together share
      one; and an execution that ends is followed by another exactly when a call came during it, else everyone
      waiting is let go. */
  lemma RoundsAreWanted(steps: seq<Step>)
    requires Legal(IDLE, steps)
    ensures var s := Run(IDLE, steps);
            && Wanted(s)
            && (s.started.Some? ==>
                  && (Next(s, Finish).started.Some? <==> LateCall(s))
                  && (Next(s, Finish).started.None? ==>
                        forall id :: id in s.calls ==> Next(s, Finish).calls[id].phase != Waiting))
  {
    hide Legal, Run, Wanted, AskedIn, LateCall;
    RunKeepsWanted(IDLE, steps) by {
      RunKeepsOk(IDLE, steps);
      assert Wanted(IDLE) by { IdleIsWanted(); }
    }
    if Run(IDLE, steps).started.Some? {
      PendingIsLate(Run(IDLE, steps));
    }
  }

  lemma IdleIsWanted()
    ensures Wanted(IDLE)
  {
  }

  lemma PendingIsLate(s: State)
    requires Wanted(s) && s.started.Some?
    ensures s.pending <==> LateCall(s)
  {
  }

  /** A waiting caller whose cycle ends in a throw has been served exactly if the execution before the failing one
      began at or after its call. */
  lemma ThrowServesIff(s: State, id: CallId)
    requires Ok(s) && s.started.Some? && id in s.calls && s.calls[id].phase == Waiting
    ensures var t, made := Next(s, Throw), s.calls[id].made;
            && t.calls[id].phase == Released
            && (Served(t, made, t.clock) <==> s.past != [] && s.past[|s.past| - 1].start >= made)
  {
    hide Served;
    var t, c := Next(s, Throw), s.calls[id];
    assert CallOk(s, c);
    NewestCounts(s, t, Execution(s.started.value, s.clock, true), c.made, t.clock);
    LatestServes(s, c.made, t.clock);
  }

  lemma LatestServes(s: State, made: nat, until: nat)
    requires OneAtATime(s) && !Spoiled(s, made) && s.clock <= until
    ensures Served(s, made, until) <==> s.past != [] && s.past[|s.past| - 1].start >= made
  {
    if s.past != [] && s.past[|s.past| - 1].start >= made {
      assert ServedBy(s, made, until, |s.past| - 1);
    }
  }

  /** Such a run: the caller that asked for another execution returns without one. */
  lemma ThrowDropsPending()
    ensures var steps := [Enter(0), Enter(1), Throw, Resume(1)];
            && Legal(IDLE, steps) && 1 in Run(IDLE, steps).calls
            && var s := Run(IDLE, steps); var c := s.calls[1];
               c.phase.Returned? && forall until: nat :: !Served(s, c.made, until)
  {
    var steps := [Enter(0), Enter(1), Throw, Resume(1)];
    var a := Next(IDLE, Enter(0));
    var b := Next(a, Enter(1));
    var c := Next(b, Throw);
    var d := Next(c, Resume(1));
    assert steps[1..] == [Enter(1), Throw, Resume(1)];
    assert steps[1..][1..] == [Throw, Resume(1)];
    assert steps[1..][1..][1..] == [Resume(1)];
    assert steps[1..][1..][1..][1..] == [];
    assert Run(d, []) == d && Run(c, [Resume(1)]) == d;
    assert Run(b, [Throw, Resume(1)]) == d;
    assert Run(a, [Enter(1), Throw, Resume(1)]) == d;
    assert Run(IDLE, steps) == d;
  }

  // The runner as an object: its two flags, and the pieces of code that run without a break

  class Runner {
    var pending: bool
    /** A completion promise exists. */
    var active: bool

    constructor ()
      ensures !pending && !active
    {
      pending, active := false, false;
    }

    /** The start of run(): either join the active cycle or start one, whose first execution then begins. */
    method Arrive() returns (starts: bool)
      modifies this
      ensures starts <==> !old(active)
      ensures active && pending == old(active)
    {
      if active {
        pending := true;
        return false;
      }
      active := true;
      pending := false;
      return true;
    }

    /** After an execution: go round again, or end the cycle and let everyone who waits go. */
    method ExecutionEnded(threw: bool) returns (again: bool)
      requires active
      modifies this
      ensures again <==> old(pending) && !threw
      ensures active == again && pending == (old(pending) && threw)
    {
      if !threw && pending {
        pending := false;
        return true;
      }
      active := false;
      return false;
    }

    /** What the flags say of a state of the machine. */
    ghost predicate Agrees(s: State)
      reads this
    {
      active == s.started.Some? && (active ==> pending == s.pending)
    }

    /** The flags follow the machine through a call. */
    method ArriveAs(ghost s: State, id: CallId) returns (starts: bool)
      requires Agrees(s) && Enabled(s, Enter(id))
      modifies this
      ensures Agrees(Next(s, Enter(id))) && (starts <==> s.started.None?)
    {
      starts := Arrive();
    }

    /** And through the end of an execution. */
    method EndAs(ghost s: State, threw: bool) returns (again: bool)
      requires Agrees(s) && s.started.Some?
      modifies this
      ensures Agrees(Next(s, if threw then Throw else Finish))
      ensures again <==> Next(s, if threw then Throw else Finish).started.Some?
    {
      again := ExecutionEnded(threw);
    }
  }
}
