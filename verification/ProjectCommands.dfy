/** What each command does to a project, and what a replayed history leaves in each field. */
module ProjectCommands {
  import opened Wrappers
  import opened ProjectModel

  /** The command emits an event, and with it the project becomes the one given. */
  predicate Becomes(s: State, c: Command, at: Millis, after: State) {
    && Decide(s, c, at).Ok? && Decide(s, c, at).value.Some?
    && Apply(s, Decide(s, c, at).value.value) == Ok(after)
  }

  predicate Refused(s: State, c: Command, at: Millis) {
    Decide(s, c, at).Err?
  }

  /** The command is accepted without any event. */
  predicate Ignored(s: State, c: Command, at: Millis) {
    Decide(s, c, at) == Ok(None)
  }

  predicate Live(s: State) {
    s.archivedAt.None?
  }

  lemma ArchivedRefuses(s: State, c: Command, at: Millis)
    requires !Live(s)
    ensures Decide(s, c, at) == Err(Archived)
  {
  }

  lemma NameChanged(s: State, name: string, at: Millis)
    requires Consistent(s) && Live(s)
    ensures Refused(s, ChangeName(name), at) <==> s.name == Some(name)
    ensures s.name != Some(name) ==> Becomes(s, ChangeName(name), at, s.(name := Some(name), updatedAt := Some(at)))
  {
  }

  lemma DescriptionChanged(s: State, d: string, at: Millis)
    requires Consistent(s) && Live(s)
    ensures Refused(s, ChangeDescription(d), at) <==> s.description == Some(d)
    ensures s.description != Some(d) ==>
              Becomes(s, ChangeDescription(d), at, s.(description := Some(d), updatedAt := Some(at)))
  {
  }

  lemma StatusChanged(s: State, status: Status, at: Millis)
    requires Consistent(s) && Live(s)
    ensures Refused(s, ChangeStatus(status), at) <==> s.status == Some(status)
    ensures s.status != Some(status) ==>
              Becomes(s, ChangeStatus(status), at, s.(status := Some(status), updatedAt := Some(at)))
  {
  }

  /** New dates, even the same ones, are taken exactly when they are in order and leave no milestone outside. */
  lemma DatesChanged(s: State, start: LocalDate, target: LocalDate, at: Millis)
    requires Consistent(s) && Live(s)
    ensures !Refused(s, ChangeDates(start, target), at) <==>
              start <= target && forall m :: m in s.milestones ==> start <= m.targetDate <= target
    ensures !Refused(s, ChangeDates(start, target), at) ==>
              Becomes(s, ChangeDates(start, target), at,
                      s.(startDate := Some(start), targetDate := Some(target), updatedAt := Some(at)))
  {
  }

  lemma GoalAdded(s: State, goal: string, at: Millis)
    requires Consistent(s) && Live(s)
    ensures Refused(s, AddGoal(goal), at) <==> s.goalId.Some?
    ensures s.goalId.None? ==> Becomes(s, AddGoal(goal), at, s.(goalId := Some(goal), updatedAt := Some(at)))
  {
  }

  lemma GoalRemoved(s: State, at: Millis)
    requires Consistent(s) && Live(s)
    ensures Ignored(s, RemoveGoal, at) <==> s.goalId.None?
    ensures s.goalId.Some? ==> Becomes(s, RemoveGoal, at, s.(goalId := None, updatedAt := Some(at)))
  {
  }

  lemma ProjectArchivedNow(s: State, at: Millis)
    requires Consistent(s) && Live(s)
    ensures Becomes(s, Archive, at, s.(archivedAt := Some(at), updatedAt := Some(at)))
  {
  }

  lemma MilestoneAdded(s: State, m: Milestone, at: Millis)
    requires Consistent(s) && Live(s)
    ensures !Refused(s, AddMilestone(m), at) <==>
              s.startDate.value <= m.targetDate <= s.targetDate.value && forall x :: x in s.milestones ==> x.id != m.id
    ensures !Refused(s, AddMilestone(m), at) ==>
              Becomes(s, AddMilestone(m), at, s.(milestones := s.milestones + [m], updatedAt := Some(at)))
  {
    assert HasMilestone(s.milestones, m.id) <==> exists x :: x in s.milestones && x.id == m.id;
  }

  /** The milestone with this id has become the one given; every other one is as before, in its place. */
  predicate OneReplaced(before: seq<Milestone>, after: seq<Milestone>, m: Milestone) {
    && |after| == |before|
    && (forall i :: 0 <= i < |before| ==> after[i] == if before[i].id == m.id then m else before[i])
  }

  lemma MilestoneRenamed(s: State, m: Milestone, title: string, at: Millis)
    requires Consistent(s) && Live(s) && m in s.milestones
    ensures Refused(s, ChangeMilestoneName(m.id, title), at) <==> m.name == title
    ensures m.name != title ==>
              exists ms :: OneReplaced(s.milestones, ms, Milestone(m.id, title, m.targetDate))
                        && Becomes(s, ChangeMilestoneName(m.id, title), at, s.(milestones := ms, updatedAt := Some(at)))
  {
    var i := FoundMilestone(s, m);
    var ms := s.milestones[i := Milestone(m.id, title, m.targetDate)];
    assert OneReplaced(s.milestones, ms, Milestone(m.id, title, m.targetDate));
  }

  /** In a consistent project the first milestone with the id is the only one. */
  lemma FoundMilestone(s: State, m: Milestone) returns (i: nat)
    requires Consistent(s) && m in s.milestones
    ensures HasMilestone(s.milestones, m.id) && i == FindMilestone(s.milestones, m.id)
    ensures i < |s.milestones| && s.milestones[i] == m
    ensures forall j :: 0 <= j < |s.milestones| && j != i ==> s.milestones[j].id != m.id
  {
    var k :| 0 <= k < |s.milestones| && s.milestones[k] == m;
    i := FindMilestone(s.milestones, m.id);
  }

  lemma MilestoneMoved(s: State, m: Milestone, date: LocalDate, at: Millis)
    requires Consistent(s) && Live(s) && m in s.milestones
    ensures !Refused(s, ChangeMilestoneTargetDate(m.id, date), at) <==>
              m.targetDate != date && s.startDate.value <= date <= s.targetDate.value
    ensures !Refused(s, ChangeMilestoneTargetDate(m.id, date), at) ==>
              exists ms :: OneReplaced(s.milestones, ms, Milestone(m.id, m.name, date))
                        && Becomes(s, ChangeMilestoneTargetDate(m.id, date), at, s.(milestones := ms, updatedAt := Some(at)))
  {
    var i := FoundMilestone(s, m);
    var ms := s.milestones[i := Milestone(m.id, m.name, date)];
    assert OneReplaced(s.milestones, ms, Milestone(m.id, m.name, date));
  }

  lemma MilestoneArchived(s: State, i: nat, at: Millis)
    requires Consistent(s) && Live(s) && i < |s.milestones|
    ensures Becomes(s, ArchiveMilestone(s.milestones[i].id), at,
                    s.(milestones := s.milestones[..i] + s.milestones[i + 1..], updatedAt := Some(at)))
  {
    assert HasMilestone(s.milestones, s.milestones[i].id);
    WithoutOne(s.milestones, i);
  }

  lemma {:induction false} WithoutOne(ms: seq<Milestone>, i: nat)
    requires UniqueIds(ms) && i < |ms|
    ensures WithoutMilestone(ms, ms[i].id) == ms[..i] + ms[i + 1..]
  {
    if i == 0 {
      WithoutNone(ms[1..], ms[0].id);
    } else {
      WithoutOne(ms[1..], i - 1);
      assert ms[..i] + ms[i + 1..] == [ms[0]] + (ms[1..][..i - 1] + ms[1..][i..]);
    }
  }

  lemma {:induction false} WithoutNone(ms: seq<Milestone>, id: string)
    requires forall m :: m in ms ==> m.id != id
    ensures WithoutMilestone(ms, id) == ms
  {
    if ms != [] {
      WithoutNone(ms[1..], id);
    }
  }

  /** A milestone that is not there cannot be renamed, moved or archived. */
  lemma MilestoneMissing(s: State, id: string, title: string, date: LocalDate, at: Millis)
    requires Consistent(s) && Live(s) && forall m :: m in s.milestones ==> m.id != id
    ensures Decide(s, ChangeMilestoneName(id, title), at) == Err(MilestoneNotFound)
    ensures Decide(s, ArchiveMilestone(id), at) == Err(MilestoneNotFound)
    ensures Decide(s, ChangeMilestoneTargetDate(id, date), at) ==
              Err(if s.startDate.value <= date <= s.targetDate.value then MilestoneNotFound else MilestoneOutOfRange)
  {
  }

  /** A new project has what it was created with, no milestones, and is not archived. */
  lemma Created(name: string, status: Status, start: LocalDate, target: LocalDate, description: string,
                goalId: Option<string>, author: string, at: Millis)
    requires start <= target
    ensures var r := Create(name, status, start, target, description, goalId, author, at);
            r.Ok? && Apply(BLANK, r.value) ==
              Ok(State(Some(name), Some(status), Some(start), Some(target), Some(description), goalId, [], Some(author),
                       Some(at), Some(at), None))
  {
  }

  // Whole histories

  /** The value the last writing event gives, or the one before all of them. */
  function LastOr<T>(events: seq<ProjectEvent>, written: ProjectEvent -> Option<T>, before: T): T {
    if events == [] then before else
      var w := written(events[|events| - 1]);
      if w.Some? then w.value else LastOr(events[..|events| - 1], written, before)
  }

  function Time(e: ProjectEvent): Millis {
    if e.ProjectCreated? then e.createdAt else e.at
  }

  function WrittenName(e: ProjectEvent): Option<Option<string>> {
    if e.ProjectCreated? then Some(Some(e.name)) else if e.ProjectRenamed? then Some(Some(e.newName)) else None
  }

  function WrittenDescription(e: ProjectEvent): Option<Option<string>> {
    if e.ProjectCreated? then Some(Some(e.description))
    else if e.ProjectDescribed? then Some(Some(e.newDescription)) else None
  }

  function WrittenStatus(e: ProjectEvent): Option<Option<Status>> {
    if e.ProjectCreated? then Some(Some(e.status))
    else if e.ProjectStatusTransitioned? then Some(Some(e.newStatus)) else None
  }

  function WrittenDates(e: ProjectEvent): Option<(Option<LocalDate>, Option<LocalDate>)> {
    if e.ProjectCreated? then Some((Some(e.startDate), Some(e.targetDate)))
    else if e.ProjectRescheduled? then Some((Some(e.start), Some(e.target))) else None
  }

  function WrittenGoal(e: ProjectEvent): Option<Option<string>> {
    if e.ProjectCreated? then Some(e.goalId)
    else if e.ProjectGoalAdded? then Some(Some(e.goal))
    else if e.ProjectGoalRemoved? then Some(None) else None
  }

  function WrittenArchive(e: ProjectEvent): Option<Option<Millis>> {
    if e.ProjectArchived? then Some(Some(e.at)) else None
  }

  function Or<T>(w: Option<T>, before: T): T { if w.Some? then w.value else before }

  lemma AppliedFields(s: State, e: ProjectEvent)
    requires Apply(s, e).Ok?
    ensures var t := Apply(s, e).value;
            && t.name == Or(WrittenName(e), s.name) && t.description == Or(WrittenDescription(e), s.description)
            && t.status == Or(WrittenStatus(e), s.status)
            && (t.startDate, t.targetDate) == Or(WrittenDates(e), (s.startDate, s.targetDate))
            && t.goalId == Or(WrittenGoal(e), s.goalId) && t.archivedAt == Or(WrittenArchive(e), s.archivedAt)
            && t.updatedAt == Some(Time(e))
  {
  }

  /** In any history that can be replayed, every field has what the last event that concerns it says. */
  lemma {:induction false} ReplayedFields(s: State, events: seq<ProjectEvent>)
    requires Replay(s, events).Ok?
    ensures var t := Replay(s, events).value;
            && t.name == LastOr(events, WrittenName, s.name)
            && t.description == LastOr(events, WrittenDescription, s.description)
            && t.status == LastOr(events, WrittenStatus, s.status)
            && (t.startDate, t.targetDate) == LastOr(events, WrittenDates, (s.startDate, s.targetDate))
            && t.goalId == LastOr(events, WrittenGoal, s.goalId)
            && t.archivedAt == LastOr(events, WrittenArchive, s.archivedAt)
            && t.updatedAt == if events == [] then s.updatedAt else Some(Time(events[|events| - 1]))
    decreases |events|
  {
    hide Apply, WrittenName, WrittenDescription, WrittenStatus, WrittenDates, WrittenGoal, WrittenArchive, Time;
    if events != [] {
      var init, last := events[..|events| - 1], events[|events| - 1];
      assert events == init + [last];
      ReplaySplit(s, init, [last]);
      ReplayedFields(s, init);
      ReplayedOne(Replay(s, init).value, last);
      AppliedFields(Replay(s, init).value, last);
    }
  }

  lemma ReplayedOne(s: State, e: ProjectEvent)
    ensures Replay(s, [e]) == Apply(s, e)
  {
    if Apply(s, e).Ok? {
      assert [e][1..] == [] && Replay(Apply(s, e).value, []) == Ok(Apply(s, e).value);
    }
  }

  /** A history cannot be replayed exactly where it renames or moves a milestone that is not there. */
  lemma HandlerFailsIff(s: State, e: ProjectEvent)
    ensures Apply(s, e).Err? <==>
              (e.ProjectMilestoneRenamed? || e.ProjectMilestoneRescheduled?) && !HasMilestone(s.milestones, e.milestoneId)
  {
  }
}
