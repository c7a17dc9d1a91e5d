/** The Project aggregate: its events, how an event changes its state, and what each command decides.
    Calendar dates are numbers yyyymmdd, which order as the zero-padded ISO strings of the source do. */
module ProjectModel {
  import opened Wrappers

  type LocalDate = nat
  type Millis = int

  datatype Status = Planned | InProgress | Completed | Canceled

  datatype Milestone = Milestone(id: string, name: string, targetDate: LocalDate)

  datatype ProjectEvent =
    | ProjectCreated(name: string, status: Status, startDate: LocalDate, targetDate: LocalDate,
                     description: string, goalId: Option<string>, createdBy: string, createdAt: Millis)
    | ProjectStatusTransitioned(newStatus: Status, at: Millis)
    | ProjectRescheduled(start: LocalDate, target: LocalDate, at: Millis)
    | ProjectRenamed(newName: string, at: Millis)
    | ProjectDescribed(newDescription: string, at: Millis)
    | ProjectGoalAdded(goal: string, at: Millis)
    | ProjectGoalRemoved(at: Millis)
    | ProjectMilestoneAdded(milestone: Milestone, at: Millis)
    | ProjectMilestoneRescheduled(milestoneId: string, date: LocalDate, at: Millis)
    | ProjectMilestoneRenamed(milestoneId: string, title: string, at: Millis)
    | ProjectMilestoneArchived(milestoneId: string, at: Millis)
    | ProjectArchived(at: Millis)

  /** The fields of a project; those without a default are absent until an event sets them. */
  datatype State = State(
    name: Option<string>, status: Option<Status>, startDate: Option<LocalDate>, targetDate: Option<LocalDate>,
    description: Option<string>, goalId: Option<string>, milestones: seq<Milestone>, createdBy: Option<string>,
    createdAt: Option<Millis>, updatedAt: Option<Millis>, archivedAt: Option<Millis>)

  const BLANK: State := State(None, None, None, None, None, None, [], None, None, None, None)

  datatype ProjectError =
    | MilestoneNotFound | Archived | Unchanged | StartAfterTarget | MilestoneOutOfRange
    | GoalAlreadyLinked | DuplicateMilestone | Undefined

  predicate HasMilestone(ms: seq<Milestone>, id: string) {
    exists i :: 0 <= i < |ms| && ms[i].id == id
  }

  /** The position of the first milestone with this id, as Array.find locates it. */
  function FindMilestone(ms: seq<Milestone>, id: string): (i: nat)
    requires HasMilestone(ms, id)
    ensures i < |ms| && ms[i].id == id
    ensures forall j :: 0 <= j < i ==> ms[j].id != id
  {
    if ms[0].id == id then 0 else
      assert HasMilestone(ms[1..], id) by {
        var k :| 0 <= k < |ms| && ms[k].id == id;
        assert ms[1..][k - 1].id == id;
      }
      1 + FindMilestone(ms[1..], id)
  }

  function WithoutMilestone(ms: seq<Milestone>, id: string): (r: seq<Milestone>)
    ensures forall m :: m in r <==> m in ms && m.id != id
  {
    if ms == [] then [] else (if ms[0].id == id then [] else [ms[0]]) + WithoutMilestone(ms[1..], id)
  }

  /** The event handlers: the only failure is a milestone that is not there. */
  function Apply(s: State, e: ProjectEvent): Result<State, ProjectError> {
    match e
    case ProjectCreated(name, status, start, target, description, goalId, author, at) =>
      Ok(s.(name := Some(name), status := Some(status), startDate := Some(start), targetDate := Some(target),
            description := Some(description), goalId := goalId, createdBy := Some(author), createdAt := Some(at),
            updatedAt := Some(at)))
    case ProjectStatusTransitioned(status, at) => Ok(s.(status := Some(status), updatedAt := Some(at)))
    case ProjectRescheduled(start, target, at) =>
      Ok(s.(startDate := Some(start), targetDate := Some(target), updatedAt := Some(at)))
    case ProjectRenamed(name, at) => Ok(s.(name := Some(name), updatedAt := Some(at)))
    case ProjectDescribed(description, at) => Ok(s.(description := Some(description), updatedAt := Some(at)))
    case ProjectGoalAdded(goal, at) => Ok(s.(goalId := Some(goal), updatedAt := Some(at)))
    case ProjectGoalRemoved(at) => Ok(s.(goalId := None, updatedAt := Some(at)))
    case ProjectMilestoneAdded(m, at) => Ok(s.(milestones := s.milestones + [m], updatedAt := Some(at)))
    case ProjectMilestoneRescheduled(id, date, at) =>
      if !HasMilestone(s.milestones, id) then Err(MilestoneNotFound) else
        var i := FindMilestone(s.milestones, id);
        Ok(s.(milestones := s.milestones[i := s.milestones[i].(targetDate := date)], updatedAt := Some(at)))
    case ProjectMilestoneRenamed(id, title, at) =>
      if !HasMilestone(s.milestones, id) then Err(MilestoneNotFound) else
        var i := FindMilestone(s.milestones, id);
        Ok(s.(milestones := s.milestones[i := s.milestones[i].(name := title)], updatedAt := Some(at)))
    case ProjectMilestoneArchived(id, at) =>
      Ok(s.(milestones := WithoutMilestone(s.milestones, id), updatedAt := Some(at)))
    case ProjectArchived(at) => Ok(s.(archivedAt := Some(at), updatedAt := Some(at)))
  }

  /** Replay in order; the first event that cannot be handled aborts it. */
  function Replay(s: State, events: seq<ProjectEvent>): Result<State, ProjectError>
    decreases |events|
  {
    if events == [] then Ok(s) else
      match Apply(s, events[0])
      case Ok(next) => Replay(next, events[1..])
      case Err(e) => Err(e)
  }

  lemma {:induction false} ReplaySplit(s: State, head: seq<ProjectEvent>, tail: seq<ProjectEvent>)
    ensures Replay(s, head).Ok? ==> Replay(s, head + tail) == Replay(Replay(s, head).value, tail)
    ensures Replay(s, head).Err? ==> Replay(s, head + tail) == Replay(s, head)
    decreases |head|
  {
    if head == [] {
      assert head + tail == tail;
    } else {
      assert (head + tail)[0] == head[0] && (head + tail)[1..] == head[1..] + tail;
      var next := Apply(s, head[0]);
      if next.Ok? {
        ReplaySplit(next.value, head[1..], tail);
      }
    }
  }

  // Commands

  datatype Command =
    | ChangeName(name: string)
    | ChangeDescription(description: string)
    | ChangeStatus(status: Status)
    | ChangeDates(start: LocalDate, target: LocalDate)
    | AddGoal(goalId: string)
    | RemoveGoal
    | AddMilestone(milestone: Milestone)
    | ChangeMilestoneName(milestoneId: string, title: string)
    | ChangeMilestoneTargetDate(milestoneId: string, date: LocalDate)
    | ArchiveMilestone(milestoneId: string)
    | Archive

  predicate Within(s: State, date: LocalDate) {
    s.startDate.Some? && s.targetDate.Some? && s.startDate.value <= date <= s.targetDate.value
  }

  function Create(name: string, status: Status, start: LocalDate, target: LocalDate, description: string,
                  goalId: Option<string>, author: string, at: Millis): Result<ProjectEvent, ProjectError>
  {
    if start > target then Err(StartAfterTarget)
    else Ok(ProjectCreated(name, status, start, target, description, goalId, author, at))
  }

  /** What a command on a live project decides: nothing to do, one event, or a refusal. */
  function Decide(s: State, c: Command, at: Millis): Result<Option<ProjectEvent>, ProjectError> {
    if s.archivedAt.Some? then Err(Archived) else
      match c
      case ChangeName(name) =>
        if s.name.None? then Err(Undefined) else if s.name.value == name then Err(Unchanged)
        else Ok(Some(ProjectRenamed(name, at)))
      case ChangeDescription(d) =>
        if s.description.None? then Err(Undefined) else if s.description.value == d then Err(Unchanged)
        else Ok(Some(ProjectDescribed(d, at)))
      case ChangeStatus(status) =>
        if s.status.None? then Err(Undefined) else if s.status.value == status then Err(Unchanged)
        else Ok(Some(ProjectStatusTransitioned(status, at)))
      case ChangeDates(start, target) =>
        if start > target then Err(StartAfterTarget)
        else if exists i :: 0 <= i < |s.milestones| && !(start <= s.milestones[i].targetDate <= target)
          then Err(MilestoneOutOfRange)
        else Ok(Some(ProjectRescheduled(start, target, at)))
      case AddGoal(goal) =>
        if s.goalId.Some? then Err(GoalAlreadyLinked) else Ok(Some(ProjectGoalAdded(goal, at)))
      case RemoveGoal =>
        if s.goalId.None? then Ok(None) else Ok(Some(ProjectGoalRemoved(at)))
      case AddMilestone(m) =>
        if s.startDate.None? || s.targetDate.None? then Err(Undefined)
        else if !Within(s, m.targetDate) then Err(MilestoneOutOfRange)
        else if HasMilestone(s.milestones, m.id) then Err(DuplicateMilestone)
        else Ok(Some(ProjectMilestoneAdded(m, at)))
      case ChangeMilestoneName(id, title) =>
        if !HasMilestone(s.milestones, id) then Err(MilestoneNotFound)
        else if s.milestones[FindMilestone(s.milestones, id)].name == title then Err(Unchanged)
        else Ok(Some(ProjectMilestoneRenamed(id, title, at)))
      case ChangeMilestoneTargetDate(id, date) =>
        if s.startDate.None? || s.targetDate.None? then Err(Undefined)
        else if !Within(s, date) then Err(MilestoneOutOfRange)
        else if !HasMilestone(s.milestones, id) then Err(MilestoneNotFound)
        else if s.milestones[FindMilestone(s.milestones, id)].targetDate == date then Err(Unchanged)
        else Ok(Some(ProjectMilestoneRescheduled(id, date, at)))
      case ArchiveMilestone(id) =>
        if !HasMilestone(s.milestones, id) then Err(MilestoneNotFound)
        else Ok(Some(ProjectMilestoneArchived(id, at)))
      case Archive => Ok(Some(ProjectArchived(at)))
  }

  ghost predicate UniqueIds(ms: seq<Milestone>) {
    forall i, j :: 0 <= i < j < |ms| ==> ms[i].id != ms[j].id
  }

  ghost predicate AllWithin(ms: seq<Milestone>, start: LocalDate, target: LocalDate) {
    forall m :: m in ms ==> start <= m.targetDate <= target
  }

  /** The consistency rules of the aggregate once it has been created. */
  ghost predicate Consistent(s: State) {
    && s.name.Some? && s.status.Some? && s.description.Some? && s.createdBy.Some? && s.createdAt.Some?
    && s.updatedAt.Some? && s.startDate.Some? && s.targetDate.Some?
    && s.startDate.value <= s.targetDate.value
    && UniqueIds(s.milestones)
    && AllWithin(s.milestones, s.startDate.value, s.targetDate.value)
  }

  lemma {:induction false} WithoutKeepsUnique(ms: seq<Milestone>, id: string)
    requires UniqueIds(ms)
    ensures UniqueIds(WithoutMilestone(ms, id))
  {
    if ms != [] {
      var tail, r := WithoutMilestone(ms[1..], id), WithoutMilestone(ms, id);
      WithoutKeepsUnique(ms[1..], id);
      forall i, j | 0 <= i < j < |r| ensures r[i].id != r[j].id {
        if ms[0].id == id {
          assert r == tail;
        } else {
          assert r == [ms[0]] + tail && r[j] == tail[j - 1] && r[j] in ms[1..];
        }
      }
    }
  }

  lemma ReplaceMilestone(ms: seq<Milestone>, i: nat, m: Milestone, start: LocalDate, target: LocalDate)
    requires i < |ms| && m.id == ms[i].id && UniqueIds(ms) && AllWithin(ms, start, target)
    requires start <= m.targetDate <= target
    ensures UniqueIds(ms[i := m]) && AllWithin(ms[i := m], start, target)
  {
  }

  lemma CreateIsConsistent(name: string, status: Status, start: LocalDate, target: LocalDate, description: string,
                           goalId: Option<string>, author: string, at: Millis)
    ensures var r := Create(name, status, start, target, description, goalId, author, at);
            r.Ok? <==> start <= target
    ensures var r := Create(name, status, start, target, description, goalId, author, at);
            r.Ok? ==> Apply(BLANK, r.value).Ok? && Consistent(Apply(BLANK, r.value).value)
  {
  }

  /** What a live, consistent project lets happen to it. */
  ghost predicate Admissible(s: State, e: ProjectEvent) {
    match e
    case ProjectCreated(_, _, _, _, _, _, _, _) => false
    case ProjectRescheduled(start, target, _) => start <= target && AllWithin(s.milestones, start, target)
    case ProjectMilestoneAdded(m, _) => Within(s, m.targetDate) && !HasMilestone(s.milestones, m.id)
    case ProjectMilestoneRescheduled(id, date, _) => Within(s, date) && HasMilestone(s.milestones, id)
    case ProjectMilestoneRenamed(id, _, _) => HasMilestone(s.milestones, id)
    case _ => true
  }

  lemma DecisionIsAdmissible(s: State, c: Command, at: Millis)
    requires Consistent(s)
    ensures var d := Decide(s, c, at); d.Ok? && d.value.Some? ==> Admissible(s, d.value.value)
    ensures Decide(s, c, at) != Err(Undefined)
  {
    hide UniqueIds, HasMilestone, FindMilestone;
  }

  lemma AdmissibleKeepsConsistent(s: State, e: ProjectEvent)
    requires Consistent(s) && Admissible(s, e)
    ensures Apply(s, e).Ok? && Consistent(Apply(s, e).value)
  {
    var start, target := s.startDate.value, s.targetDate.value;
    match e
    case ProjectMilestoneArchived(id, _) =>
      WithoutKeepsUnique(s.milestones, id);
    case ProjectMilestoneRenamed(id, title, _) =>
      var i := FindMilestone(s.milestones, id);
      ReplaceMilestone(s.milestones, i, s.milestones[i].(name := title), start, target);
    case ProjectMilestoneRescheduled(id, date, _) =>
      var i := FindMilestone(s.milestones, id);
      ReplaceMilestone(s.milestones, i, s.milestones[i].(targetDate := date), start, target);
    case ProjectMilestoneAdded(m, _) =>
      assert UniqueIds(s.milestones + [m]);
    case _ =>
  }

  /** Whatever a command decides can be handled, and keeps the aggregate consistent. */
  lemma CommandKeepsConsistent(s: State, c: Command, at: Millis)
    requires Consistent(s)
    ensures var d := Decide(s, c, at);
            d.Ok? && d.value.Some? ==> Apply(s, d.value.value).Ok? && Consistent(Apply(s, d.value.value).value)
    ensures Decide(s, c, at) != Err(Undefined)
  {
    hide Consistent, Decide, Apply, Admissible;
    DecisionIsAdmissible(s, c, at);
    var d := Decide(s, c, at);
    if d.Ok? && d.value.Some? {
      AdmissibleKeepsConsistent(s, d.value.value);
    }
  }
}
