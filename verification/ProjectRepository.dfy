/** The project aggregate and its repository as objects. */
module ProjectRepository {
  import opened Wrappers
  import opened ProjectModel
  import opened EventTables
  import opened LocalStore
  import opened SyncProtocol
  import opened ProjectHistory
  import opened ProjectSaving

  class Project {
    const id: string
    var name: Option<string>
    var status: Option<Status>
    var startDate: Option<LocalDate>
    var targetDate: Option<LocalDate>
    var description: Option<string>
    var goalId: Option<string>
    var milestones: seq<Milestone>
    var createdBy: Option<string>
    var createdAt: Option<Millis>
    var updatedAt: Option<Millis>
    var archivedAt: Option<Millis>
    var uncommitted: seq<Plain>
    var version: nat

    constructor (id: string)
      ensures this.id == id && Now() == Loaded(BLANK, 0) && uncommitted == []
    {
      this.id := id;
      name, status, startDate, targetDate, description, goalId := None, None, None, None, None, None;
      milestones, createdBy, createdAt, updatedAt, archivedAt := [], None, None, None, None;
      uncommitted, version := [], 0;
    }

    function Fields(): State
      reads this
    {
      State(name, status, startDate, targetDate, description, goalId, milestones, createdBy, createdAt, updatedAt,
            archivedAt)
    }

    function Now(): Loaded
      reads this
    {
      Loaded(Fields(), version)
    }

    method Hydrate(s: Loaded)
      modifies this
      ensures Now() == s && uncommitted == old(uncommitted)
    {
      name, status, startDate, targetDate := s.state.name, s.state.status, s.state.startDate, s.state.targetDate;
      description, goalId, milestones := s.state.description, s.state.goalId, s.state.milestones;
      createdBy, createdAt, updatedAt := s.state.createdBy, s.state.createdAt, s.state.updatedAt;
      archivedAt, version := s.state.archivedAt, s.version;
    }

    /** The event handlers. */
    method Handle(e: ProjectEvent) returns (error: Option<ProjectError>)
      modifies this
      ensures version == old(version) && uncommitted == old(uncommitted)
      ensures match Apply(old(Fields()), e)
              case Ok(s) => error == None && Fields() == s
              case Err(x) => error == Some(x) && Fields() == old(Fields())
    {
      error := None;
      match e {
        case ProjectCreated(n, s, start, target, d, g, author, at) =>
          name, status, startDate, targetDate := Some(n), Some(s), Some(start), Some(target);
          description, goalId, createdBy, createdAt := Some(d), g, Some(author), Some(at);
          updatedAt := createdAt;
        case ProjectStatusTransitioned(s, at) => status, updatedAt := Some(s), Some(at);
        case ProjectRescheduled(start, target, at) =>
          startDate, targetDate, updatedAt := Some(start), Some(target), Some(at);
        case ProjectRenamed(n, at) => name, updatedAt := Some(n), Some(at);
        case ProjectDescribed(d, at) => description, updatedAt := Some(d), Some(at);
        case ProjectGoalAdded(g, at) => goalId, updatedAt := Some(g), Some(at);
        case ProjectGoalRemoved(at) => goalId, updatedAt := None, Some(at);
        case ProjectMilestoneAdded(m, at) => milestones, updatedAt := milestones + [m], Some(at);
        case ProjectMilestoneRescheduled(m, date, at) =>
          var i := Find(m);
          if i == |milestones| { return Some(MilestoneNotFound); }
          milestones, updatedAt := milestones[i := milestones[i].(targetDate := date)], Some(at);
        case ProjectMilestoneRenamed(m, title, at) =>
          var i := Find(m);
          if i == |milestones| { return Some(MilestoneNotFound); }
          milestones, updatedAt := milestones[i := milestones[i].(name := title)], Some(at);
        case ProjectMilestoneArchived(m, at) => milestones, updatedAt := WithoutMilestone(milestones, m), Some(at);
        case ProjectArchived(at) => archivedAt, updatedAt := Some(at), Some(at);
      }
    }

    /** The first milestone with the id, or the end of the list. */
    method Find(milestone: string) returns (i: nat)
      ensures i <= |milestones| && (i < |milestones| <==> HasMilestone(milestones, milestone))
      ensures i < |milestones| ==> i == FindMilestone(milestones, milestone)
    {
      i := 0;
      while i < |milestones| && milestones[i].id != milestone
        invariant i <= |milestones| && forall k :: 0 <= k < i ==> milestones[k].id != milestone
      {
        i := i + 1;
      }
      if i < |milestones| {
        assert HasMilestone(milestones, milestone);
      }
    }

    /** A new event: recorded, handled, counted. */
    method ApplyEvent(plain: Plain) returns (error: Option<ProjectError>)
      requires plain.body.ProjectBody?
      modifies this
      ensures uncommitted == old(uncommitted) + [plain]
      ensures match Apply(old(Fields()), plain.body.event)
              case Ok(s) => error == None && Now() == Loaded(s, old(version) + 1)
              case Err(x) => error == Some(x) && Now() == old(Now())
    {
      uncommitted := uncommitted + [plain];
      error := Handle(plain.body.event);
      if error == None {
        version := version + 1;
      }
    }

    method OutOfRange(start: LocalDate, target: LocalDate) returns (some: bool)
      ensures some <==> exists i :: 0 <= i < |milestones| && !(start <= milestones[i].targetDate <= target)
    {
      for i := 0 to |milestones|
        invariant forall k :: 0 <= k < i ==> start <= milestones[k].targetDate <= target
      {
        if !(start <= milestones[i].targetDate <= target) {
          return true;
        }
      }
      return false;
    }

    /** The checks of a command, and the event it results in. */
    method Check(c: Command, at: Millis) returns (r: Result<Option<ProjectEvent>, ProjectError>)
      ensures r == Decide(Fields(), c, at)
    {
      if archivedAt.Some? { return Err(Archived); }
      match c {
        case ChangeName(n) =>
          if name.None? { return Err(Undefined); }
          if name.value == n { return Err(Unchanged); }
          return Ok(Some(ProjectRenamed(n, at)));
        case ChangeDescription(d) =>
          if description.None? { return Err(Undefined); }
          if description.value == d { return Err(Unchanged); }
          return Ok(Some(ProjectDescribed(d, at)));
        case ChangeStatus(s) =>
          if status.None? { return Err(Undefined); }
          if status.value == s { return Err(Unchanged); }
          return Ok(Some(ProjectStatusTransitioned(s, at)));
        case ChangeDates(start, target) =>
          if start > target { return Err(StartAfterTarget); }
          var outside := OutOfRange(start, target);
          if outside { return Err(MilestoneOutOfRange); }
          return Ok(Some(ProjectRescheduled(start, target, at)));
        case AddGoal(g) =>
          if goalId.Some? { return Err(GoalAlreadyLinked); }
          return Ok(Some(ProjectGoalAdded(g, at)));
        case RemoveGoal =>
          if goalId.None? { return Ok(None); }
          return Ok(Some(ProjectGoalRemoved(at)));
        case AddMilestone(m) =>
          var error := CheckRange(m.targetDate);
          if error.Some? { return Err(error.value); }
          var i := Find(m.id);
          if i < |milestones| { return Err(DuplicateMilestone); }
          return Ok(Some(ProjectMilestoneAdded(m, at)));
        case ChangeMilestoneName(m, title) =>
          var i := Find(m);
          if i == |milestones| { return Err(MilestoneNotFound); }
          if milestones[i].name == title { return Err(Unchanged); }
          return Ok(Some(ProjectMilestoneRenamed(m, title, at)));
        case ChangeMilestoneTargetDate(m, date) =>
          var error := CheckRange(date);
          if error.Some? { return Err(error.value); }
          var i := Find(m);
          if i == |milestones| { return Err(MilestoneNotFound); }
          if milestones[i].targetDate == date { return Err(Unchanged); }
          return Ok(Some(ProjectMilestoneRescheduled(m, date, at)));
        case ArchiveMilestone(m) =>
          var i := Find(m);
          if i == |milestones| { return Err(MilestoneNotFound); }
          return Ok(Some(ProjectMilestoneArchived(m, at)));
        case Archive => return Ok(Some(ProjectArchived(at)));
      }
    }

    method CheckRange(date: LocalDate) returns (error: Option<ProjectError>)
      ensures error == if startDate.None? || targetDate.None? then Some(Undefined)
                       else if !Within(Fields(), date) then Some(MilestoneOutOfRange) else None
    {
      if startDate.None? || targetDate.None? { return Some(Undefined); }
      return if startDate.value <= date <= targetDate.value then None else Some(MilestoneOutOfRange);
    }

    /** A command on a consistent project either changes nothing or records one event, and the project stays
        consistent: its dates in order, its milestones unique and within them. */
    method Execute(c: Command, at: Millis, eventId: Id) returns (error: Option<ProjectError>)
      requires Consistent(Fields())
      modifies this
      ensures Consistent(Fields())
      ensures match Decide(old(Fields()), c, at)
              case Err(x) => error == Some(x) && Now() == old(Now()) && uncommitted == old(uncommitted)
              case Ok(None) => error == None && Now() == old(Now()) && uncommitted == old(uncommitted)
              case Ok(Some(e)) => error == None && Apply(old(Fields()), e) == Ok(Fields())
                                  && version == old(version) + 1
                                  && uncommitted == old(uncommitted) + [Plain(eventId, ProjectBody(e))]
    {
      hide Consistent, Decide, Apply;
      var decision := Check(c, at);
      CommandKeepsConsistent(Fields(), c, at);
      match decision {
        case Err(x) => return Some(x);
        case Ok(None) => return None;
        case Ok(Some(e)) => error := ApplyEvent(Plain(eventId, ProjectBody(e)));
      }
    }

    method LoadFromHistory(events: seq<ProjectEvent>) returns (error: Option<ProjectError>)
      modifies this
      ensures uncommitted == old(uncommitted)
      ensures match Replay(old(Fields()), events)
              case Ok(s) => error == None && Now() == Loaded(s, old(version) + |events|)
              case Err(x) => error == Some(x)
    {
      hide Apply;
      ghost var start := Fields();
      for k := 0 to |events|
        invariant uncommitted == old(uncommitted) && version == old(version) + k
        invariant Replay(start, events) == Replay(Fields(), events[k..])
      {
        assert events[k..][1..] == events[k + 1..];
        error := Handle(events[k]);
        if error.Some? {
          return;
        }
        version := version + 1;
      }
      return None;
    }

    method MarkEventsAsCommitted()
      modifies this
      ensures Now() == old(Now()) && uncommitted == []
    {
      uncommitted := [];
    }
  }

  class Repository {
    const store: Store
    const keys: Keyring

    constructor (store: Store, keys: Keyring)
      ensures this.store == store && this.keys == keys
    {
      this.store, this.keys := store, keys;
    }

    ghost predicate Ready()
      reads this, store
    {
      store.Valid() && store.savepoint == None
    }

    /** A snapshot that does not open is deleted and ignored. */
    method LoadSnapshot(id: string, key: Key) returns (s: Option<Loaded>)
      requires Ready()
      modifies store
      ensures Ready() && store.View() == Purged(old(store.View()), key, id)
      ensures s == UsableSnapshot(old(store.View()), key, id)
    {
      if ProjectAgg(id) !in store.snapshots {
        assert store.snapshots - {ProjectAgg(id)} == store.snapshots;
        return None;
      }
      s := OpenState(store.snapshots[ProjectAgg(id)], key, id);
      if s.None? {
        store.DeleteSnapshot(ProjectAgg(id));
      }
    }

    /** Decrypting the rows one by one, each with the aggregate's key. */
    method ReadRows(rows: seq<Row>, id: string) returns (r: Result<seq<ProjectEvent>, LoadError>)
      ensures rows == [] ==> r == Ok([])
      ensures rows != [] ==> r == if id in keys then ReadAll(rows, keys[id]) else Err(MissingKey)
    {
      hide ReadEvent;
      var events := [];
      for k := 0 to |rows|
        invariant if k == 0 then events == [] else id in keys
        invariant id in keys ==> ReadAll(rows[..k], keys[id]) == Ok(events)
      {
        if id !in keys {
          return Err(MissingKey);
        }
        assert rows[..k + 1][..k] == rows[..k];
        var event := ReadEvent(rows[k], keys[id]);
        if event.Err? {
          UnreadableRow(rows, k, keys[id]);
          return Err(event.error);
        }
        events := events + [event.value];
      }
      assert rows[..|rows|] == rows;
      return Ok(events);
    }

    method Load(id: string) returns (r: Result<Option<Project>, LoadError>)
      requires Ready()
      modifies store
      ensures Ready()
      ensures store.View() == if id in keys then Purged(old(store.View()), keys[id], id) else old(store.View())
      ensures match ProjectHistory.Load(old(store.View()), keys, id)
              case Err(e) => r == Err(e)
              case Ok(None) => r == Ok(None)
              case Ok(Some(p)) => r.Ok? && r.value.Some? && fresh(r.value.value)
                                  && r.value.value.Now() == p && r.value.value.uncommitted == [] && r.value.value.id == id
    {
      hide ReadAll, Replay, RowsBetween, MaxVersion, Resume, ProjectHistory.Load, UniqueEventIds, UniqueVersions,
           UniqueSequences;
      ghost var before := store.View();
      var snapshot: Option<Loaded> := None;
      if id in keys {
        snapshot := LoadSnapshot(id, keys[id]);
      }
      var from := if snapshot.Some? then snapshot.value.version + 1 else 1;
      var top := MaxVersion(store.events, ProjectAgg(id));
      var rows := RowsBetween(store.events, ProjectAgg(id), from, top);
      LoadCases(before, keys, id, snapshot);
      if snapshot.None? && rows == [] {
        return Ok(None);
      }
      var tail := ReadRows(rows, id);
      ResumeCases(if snapshot.Some? then snapshot.value else Loaded(BLANK, 0), rows, keys, id, tail);
      if tail.Err? {
        return Err(tail.error);
      }
      var project := new Project(id);
      if snapshot.Some? {
        project.Hydrate(snapshot.value);
      }
      var error := project.LoadFromHistory(tail.value);
      if error.Some? {
        return Err(ReplayFailed(error.value));
      }
      project.MarkEventsAsCommitted();
      return Ok(Some(project));
    }

    method Save(project: Project, key: Key) returns (error: Option<SaveError>)
      requires Ready()
      modifies store, project
      ensures Ready() && project.Now() == old(project.Now())
      ensures Saved(store.View(), error) ==
                SaveOutcome(old(store.View()), key, project.id, old(project.uncommitted), old(project.Now()))
      ensures project.uncommitted == if error == None then [] else old(project.uncommitted)
    {
      hide MaxVersion, UniqueEventIds, UniqueVersions, UniqueSequences, OpenState, HasId;
      var plains := project.uncommitted;
      if plains == [] {
        return None;
      }
      var agg := ProjectAgg(project.id);
      var snapshot := LoadSnapshot(project.id, key);
      var top := MaxVersion(store.events, agg);
      var from := if snapshot.Some? && snapshot.value.version > top then snapshot.value.version else top;
      var rows := NewRows(key, agg, from + 1, plains);
      var ok := store.AppendRows(agg, rows);
      assert rows[0].version == from + 1;
      if !ok {
        return Some(Concurrency);
      }
      if !Persistable(project.Fields()) {
        return Some(Persistence);
      }
      store.PutSnapshot(agg, Snapshot(project.version,
                                      SealedState(key, project.id, project.version, project.Fields())));
      project.MarkEventsAsCommitted();
      return None;
    }
  }

  lemma LoadCases(t: Tables, keys: Keyring, id: string, snapshot: Option<Loaded>)
    requires snapshot == if id in keys then UsableSnapshot(t, keys[id], id) else None
    ensures var from := if snapshot.Some? then snapshot.value.version + 1 else 1;
            var rows := RowsBetween(t.events, ProjectAgg(id), from, MaxVersion(t.events, ProjectAgg(id)));
            Load(t, keys, id) == if snapshot.None? && rows == [] then Ok(None)
                                 else Resume(if snapshot.Some? then snapshot.value else Loaded(BLANK, 0), rows, keys, id)
  {
    hide RowsBetween, MaxVersion, Resume;
  }

  lemma ResumeCases(start: Loaded, rows: seq<Row>, keys: Keyring, id: string,
                    tail: Result<seq<ProjectEvent>, LoadError>)
    requires rows == [] ==> tail == Ok([])
    requires rows != [] ==> tail == if id in keys then ReadAll(rows, keys[id]) else Err(MissingKey)
    ensures Resume(start, rows, keys, id) ==
              match tail
              case Err(e) => Err(e)
              case Ok(events) =>
                match Replay(start.state, events)
                case Ok(s) => Ok(Some(Loaded(s, start.version + |events|)))
                case Err(e) => Err(ReplayFailed(e))
  {
    hide ReadAll;
  }

  lemma {:induction false} UnreadableRow(rows: seq<Row>, k: nat, key: Key)
    requires k < |rows| && ReadAll(rows[..k], key).Ok? && ReadEvent(rows[k], key).Err?
    ensures ReadAll(rows, key) == Err(ReadEvent(rows[k], key).error)
    decreases |rows|
  {
    if k == |rows| - 1 {
    } else {
      var init := rows[..|rows| - 1];
      assert init[..k] == rows[..k];
      UnreadableRow(init, k, key);
    }
  }
}
