/** Any sequence of saves, pulled pages, acknowledgements and loads on one client: the snapshot stays a cache. */
module ProjectRuns {
  import opened Wrappers
  import opened ProjectModel
  import opened EventTables
  import opened RemoteApply
  import opened Replication
  import opened SyncServer
  import opened Pushing
  import opened SyncProtocol
  import opened ProjectHistory
  import opened ProjectSaving

  datatype Step =
    | SaveProject(id: string, plains: seq<Plain>)
    | ApplyPage(keys: Keyring, page: seq<Incoming>)
    | TakeAssignments(assignments: seq<Assignment>)
    | OpenProject(id: string)

  /** The project once the new events are applied in memory. */
  function Changed(t: Tables, vault: Keyring, id: string, plains: seq<Plain>): Result<State, ProjectError>
    requires LoadFull(t, vault, id).Ok? && AllProject(plains)
  {
    Replay(Found(LoadFull(t, vault, id).value).state, EventsOf(plains))
  }

  /** A save belongs to a load and commands that succeeded, all in one go, and no version is missing. */
  ghost predicate Possible(t: Tables, vault: Keyring, step: Step) {
    match step
    case SaveProject(id, plains) =>
      && id in vault && plains != [] && AllProject(plains) && FreshIds(t.events, plains)
      && LoadFull(t, vault, id).Ok? && Changed(t, vault, id, plains).Ok?
      && Persistable(Changed(t, vault, id, plains).value)
      && Contiguous(t.events, ProjectAgg(id))
    case OpenProject(id) => id in vault
    case _ => true
  }

  ghost function After(t: Tables, vault: Keyring, step: Step): Tables
    requires Possible(t, vault, step)
  {
    match step
    case SaveProject(id, plains) =>
      var p := Found(LoadFull(t, vault, id).value);
      SaveOutcome(t, vault[id], id, plains, Loaded(Changed(t, vault, id, plains).value, p.version + |plains|)).t
    case ApplyPage(keys, page) => ApplyRemote(t, keys, page).t
    case TakeAssignments(assignments) => AssignAll(t, assignments)
    case OpenProject(id) => Purged(t, vault[id], id)
  }

  ghost predicate AllPossible(t: Tables, vault: Keyring, steps: seq<Step>)
    decreases |steps|
  {
    steps == [] || (Possible(t, vault, steps[0]) && AllPossible(After(t, vault, steps[0]), vault, steps[1..]))
  }

  ghost function End(t: Tables, vault: Keyring, steps: seq<Step>): Tables
    requires AllPossible(t, vault, steps)
    decreases |steps|
  {
    if steps == [] then t else End(After(t, vault, steps[0]), vault, steps[1..])
  }

  lemma {:induction false} AssignAllKeepsCache(t: Tables, assignments: seq<Assignment>, vault: Keyring)
    requires CacheOk(t, vault)
    ensures CacheOk(AssignAll(t, assignments), vault)
  {
    hide Covers;
    if assignments != [] {
      var init, a := assignments[..|assignments| - 1], assignments[|assignments| - 1];
      AssignAllKeepsCache(t, init, vault);
      var before, after := AssignAll(t, init), AssignAll(t, assignments);
      forall x, y | x in after.syncMap && y in after.syncMap && after.syncMap[x] == after.syncMap[y] ensures x == y {
        assert x != a.eventId ==> x in before.syncMap && before.syncMap[x] in before.syncMap.Values;
        assert y != a.eventId ==> y in before.syncMap && before.syncMap[y] in before.syncMap.Values;
      }
      forall id | id in vault ensures SnapshotOk(after, vault[id], id) {
        assert SnapshotOk(before, vault[id], id);
      }
    }
  }

  lemma StepKeepsCache(t: Tables, vault: Keyring, step: Step)
    requires CacheOk(t, vault) && Possible(t, vault, step)
    ensures CacheOk(After(t, vault, step), vault)
  {
    hide CacheOk, Contiguous, LoadFull, FreshIds, Persistable, SaveOutcome, ApplyRemote, AssignAll, Purged, Replay;
    match step
    case SaveProject(id, plains) => SaveKeepsCache(t, vault, id, plains, Changed(t, vault, id, plains).value);
    case ApplyPage(keys, page) => RemotePageKeepsCache(t, keys, page, vault);
    case TakeAssignments(assignments) => AssignAllKeepsCache(t, assignments, vault);
    case OpenProject(id) => PurgeKeepsCache(t, vault[id], id, vault);
  }

  lemma {:induction false} RunKeepsCache(t: Tables, vault: Keyring, steps: seq<Step>)
    requires CacheOk(t, vault) && AllPossible(t, vault, steps)
    ensures CacheOk(End(t, vault, steps), vault)
    decreases |steps|
  {
    hide CacheOk, Possible, After;
    if steps != [] {
      StepKeepsCache(t, vault, steps[0]);
      RunKeepsCache(After(t, vault, steps[0]), vault, steps[1..]);
    }
  }

  /** However a client's tables came about, a project loads as the replay of all its stored events. */
  lemma EveryLoadIsReplay(vault: Keyring, steps: seq<Step>, keys: Keyring, id: string)
    requires AllPossible(EMPTY, vault, steps) && KeysFrom(vault, keys)
    ensures Load(End(EMPTY, vault, steps), keys, id) == LoadFull(End(EMPTY, vault, steps), keys, id)
  {
    hide AllPossible, End, Load, LoadFull;
    RunKeepsCache(EMPTY, vault, steps);
    LoadIsReplay(End(EMPTY, vault, steps), keys, id);
  }

  // When a version is missing

  lemma {:induction false} NthOf(log: seq<Row>, agg: Agg, n: nat, v: nat) returns (i: nat)
    requires n <= |log| && 1 <= v <= Count(log, agg, n)
    ensures i < n && log[i].agg == agg && Count(log, agg, i) + 1 == v
  {
    if v == Count(log, agg, n) && log[n - 1].agg == agg { i := n - 1; } else { i := NthOf(log, agg, n - 1, v); }
  }

  lemma {:induction false} NthUnsent(log: seq<Row>, events: seq<Row>, agg: Agg, n: nat, v: nat) returns (j: nat)
    requires n <= |events| && 1 <= v <= Unsent(log, events, agg, n)
    ensures j < n && events[j].agg == agg && !InLog(log, events[j].id) && Unsent(log, events, agg, j) + 1 == v
  {
    if v == Unsent(log, events, agg, n) && events[n - 1].agg == agg && !InLog(log, events[n - 1].id) {
      j := n - 1;
    } else {
      j := NthUnsent(log, events, agg, n - 1, v);
    }
  }

  lemma HeldIsFilled(log: seq<Row>, vault: Keyring, keys: Keyring, t: Tables, mapped: nat, held: nat,
                     base: Agg -> nat, agg: Agg, v: nat)
    requires LogOk(log) && held <= |log| && Follows(log, vault, keys, t, mapped, held, base)
    requires 1 <= v <= Count(log, agg, held)
    ensures Occupied(t.events, agg, v)
  {
    var i := NthOf(log, agg, held, v);
    assert log[i] in t.events;
    var j :| 0 <= j < |t.events| && t.events[j] == log[i];
    assert t.events[j].version == v;
  }

  lemma UnsentIsFilled(log: seq<Row>, vault: Keyring, keys: Keyring, t: Tables, mapped: nat, held: nat,
                       base: Agg -> nat, agg: Agg, v: nat)
    requires Follows(log, vault, keys, t, mapped, held, base)
    requires base(agg) < v <= base(agg) + Unsent(log, t.events, agg, |t.events|)
    ensures Occupied(t.events, agg, v)
  {
    var j := NthUnsent(log, t.events, agg, |t.events|, v - base(agg));
    UnsentVersion(log, vault, keys, t, mapped, held, base, j);
  }

  lemma NothingBetween(log: seq<Row>, vault: Keyring, keys: Keyring, t: Tables, mapped: nat, held: nat,
                       base: Agg -> nat, agg: Agg, v: nat)
    requires LogOk(log) && held <= |log| && Follows(log, vault, keys, t, mapped, held, base)
    requires Count(log, agg, held) < v <= base(agg)
    ensures !Occupied(t.events, agg, v)
  {
    forall j: nat | j < |t.events| && t.events[j].agg == agg ensures t.events[j].version != v {
      if InLog(log, t.events[j].id) {
        HeldVersion(log, vault, keys, t, mapped, held, base, j);
      } else {
        UnsentVersion(log, vault, keys, t, mapped, held, base, j);
      }
    }
  }

  /** A synchronising client misses a version of an aggregate exactly when it has unsent rows of it that a failed
      page has pushed further up than the events received. */
  lemma ContiguousIff(log: seq<Row>, vault: Keyring, keys: Keyring, t: Tables, mapped: nat, held: nat,
                      base: Agg -> nat, agg: Agg)
    requires LogOk(log) && held <= |log| && Follows(log, vault, keys, t, mapped, held, base)
    ensures Contiguous(t.events, agg) <==>
              Unsent(log, t.events, agg, |t.events|) == 0 || base(agg) == Count(log, agg, held)
  {
    hide LogOk, Follows, Occupied, Unsent, Count;
    var unsent, received := Unsent(log, t.events, agg, |t.events|), Count(log, agg, held);
    MaxIsTop(log, vault, keys, t, mapped, held, base, agg);
    BaseAbove(log, vault, keys, t, mapped, held, base, agg);
    if unsent == 0 || base(agg) == received {
      forall v: nat | 1 <= v <= MaxVersion(t.events, agg) ensures Occupied(t.events, agg, v) {
        if v <= received {
          HeldIsFilled(log, vault, keys, t, mapped, held, base, agg, v);
        } else {
          UnsentIsFilled(log, vault, keys, t, mapped, held, base, agg, v);
        }
      }
    } else {
      NothingBetween(log, vault, keys, t, mapped, held, base, agg, received + 1);
    }
  }

  lemma BaseAbove(log: seq<Row>, vault: Keyring, keys: Keyring, t: Tables, mapped: nat, held: nat,
                  base: Agg -> nat, agg: Agg)
    requires held <= |log| && Follows(log, vault, keys, t, mapped, held, base)
    ensures base(agg) >= Count(log, agg, held)
  {
  }

  // Such a client

  const KEYS: Keyring := map["p" := "k"]
  const PROJECT: Agg := Agg("project", "p")

  function Entry(version: nat, id: Id, event: ProjectEvent): Row {
    Row(id, PROJECT, version, Sealed("k", PROJECT, version, Plain(id, ProjectBody(event))))
  }

  const CREATED: ProjectEvent := ProjectCreated("n", Planned, 0, 9, "", None, "u", 0)
  const MILESTONE: Plain := Plain("d", ProjectBody(ProjectMilestoneAdded(Milestone("m", "", 5), 3)))

  /** One event from the server, one pending. */
  const BEFORE: Tables := Tables([Entry(1, "a", CREATED), Entry(2, "b", ProjectRenamed("x", 1))], map["a" := 1], map[], 1)

  /** A remote event of the project, and one of an aggregate whose key has not arrived. */
  const PAGE: seq<Incoming> := [Incoming(2, Entry(2, "c", ProjectRenamed("y", 2))),
                                Incoming(3, Row("e", Agg("project", "q"), 1, Sealed("l", Agg("project", "q"), 1,
                                                Plain("e", OtherBody("")))))]

  const MOVED: Tables := BEFORE.(events := [Entry(1, "a", CREATED), Entry(3, "b", ProjectRenamed("x", 1))])

  lemma FailedPageLeavesGap()
    ensures ApplyRemote(BEFORE, KEYS, PAGE) == Applied(MOVED, Some(MaterializeFailed))
  {
    hide MaxVersion;
    var r := PAGE[0].record;
    var first := Pass(MOVED, [InsertEvent(r), InsertMap("c", 2)], None);
    assert PAGE[..1] == [PAGE[0]] && PAGE[..1][..0] == [];
    assert ApplyEach(BEFORE, KEYS, []) == Pass(BEFORE, [], None);
    assert Occupied(BEFORE.events, PROJECT, 2) by { assert BEFORE.events[1].version == 2; }
    assert OccupantAt(BEFORE.events, PROJECT, 2) == 1;
    assert CanShift(BEFORE, KEYS, PROJECT, 2);
    assert Shift(BEFORE, PROJECT, 2).events == MOVED.events && Shift(BEFORE, PROJECT, 2) == MOVED;
    assert ApplyEach(BEFORE, KEYS, [PAGE[0]]) == first;
    assert !Occupied(MOVED.events, Agg("project", "q"), 1);
    assert ApplyEach(BEFORE, KEYS, PAGE) == first.(error := Some(MaterializeFailed), queue := first.queue);
  }

  lemma MovedHasGap()
    ensures !Contiguous(MOVED.events, PROJECT) && MaxVersion(MOVED.events, PROJECT) == 3
  {
    assert MOVED.events[1].version == 3;
    assert !Occupied(MOVED.events, PROJECT, 2);
  }

  /** After a page that failed halfway, adding a milestone and loading again gives a project other than the one that
      was saved, although every event is stored. */
  lemma GapBreaksSnapshot()
    ensures var t := ApplyRemote(BEFORE, KEYS, PAGE).t;
            && LoadFull(t, KEYS, "p").Ok? && Changed(t, KEYS, "p", [MILESTONE]).Ok?
            && var now := Loaded(Changed(t, KEYS, "p", [MILESTONE]).value, 3);
               var saved := SaveOutcome(t, KEYS["p"], "p", [MILESTONE], now);
               && saved.error == None
               && LoadFull(saved.t, KEYS, "p") == Ok(Some(now)) && Load(saved.t, KEYS, "p") != Ok(Some(now))
  {
    hide ApplyRemote, Occupied;
    FailedPageLeavesGap();
    MovedHasGap();
    MovedHistory();
    var t := MOVED;
    var state := Changed(t, KEYS, "p", [MILESTONE]).value;
    SaveThenLoadIff(t, KEYS, "p", [MILESTONE], state);
  }

  lemma MovedRows()
    ensures AllRows(MOVED, "p") == MOVED.events
  {
    MovedHasGap();
    var e := MOVED.events;
    assert Occupied(e, PROJECT, 1) by { assert e[0].version == 1; }
    assert Occupied(e, PROJECT, 3) by { assert e[1].version == 3; }
    assert !Occupied(e, PROJECT, 2);
    assert RowsBetween(e, PROJECT, 1, 0) == [];
    assert e[OccupantAt(e, PROJECT, 1)] == e[0] && e[OccupantAt(e, PROJECT, 3)] == e[1];
    assert RowsBetween(e, PROJECT, 1, 1) == [e[0]];
    assert RowsBetween(e, PROJECT, 1, 2) == [e[0]];
    assert RowsBetween(e, PROJECT, 1, 3) == [e[0], e[1]];
  }

  lemma MovedEvents()
    ensures ReadAll(MOVED.events, "k") == Ok([CREATED, ProjectRenamed("x", 1)])
  {
    var e := MOVED.events;
    assert ReadAll(e[..0], "k") == Ok([]);
    assert e[..1][..0] == e[..0] && |e[..1]| == 1;
    assert ReadEvent(e[0], "k") == Ok(CREATED) && ReadEvent(e[1], "k") == Ok(ProjectRenamed("x", 1));
    assert ReadAll(e[..1], "k") == Ok([] + [CREATED]);
    assert [CREATED, ProjectRenamed("x", 1)] == [] + [CREATED] + [ProjectRenamed("x", 1)];
  }

  lemma MovedHistory()
    ensures LoadFull(MOVED, KEYS, "p").Ok? && Found(LoadFull(MOVED, KEYS, "p").value).version == 2
    ensures Changed(MOVED, KEYS, "p", [MILESTONE]).Ok? && Persistable(Changed(MOVED, KEYS, "p", [MILESTONE]).value)
  {
    hide AllRows, ReadAll;
    MovedRows();
    MovedEvents();
    var history := [CREATED, ProjectRenamed("x", 1)];
    assert history[1..] == [ProjectRenamed("x", 1)] && history[1..][1..] == [];
    var created := Apply(BLANK, CREATED).value;
    var renamed := Apply(created, ProjectRenamed("x", 1)).value;
    assert Replay(created, history[1..]) == Ok(renamed);
    assert Replay(BLANK, history) == Ok(renamed);
    FullFrom(MOVED, KEYS, "p", MOVED.events, renamed);
    var added := EventsOf([MILESTONE]);
    assert added[1..] == [] && added[0] == MILESTONE.body.event;
    assert Replay(renamed, added) == Ok(Apply(renamed, added[0]).value);
  }
}
