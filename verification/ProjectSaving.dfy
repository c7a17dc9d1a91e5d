/** Saving a project: the new events above the highest stored version, and the snapshot at the project's own
    version.  The two agree exactly when no version is missing. */
module ProjectSaving {
  import opened Wrappers
  import opened ProjectModel
  import opened EventTables
  import opened RemoteApply
  import opened Replication
  import opened SyncEngine
  import opened SyncProtocol
  import opened ProjectHistory

  datatype SaveError = Concurrency | Persistence

  datatype Saved = Saved(t: Tables, error: Option<SaveError>)

  predicate AllProject(plains: seq<Plain>) {
    forall i :: 0 <= i < |plains| ==> plains[i].body.ProjectBody?
  }

  function EventsOf(plains: seq<Plain>): (r: seq<ProjectEvent>)
    requires AllProject(plains)
    ensures |r| == |plains| && forall i :: 0 <= i < |r| ==> r[i] == plains[i].body.event
  {
    seq(|plains|, i requires 0 <= i < |plains| => plains[i].body.event)
  }

  /** The event ids are distinct and none is stored yet. */
  predicate FreshIds(events: seq<Row>, plains: seq<Plain>) {
    && (forall i, j :: 0 <= i < j < |plains| ==> plains[i].eventId != plains[j].eventId)
    && forall i :: 0 <= i < |plains| ==> !HasId(events, plains[i].eventId)
  }

  /** A snapshot can be written only of a project whose mandatory fields are set. */
  predicate Persistable(s: State) {
    && s.name.Some? && s.status.Some? && s.startDate.Some? && s.targetDate.Some? && s.description.Some?
    && s.createdBy.Some? && s.createdAt.Some? && s.updatedAt.Some?
  }

  function SaveOutcome(t: Tables, key: Key, id: string, plains: seq<Plain>, now: Loaded): Saved {
    if plains == [] then Saved(t, None) else
      var agg, snapshot := ProjectAgg(id), UsableSnapshot(t, key, id);
      var clean, top := Purged(t, key, id), MaxVersion(t.events, agg);
      if (snapshot.Some? && snapshot.value.version > top) || !FreshIds(t.events, plains)
      then Saved(clean, Some(Concurrency))
      else
        var appended := clean.(events := t.events + NewRows(key, agg, top + 1, plains));
        if !Persistable(now.state) then Saved(appended, Some(Persistence))
        else Saved(appended.(snapshots := clean.snapshots[agg :=
                     Snapshot(now.version, SealedState(key, id, now.version, now.state))]), None)
  }

  /** A save is the local append of the sync protocol. */
  lemma SaveIsAppend(t: Tables, keys: Keyring, head: Option<nat>, id: string, plains: seq<Plain>, now: Loaded)
    requires id in keys && plains != [] && SaveOutcome(t, keys[id], id, plains, now).error == None
    ensures var saved, appended := SaveOutcome(t, keys[id], id, plains, now).t,
                                   AppendRows(Client(t, keys, head), ProjectAgg(id), plains).t;
            saved == appended.(snapshots := saved.snapshots)
            && forall a :: a in t.snapshots && a != ProjectAgg(id) ==> a in saved.snapshots && saved.snapshots[a] == t.snapshots[a]
  {
  }

  // The rows after a save

  lemma {:induction false} AppendedRows(events: seq<Row>, rows: seq<Row>, agg: Agg, v: nat)
    requires forall i :: 0 <= i < |rows| ==> !(rows[i].agg == agg && rows[i].version == v)
    ensures SameRow(events, events + rows, agg, v)
  {
    hide Occupied, OccupantAt;
    if rows == [] {
      assert events + rows == events;
    } else {
      var last := |rows| - 1;
      AppendedRows(events, rows[..last], agg, v);
      AppendedRow(events + rows[..last], rows[last], agg, v);
      assert events + rows == events + rows[..last] + [rows[last]];
    }
  }

  lemma NewRowsUnique(events: seq<Row>, key: Key, agg: Agg, plains: seq<Plain>)
    requires UniqueEventIds(events) && UniqueVersions(events) && FreshIds(events, plains)
    ensures var after := events + NewRows(key, agg, MaxVersion(events, agg) + 1, plains);
            UniqueEventIds(after) && UniqueVersions(after)
  {
    var rows := NewRows(key, agg, MaxVersion(events, agg) + 1, plains);
    forall i | 0 <= i < |rows| ensures !HasId(events, rows[i].id) {
    }
    AppendUnique(events, rows);
  }

  ghost predicate OnTop(rows: seq<Row>, agg: Agg, top: nat) {
    forall i :: 0 <= i < |rows| ==> rows[i].agg == agg && rows[i].version == top + 1 + i
  }

  lemma RowsOnTop(events: seq<Row>, rows: seq<Row>, agg: Agg, top: nat)
    requires UniqueVersions(events + rows) && top == MaxVersion(events, agg) && OnTop(rows, agg, top)
    ensures MaxVersion(events + rows, agg) == top + |rows|
    ensures RowsBetween(events + rows, agg, 1, top) == RowsBetween(events, agg, 1, top)
    ensures RowsBetween(events + rows, agg, top + 1, top + |rows|) == rows
    ensures Filled(events + rows, agg, top) <==> Filled(events, agg, top)
  {
    hide Occupied, RowsBetween, MaxVersion, SameRow, Filled, UniqueVersions, OnTop;
    NewTop(events, rows, agg, top);
    forall v: nat | v <= top ensures SameRow(events, events + rows, agg, v) {
      BelowNewRows(events, rows, agg, top, v);
    }
    SameRowsBetween(events, events + rows, agg, 1, top);
    SameFilled(events, events + rows, agg, top);
    NewRowsBetween(events, rows, agg, top, |rows|);
    assert rows[..|rows|] == rows;
  }

  lemma BelowNewRows(events: seq<Row>, rows: seq<Row>, agg: Agg, top: nat, v: nat)
    requires OnTop(rows, agg, top) && v <= top
    ensures SameRow(events, events + rows, agg, v)
  {
    hide SameRow;
    AppendedRows(events, rows, agg, v);
  }

  lemma SameFilled(a: seq<Row>, b: seq<Row>, agg: Agg, n: nat)
    requires forall v: nat :: v <= n ==> SameRow(a, b, agg, v)
    ensures Filled(a, agg, n) <==> Filled(b, agg, n)
  {
    hide Occupied, OccupantAt;
    forall v: nat | v <= n ensures Occupied(a, agg, v) <==> Occupied(b, agg, v) {
      assert SameRow(a, b, agg, v);
    }
  }

  lemma NewTop(events: seq<Row>, rows: seq<Row>, agg: Agg, top: nat)
    requires top == MaxVersion(events, agg)
    requires OnTop(rows, agg, top)
    ensures MaxVersion(events + rows, agg) == top + |rows|
  {
    if rows == [] {
      assert events + rows == events;
    } else {
      var last := |rows| - 1;
      NewTop(events, rows[..last], agg, top);
      assert (events + rows)[..|events + rows| - 1] == events + rows[..last];
    }
  }

  lemma {:induction false} NewRowsBetween(events: seq<Row>, rows: seq<Row>, agg: Agg, top: nat, n: nat)
    requires UniqueVersions(events + rows) && n <= |rows|
    requires OnTop(rows, agg, top)
    ensures RowsBetween(events + rows, agg, top + 1, top + n) == rows[..n]
  {
    hide Occupied, OccupantAt, UniqueVersions;
    if n > 0 {
      NewRowsBetween(events, rows, agg, top, n - 1);
      assert (events + rows)[|events| + n - 1] == rows[n - 1];
      OnlyOccupant(events + rows, |events| + n - 1);
    }
  }

  lemma {:induction false} NewRowsRead(key: Key, agg: Agg, start: nat, plains: seq<Plain>, n: nat)
    requires AllProject(plains) && n <= |plains|
    ensures ReadAll(NewRows(key, agg, start, plains)[..n], key) == Ok(EventsOf(plains)[..n])
  {
    var rows, events := NewRows(key, agg, start, plains), EventsOf(plains);
    if n > 0 {
      NewRowsRead(key, agg, start, plains, n - 1);
      assert rows[..n][..n - 1] == rows[..n - 1] && events[..n] == events[..n - 1] + [events[n - 1]];
    }
  }

  /** Missing versions are exactly what makes the number of rows smaller than the highest version. */
  lemma GapBelow(events: seq<Row>, agg: Agg)
    requires !Contiguous(events, agg)
    ensures |RowsBetween(events, agg, 1, MaxVersion(events, agg))| < MaxVersion(events, agg)
  {
    RowsFillIff(events, agg, MaxVersion(events, agg));
  }

  // Load, change, save, load again

  /** The project a command starts from: the stored one, or a blank one when nothing is stored. */
  function Found(r: Option<Loaded>): Loaded {
    match r
    case None => Loaded(BLANK, 0)
    case Some(p) => p
  }

  /** What the replay of all stored events says of the rows. */
  lemma FullFacts(t: Tables, keys: Keyring, id: string)
    requires id in keys && LoadFull(t, keys, id).Ok?
    ensures var history := ReadAll(AllRows(t, id), keys[id]);
            && history.Ok? && Replay(BLANK, history.value) == Ok(Found(LoadFull(t, keys, id).value).state)
            && Found(LoadFull(t, keys, id).value).version == |AllRows(t, id)|
  {
    hide RowsBetween, MaxVersion;
  }

  /** A project that is loaded, changed by some events and saved, in one go: everything is stored, and its replay is
      the project as it was in memory.  But the snapshot counts events while the rows carry versions, so loading
      again through the snapshot gives that project exactly when no version was missing. */
  lemma SaveThenLoadIff(t: Tables, keys: Keyring, id: string, plains: seq<Plain>, state: State)
    requires SchemaHolds(t) && id in keys && SnapshotOk(t, keys[id], id)
    requires plains != [] && AllProject(plains) && FreshIds(t.events, plains) && Persistable(state)
    requires LoadFull(t, keys, id).Ok?
             && Replay(Found(LoadFull(t, keys, id).value).state, EventsOf(plains)) == Ok(state)
    ensures var now := Loaded(state, Found(LoadFull(t, keys, id).value).version + |plains|);
            var saved := SaveOutcome(t, keys[id], id, plains, now);
            && saved.error == None && SchemaHolds(saved.t)
            && LoadFull(saved.t, keys, id) == Ok(Some(now))
            && (Load(saved.t, keys, id) == Ok(Some(now)) <==> Contiguous(t.events, ProjectAgg(id)))
            && (Contiguous(t.events, ProjectAgg(id)) ==>
                  SnapshotOk(saved.t, keys[id], id) && Contiguous(saved.t.events, ProjectAgg(id)))
  {
    hide Occupied, ReadAll, Replay, RowsBetween, MaxVersion, UniqueEventIds, UniqueVersions, Covers, FreshIds, Filled,
         Persistable, LoadFull, Found;
    var agg, key, p := ProjectAgg(id), keys[id], Found(LoadFull(t, keys, id).value);
    var top := MaxVersion(t.events, agg);
    var rows := NewRows(key, agg, top + 1, plains);
    var now := Loaded(state, p.version + |plains|);
    if UsableSnapshot(t, key, id).Some? {
      ResumeIsReplay(t, keys, id, UsableSnapshot(t, key, id).value);
    }
    var saved := SaveOutcome(t, key, id, plains, now);
    assert saved.error == None && saved.t.events == t.events + rows;
    NewRowsUnique(t.events, key, agg, plains);
    RowsOnTop(t.events, rows, agg, top);
    NewRowsRead(key, agg, top + 1, plains, |plains|);
    assert rows[..|plains|] == rows && EventsOf(plains)[..|plains|] == EventsOf(plains);
    RowsAfter(saved.t.events, agg, RowsBetween(t.events, agg, 1, top), rows, top);
    AfterSave(t, saved.t, keys, id, RowsBetween(t.events, agg, 1, top), rows, EventsOf(plains), state);
    if Contiguous(t.events, agg) {
      FilledAfter(t.events, rows, agg, top);
      RowsFillIff(t.events, agg, top);
      FullFacts(t, keys, id);
      CoversAll(saved.t, keys, id, now);
      LoadIsReplay(saved.t, keys, id);
    } else {
      GapBelow(t.events, agg);
      FullFacts(t, keys, id);
      TooManyRows(saved.t, keys, id, now, top + |plains|);
    }
  }

  lemma FilledAfter(events: seq<Row>, rows: seq<Row>, agg: Agg, top: nat)
    requires Filled(events + rows, agg, top) && top == MaxVersion(events, agg)
    requires OnTop(rows, agg, top)
    ensures Filled(events + rows, agg, top + |rows|)
  {
    hide MaxVersion;
    forall v: nat | 1 <= v <= top + |rows| ensures Occupied(events + rows, agg, v) {
      if v > top {
        assert (events + rows)[|events| + v - top - 1] == rows[v - top - 1];
      }
    }
  }

  lemma AfterSave(t: Tables, after: Tables, keys: Keyring, id: string, stored: seq<Row>, rows: seq<Row>,
                  events: seq<ProjectEvent>, state: State)
    requires id in keys && LoadFull(t, keys, id).Ok? && rows != [] && ReadAll(rows, keys[id]) == Ok(events)
    requires Replay(Found(LoadFull(t, keys, id).value).state, events) == Ok(state)
    requires AllRows(t, id) == stored && AllRows(after, id) == stored + rows
    ensures LoadFull(after, keys, id) == Ok(Some(Loaded(state, Found(LoadFull(t, keys, id).value).version + |rows|)))
  {
    hide ReadAll, Replay, LoadFull, Found, AllRows;
    FullFacts(t, keys, id);
    ReadAllConcat(stored, rows, keys[id]);
    ReplaySplit(BLANK, ReadAll(stored, keys[id]).value, events);
    FullFrom(after, keys, id, stored + rows, state);
  }

  lemma RowsAfter(events: seq<Row>, agg: Agg, stored: seq<Row>, rows: seq<Row>, top: nat)
    requires RowsBetween(events, agg, 1, top) == stored
    requires RowsBetween(events, agg, top + 1, top + |rows|) == rows
    ensures RowsBetween(events, agg, 1, top + |rows|) == stored + rows
  {
    hide RowsBetween, Occupied;
    RowsSplit(events, agg, 1, top, top + |rows|);
  }

  lemma FullFrom(t: Tables, keys: Keyring, id: string, rows: seq<Row>, state: State)
    requires id in keys && rows == AllRows(t, id) != []
    requires ReadAll(rows, keys[id]).Ok? && Replay(BLANK, ReadAll(rows, keys[id]).value) == Ok(state)
    ensures LoadFull(t, keys, id) == Ok(Some(Loaded(state, |rows|)))
  {
  }

  lemma CoversAll(t: Tables, keys: Keyring, id: string, now: Loaded)
    requires id in keys && LoadFull(t, keys, id) == Ok(Some(now))
    requires now.version == MaxVersion(t.events, ProjectAgg(id)) >= 1
    requires Filled(t.events, ProjectAgg(id), now.version)
    requires UsableSnapshot(t, keys[id], id) == Some(now)
    ensures SnapshotOk(t, keys[id], id)
  {
    hide RowsBetween, MaxVersion, Filled, ReadAll, Replay;
    FullFacts(t, keys, id);
  }

  /** A snapshot at a version below the highest row counts that row twice. */
  lemma TooManyRows(t: Tables, keys: Keyring, id: string, now: Loaded, top: nat)
    requires id in keys && UsableSnapshot(t, keys[id], id) == Some(now)
    requires top == MaxVersion(t.events, ProjectAgg(id)) && now.version < top
    ensures Load(t, keys, id) != Ok(Some(now))
  {
    hide RowsBetween, ReadAll, Replay, Occupied;
    var rows := RowsBetween(t.events, ProjectAgg(id), now.version + 1, top);
    TopRow(t.events, ProjectAgg(id), now.version + 1, top);
  }

  lemma TopRow(events: seq<Row>, agg: Agg, lo: nat, hi: nat)
    requires 0 < lo <= hi == MaxVersion(events, agg)
    ensures RowsBetween(events, agg, lo, hi) != []
  {
  }

  lemma SaveKeepsCache(t: Tables, vault: Keyring, id: string, plains: seq<Plain>, state: State)
    requires CacheOk(t, vault) && id in vault && Contiguous(t.events, ProjectAgg(id))
    requires plains != [] && AllProject(plains) && FreshIds(t.events, plains) && Persistable(state)
    requires LoadFull(t, vault, id).Ok?
             && Replay(Found(LoadFull(t, vault, id).value).state, EventsOf(plains)) == Ok(state)
    ensures var now := Loaded(state, Found(LoadFull(t, vault, id).value).version + |plains|);
            CacheOk(SaveOutcome(t, vault[id], id, plains, now).t, vault)
  {
    hide Covers, Contiguous, LoadFull, Load, Replay, Found, FreshIds, UniqueEventIds, UniqueVersions, UniqueSequences, MaxVersion, SameRow;
    assert SnapshotOk(t, vault[id], id);
    SaveThenLoadIff(t, vault, id, plains, state);
    var now := Loaded(state, Found(LoadFull(t, vault, id).value).version + |plains|);
    var saved := SaveOutcome(t, vault[id], id, plains, now).t;
    var rows := NewRows(vault[id], ProjectAgg(id), MaxVersion(t.events, ProjectAgg(id)) + 1, plains);
    forall i | i in vault ensures SnapshotOk(saved, vault[i], i) {
      assert SnapshotOk(t, vault[i], i);
      if i != id && UsableSnapshot(saved, vault[i], i).Some? {
        forall v: nat ensures SameRow(t.events, saved.events, ProjectAgg(i), v) {
          AppendedRows(t.events, rows, ProjectAgg(i), v);
        }
        CoversKept(t.events, saved.events, vault[i], i, UsableSnapshot(t, vault[i], i).value);
      }
    }
  }
}
