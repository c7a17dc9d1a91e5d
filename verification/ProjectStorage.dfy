/** What loading and saving a project come to, told by the rows and snapshots that are stored: which rows count, when
    one can be read, when a snapshot is used or deleted, and how each can fail. */
module ProjectStorage {
  import opened Wrappers
  import opened ProjectModel
  import opened EventTables
  import opened RemoteApply
  import opened SyncProtocol
  import opened ProjectHistory
  import opened ProjectSaving

  // Rows

  /** The rows of an aggregate between two versions: all of them, and only them, by ascending version. */
  lemma {:induction false} RowsAre(events: seq<Row>, agg: Agg, lo: nat, hi: nat)
    requires lo > 0 && UniqueVersions(events)
    ensures var rows := RowsBetween(events, agg, lo, hi);
            && (forall r :: r in rows <==> r in events && r.agg == agg && lo <= r.version <= hi)
            && forall i, j :: 0 <= i < j < |rows| ==> rows[i].version < rows[j].version
    decreases hi
  {
    hide UniqueVersions;
    if hi >= lo {
      RowsAre(events, agg, lo, hi - 1);
      var front, rows := RowsBetween(events, agg, lo, hi - 1), RowsBetween(events, agg, lo, hi);
      forall r ensures r in rows <==> r in front || (r in events && r.agg == agg && r.version == hi) {
        if r in events && r.agg == agg && r.version == hi {
          OnlyOccupant(events, r);
        }
      }
    }
  }

  lemma OnlyOccupant(events: seq<Row>, r: Row)
    requires UniqueVersions(events) && r in events
    ensures Occupied(events, r.agg, r.version) && events[OccupantAt(events, r.agg, r.version)] == r
  {
    var i :| 0 <= i < |events| && events[i] == r;
    assert Occupied(events, r.agg, r.version);
  }

  lemma AllRowsAre(t: Tables, id: string)
    requires UniqueVersions(t.events)
    ensures var rows := AllRows(t, id);
            && (forall r :: r in rows <==> r in t.events && r.agg == ProjectAgg(id) && r.version > 0)
            && forall i, j :: 0 <= i < j < |rows| ==> rows[i].version < rows[j].version
  {
    RowsAre(t.events, ProjectAgg(id), 1, MaxVersion(t.events, ProjectAgg(id)));
  }

  // Reading

  /** The row is what sealing this event for it under the key gives. */
  ghost predicate Encloses(r: Row, key: Key, e: ProjectEvent) {
    r.payload == Sealed(key, r.agg, r.version, Plain(r.id, ProjectBody(e)))
  }

  lemma ReadIff(r: Row, key: Key, e: ProjectEvent)
    ensures ReadEvent(r, key) == Ok(e) <==> Encloses(r, key, e)
    ensures ReadEvent(r, key) == Err(DecryptFailed) <==> !exists p :: r.payload == Sealed(key, r.agg, r.version, p)
    ensures ReadEvent(r, key) == Err(IdMismatch) <==>
              exists p :: r.payload == Sealed(key, r.agg, r.version, p) && p.eventId != r.id
    ensures ReadEvent(r, key) == Err(UnknownEvent) <==>
              exists p :: r.payload == Sealed(key, r.agg, r.version, p) && p.eventId == r.id && !p.body.ProjectBody?
  {
    if Open(r.payload, key, r.agg, r.version).Some? {
      assert r.payload == Sealed(key, r.agg, r.version, r.payload.plain);
    }
  }

  lemma {:induction false} ReadAllIff(rows: seq<Row>, key: Key, events: seq<ProjectEvent>)
    ensures ReadAll(rows, key) == Ok(events) <==>
              |events| == |rows| && forall i :: 0 <= i < |rows| ==> Encloses(rows[i], key, events[i])
  {
    hide ReadEvent, Encloses;
    if rows != [] && events != [] {
      var last, n := |rows| - 1, |events| - 1;
      ReadAllIff(rows[..last], key, events[..n]);
      ReadIff(rows[last], key, events[n]);
      assert events == events[..n] + [events[n]];
    }
  }

  /** A full load gives a project exactly when there are rows, a key, and an event behind every row, and the events
      replay to it; nothing exactly when there are no rows. */
  lemma FullLoadIff(t: Tables, keys: Keyring, id: string, l: Loaded)
    ensures LoadFull(t, keys, id) == Ok(None) <==> AllRows(t, id) == []
    ensures LoadFull(t, keys, id) == Err(MissingKey) <==> AllRows(t, id) != [] && id !in keys
    ensures LoadFull(t, keys, id) == Ok(Some(l)) <==>
              && AllRows(t, id) != [] && id in keys && l.version == |AllRows(t, id)|
              && exists events :: HistoryOf(AllRows(t, id), keys[id], events) && Replay(BLANK, events) == Ok(l.state)
  {
    hide RowsBetween, MaxVersion, ReadAll, Replay, AllRows, HistoryOf;
    var rows := AllRows(t, id);
    if rows != [] && id in keys {
      var read := ReadAll(rows, keys[id]);
      NoMissingKey(rows, keys[id]);
      if read.Ok? {
        HistoryIff(rows, keys[id], read.value);
      }
      if events :| HistoryOf(rows, keys[id], events) && Replay(BLANK, events) == Ok(l.state) {
        HistoryIff(rows, keys[id], events);
      }
    }
  }

  ghost predicate HistoryOf(rows: seq<Row>, key: Key, events: seq<ProjectEvent>) {
    |events| == |rows| && forall i :: 0 <= i < |rows| ==> Encloses(rows[i], key, events[i])
  }

  lemma HistoryIff(rows: seq<Row>, key: Key, events: seq<ProjectEvent>)
    ensures HistoryOf(rows, key, events) <==> ReadAll(rows, key) == Ok(events)
  {
    hide Encloses;
    ReadAllIff(rows, key, events);
  }

  lemma {:induction false} NoMissingKey(rows: seq<Row>, key: Key)
    ensures ReadAll(rows, key) != Err(MissingKey)
    ensures ReadAll(rows, key).Err? ==> !ReadAll(rows, key).error.ReplayFailed?
  {
    if rows != [] {
      NoMissingKey(rows[..|rows| - 1], key);
    }
  }

  // Snapshots

  /** A snapshot is used exactly when it is what sealing that state at that version for the project gives. */
  lemma UsableIff(t: Tables, key: Key, id: string, l: Loaded)
    ensures UsableSnapshot(t, key, id) == Some(l) <==> Stores(t, key, id, l)
  {
  }

  ghost predicate HasUsable(t: Tables, key: Key, id: string) {
    exists l: Loaded :: Stores(t, key, id, l)
  }

  predicate Stores(t: Tables, key: Key, id: string, l: Loaded) {
    && ProjectAgg(id) in t.snapshots
    && t.snapshots[ProjectAgg(id)] == Snapshot(l.version, SealedState(key, id, l.version, l.state))
  }

  /** Any other snapshot of the project is deleted on sight; nothing else changes. */
  lemma PurgedIs(t: Tables, key: Key, id: string)
    ensures Purged(t, key, id) == t.(snapshots := Purged(t, key, id).snapshots)
    ensures forall a :: a in Purged(t, key, id).snapshots <==>
              a in t.snapshots && (a != ProjectAgg(id) || HasUsable(t, key, id))
    ensures forall a :: a in Purged(t, key, id).snapshots ==> Purged(t, key, id).snapshots[a] == t.snapshots[a]
  {
    if UsableSnapshot(t, key, id).Some? {
      UsableIff(t, key, id, UsableSnapshot(t, key, id).value);
    }
    if l: Loaded :| Stores(t, key, id, l) {
      UsableIff(t, key, id, l);
    }
  }

  // Saving

  ghost predicate SnapshotAhead(t: Tables, key: Key, id: string) {
    exists l: Loaded ::
      && Stores(t, key, id, l) && l.version > 0
      && forall r :: r in t.events && r.agg == ProjectAgg(id) ==> r.version < l.version
  }

  lemma AheadIff(t: Tables, key: Key, id: string)
    ensures SnapshotAhead(t, key, id) <==>
              UsableSnapshot(t, key, id).Some? && UsableSnapshot(t, key, id).value.version > MaxVersion(t.events, ProjectAgg(id))
  {
    hide UsableSnapshot;
    var top := MaxVersion(t.events, ProjectAgg(id));
    forall l: Loaded ensures UsableSnapshot(t, key, id) == Some(l) <==> Stores(t, key, id, l) {
      UsableIff(t, key, id, l);
    }
    hide Stores;
    if top > 0 {
      var i :| 0 <= i < |t.events| && t.events[i].agg == ProjectAgg(id) && t.events[i].version == top;
      assert t.events[i] in t.events;
    }
  }

  /** How a save with new events ends: a conflict when the project's snapshot is ahead of its rows or an id is taken,
      leaving the tables but for a purge; else the rows go in, followed by the snapshot unless the project lacks a
      mandatory field. */
  lemma SaveEndsIff(t: Tables, key: Key, id: string, plains: seq<Plain>, now: Loaded)
    requires plains != []
    ensures var r := SaveOutcome(t, key, id, plains, now);
            && (r.error == Some(Concurrency) <==> SnapshotAhead(t, key, id) || !FreshIds(t.events, plains))
            && (r.error == Some(Concurrency) ==> r.t == Purged(t, key, id))
            && (r.error == Some(Persistence) <==>
                  !SnapshotAhead(t, key, id) && FreshIds(t.events, plains) && !Persistable(now.state))
            && (r.error != Some(Concurrency) ==> Appends(t, r.t, key, id, plains))
            && (r.error == Some(Persistence) ==> r.t.snapshots == Purged(t, key, id).snapshots)
            && (r.error == None ==> HoldsSnapshot(t, r.t, key, id, now))
            && r.t.syncMap == t.syncMap && r.t.cursor == t.cursor
  {
    hide MaxVersion, FreshIds, UsableSnapshot;
    AheadIff(t, key, id);
    var r, agg := SaveOutcome(t, key, id, plains, now), ProjectAgg(id);
    if r.error == None {
      PurgedIs(t, key, id);
      assert r.t.snapshots == Purged(t, key, id).snapshots[agg := Snapshot(now.version, SealedState(key, id, now.version, now.state))];
      assert r.t.snapshots - {agg} == t.snapshots - {agg};
    }
  }

  /** The new rows come last, numbered from the highest stored version on, each sealed for its place. */
  ghost predicate Appends(before: Tables, after: Tables, key: Key, id: string, plains: seq<Plain>) {
    var n, agg := |before.events|, ProjectAgg(id);
    && |after.events| == n + |plains| && after.events[..n] == before.events
    && forall i :: 0 <= i < |plains| ==>
         var v := MaxVersion(before.events, agg) + 1 + i;
         after.events[n + i] == Row(plains[i].eventId, agg, v, Sealed(key, agg, v, plains[i]))
  }

  /** The project has a usable snapshot of its present state; the others are as they were. */
  ghost predicate HoldsSnapshot(before: Tables, after: Tables, key: Key, id: string, now: Loaded) {
    && Stores(after, key, id, now)
    && after.snapshots - {ProjectAgg(id)} == before.snapshots - {ProjectAgg(id)}
  }

  lemma AppliedIsPersistable(s: State, e: ProjectEvent)
    requires Apply(s, e).Ok? && (e.ProjectCreated? || Persistable(s))
    ensures Persistable(Apply(s, e).value)
  {
  }

  /** Whatever was once created can be saved: in any history that starts with a creation the mandatory fields are set,
      so no save of it ends in a persistence error. */
  lemma {:induction false} CreatedIsPersistable(s: State, events: seq<ProjectEvent>)
    requires events != [] && events[0].ProjectCreated? && Replay(s, events).Ok?
    ensures Persistable(Replay(s, events).value)
  {
    hide Persistable;
    AppliedIsPersistable(s, events[0]);
    StaysPersistable(Apply(s, events[0]).value, events[1..]);
  }

  lemma {:induction false} StaysPersistable(s: State, events: seq<ProjectEvent>)
    requires Persistable(s) && Replay(s, events).Ok?
    ensures Persistable(Replay(s, events).value)
    decreases |events|
  {
    hide Persistable, Apply;
    if events != [] {
      AppliedIsPersistable(s, events[0]);
      StaysPersistable(Apply(s, events[0]).value, events[1..]);
    }
  }
}
