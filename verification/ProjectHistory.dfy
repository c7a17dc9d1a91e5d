/** Loading a project from the event table, with and without its snapshot, and what each writer of the tables does
    to that agreement. */
module ProjectHistory {
  import opened Wrappers
  import opened ProjectModel
  import opened EventTables
  import opened RemoteApply
  import opened Replication
  import opened SyncProtocol

  datatype LoadError = MissingKey | DecryptFailed | IdMismatch | UnknownEvent | ReplayFailed(error: ProjectError)

  /** A project as loaded; the version counts the events behind it. */
  datatype Loaded = Loaded(state: State, version: nat)

  function ProjectAgg(id: string): Agg { Agg("project", id) }

  /** SELECT ... WHERE version BETWEEN lo AND hi ORDER BY version. */
  function RowsBetween(events: seq<Row>, agg: Agg, lo: nat, hi: nat): (r: seq<Row>)
    requires lo > 0
    ensures |r| <= hi
  {
    if hi < lo then [] else
      RowsBetween(events, agg, lo, hi - 1) + if Occupied(events, agg, hi) then [events[OccupantAt(events, agg, hi)]] else []
  }

  function ReadEvent(r: Row, key: Key): Result<ProjectEvent, LoadError> {
    match Open(r.payload, key, r.agg, r.version)
    case None => Err(DecryptFailed)
    case Some(plain) =>
      if plain.eventId != r.id then Err(IdMismatch)
      else if plain.body.ProjectBody? then Ok(plain.body.event) else Err(UnknownEvent)
  }

  /** Row by row; the first that cannot be read is the error. */
  function ReadAll(rows: seq<Row>, key: Key): (r: Result<seq<ProjectEvent>, LoadError>)
    ensures r.Ok? ==> |r.value| == |rows|
  {
    if rows == [] then Ok([]) else
      match ReadAll(rows[..|rows| - 1], key)
      case Err(e) => Err(e)
      case Ok(front) =>
        match ReadEvent(rows[|rows| - 1], key)
        case Err(e) => Err(e)
        case Ok(event) => Ok(front + [event])
  }

  /** The start carried forward by the events of the rows. */
  function Resume(start: Loaded, rows: seq<Row>, keys: Keyring, id: string): Result<Option<Loaded>, LoadError> {
    if rows == [] then Ok(Some(start))
    else if id !in keys then Err(MissingKey)
    else
      match ReadAll(rows, keys[id])
      case Err(e) => Err(e)
      case Ok(events) =>
        match Replay(start.state, events)
        case Ok(state) => Ok(Some(Loaded(state, start.version + |rows|)))
        case Err(e) => Err(ReplayFailed(e))
  }

  function AllRows(t: Tables, id: string): seq<Row> {
    RowsBetween(t.events, ProjectAgg(id), 1, MaxVersion(t.events, ProjectAgg(id)))
  }

  /** The meaning of a project: the replay of all its stored events in version order. */
  function LoadFull(t: Tables, keys: Keyring, id: string): Result<Option<Loaded>, LoadError> {
    var rows := AllRows(t, id);
    if rows == [] then Ok(None) else Resume(Loaded(BLANK, 0), rows, keys, id)
  }

  function OpenState(s: Snapshot, key: Key, id: string): Option<Loaded> {
    if s.cipher.key == key && s.cipher.aggId == id && s.cipher.version == s.version
    then Some(Loaded(s.cipher.state, s.version)) else None
  }

  function UsableSnapshot(t: Tables, key: Key, id: string): Option<Loaded> {
    if ProjectAgg(id) in t.snapshots then OpenState(t.snapshots[ProjectAgg(id)], key, id) else None
  }

  /** A snapshot that does not open is deleted. */
  function Purged(t: Tables, key: Key, id: string): Tables {
    if UsableSnapshot(t, key, id).None? then t.(snapshots := t.snapshots - {ProjectAgg(id)}) else t
  }

  /** What the repository's load returns: the snapshot, when there is a usable one, and the rows after it. */
  function Load(t: Tables, keys: Keyring, id: string): Result<Option<Loaded>, LoadError> {
    var snapshot := if id in keys then UsableSnapshot(t, keys[id], id) else None;
    if snapshot.None? then LoadFull(t, keys, id)
    else
      var top := MaxVersion(t.events, ProjectAgg(id));
      Resume(snapshot.value, RowsBetween(t.events, ProjectAgg(id), snapshot.value.version + 1, top), keys, id)
  }

  // Rows by version

  ghost predicate Filled(events: seq<Row>, agg: Agg, n: nat) {
    forall v: nat :: 1 <= v <= n ==> Occupied(events, agg, v)
  }

  /** No version is missing below the highest. */
  ghost predicate Contiguous(events: seq<Row>, agg: Agg) {
    Filled(events, agg, MaxVersion(events, agg))
  }

  lemma {:induction false} RowsSplit(events: seq<Row>, agg: Agg, lo: nat, mid: nat, hi: nat)
    requires 0 < lo && lo <= mid + 1 && mid <= hi
    ensures RowsBetween(events, agg, lo, hi) == RowsBetween(events, agg, lo, mid) + RowsBetween(events, agg, mid + 1, hi)
    decreases hi
  {
    hide Occupied, OccupantAt;
    if mid < hi {
      RowsSplit(events, agg, lo, mid, hi - 1);
    }
  }

  /** As many rows as versions exactly when every version has one. */
  lemma {:induction false} RowsFillIff(events: seq<Row>, agg: Agg, n: nat)
    ensures |RowsBetween(events, agg, 1, n)| == n <==> Filled(events, agg, n)
  {
    hide Occupied, OccupantAt;
    if n > 0 {
      RowsFillIff(events, agg, n - 1);
    }
  }

  ghost predicate SameRow(a: seq<Row>, b: seq<Row>, agg: Agg, v: nat) {
    && (Occupied(a, agg, v) <==> Occupied(b, agg, v))
    && (Occupied(a, agg, v) ==> a[OccupantAt(a, agg, v)] == b[OccupantAt(b, agg, v)])
  }

  lemma {:induction false} SameRowsBetween(a: seq<Row>, b: seq<Row>, agg: Agg, lo: nat, hi: nat)
    requires lo > 0 && forall v: nat :: lo <= v <= hi ==> SameRow(a, b, agg, v)
    ensures RowsBetween(a, agg, lo, hi) == RowsBetween(b, agg, lo, hi)
  {
    hide Occupied, OccupantAt;
    if lo <= hi {
      SameRowsBetween(a, b, agg, lo, hi - 1);
      assert SameRow(a, b, agg, hi);
    }
  }

  lemma AppendedRow(events: seq<Row>, r: Row, agg: Agg, v: nat)
    requires !(r.agg == agg && r.version == v)
    ensures SameRow(events, events + [r], agg, v)
  {
    var after := events + [r];
    assert after[..|after| - 1] == events;
    if i :| 0 <= i < |events| && events[i].agg == agg && events[i].version == v { assert after[i] == events[i]; }
  }

  lemma OnlyOccupant(events: seq<Row>, j: nat)
    requires UniqueVersions(events) && j < |events|
    ensures Occupied(events, events[j].agg, events[j].version)
    ensures OccupantAt(events, events[j].agg, events[j].version) == j
  {
  }

  lemma ShiftedRow(t: Tables, from: Agg, v: nat, agg: Agg, w: nat)
    requires UniqueVersions(t.events) && UniqueVersions(Shift(t, from, v).events) && agg != from
    ensures SameRow(t.events, Shift(t, from, v).events, agg, w)
  {
    var after := Shift(t, from, v).events;
    forall i: nat | i < |t.events| && t.events[i].agg == agg ensures after[i] == t.events[i] {
    }
    if Occupied(t.events, agg, w) {
      OnlyOccupant(after, OccupantAt(t.events, agg, w));
    }
    if Occupied(after, agg, w) {
      OnlyOccupant(t.events, OccupantAt(after, agg, w));
    }
  }

  // Snapshots as a cache

  lemma {:induction false} ReadAllConcat(a: seq<Row>, b: seq<Row>, key: Key)
    ensures ReadAll(a, key).Err? ==> ReadAll(a + b, key) == ReadAll(a, key)
    ensures ReadAll(a, key).Ok? && ReadAll(b, key).Err? ==> ReadAll(a + b, key).Err?
                                                            && ReadAll(a + b, key).error == ReadAll(b, key).error
    ensures ReadAll(a, key).Ok? && ReadAll(b, key).Ok? ==>
              ReadAll(a + b, key) == Ok(ReadAll(a, key).value + ReadAll(b, key).value)
  {
    hide ReadEvent;
    if b == [] {
      assert a + b == a;
      assert ReadAll(a, key).Ok? ==> ReadAll(a, key).value + [] == ReadAll(a, key).value;
    } else {
      var last := |b| - 1;
      assert (a + b)[..|a + b| - 1] == a + b[..last] && (a + b)[|a + b| - 1] == b[last];
      ReadAllConcat(a, b[..last], key);
      var x, y, z := ReadAll(a, key), ReadAll(b[..last], key), ReadEvent(b[last], key);
      if x.Ok? && y.Ok? && z.Ok? {
        assert x.value + y.value + [z.value] == x.value + (y.value + [z.value]);
      }
    }
  }

  /** The stored events 1 .. n are all there and replay to this state. */
  ghost predicate Covers(events: seq<Row>, key: Key, id: string, s: Loaded) {
    && s.version >= 1 && Filled(events, ProjectAgg(id), s.version)
    && var history := ReadAll(RowsBetween(events, ProjectAgg(id), 1, s.version), key);
       history.Ok? && Replay(BLANK, history.value) == Ok(s.state)
  }

  ghost predicate SnapshotOk(t: Tables, key: Key, id: string) {
    UsableSnapshot(t, key, id).Some? ==> Covers(t.events, key, id, UsableSnapshot(t, key, id).value)
  }

  /** Resuming from a covered state is replaying everything, for every split. */
  lemma ResumeIsReplay(t: Tables, keys: Keyring, id: string, s: Loaded)
    requires id in keys && Covers(t.events, keys[id], id, s)
    ensures s.version <= MaxVersion(t.events, ProjectAgg(id))
    ensures var top := MaxVersion(t.events, ProjectAgg(id));
            Resume(s, RowsBetween(t.events, ProjectAgg(id), s.version + 1, top), keys, id) == LoadFull(t, keys, id)
  {
    hide Occupied, ReadAll, Replay, RowsBetween, MaxVersion;
    var agg, key := ProjectAgg(id), keys[id];
    var top := MaxVersion(t.events, agg);
    assert Occupied(t.events, agg, s.version);
    BelowMax(t.events, agg, s.version);
    var head, tail := RowsBetween(t.events, agg, 1, s.version), RowsBetween(t.events, agg, s.version + 1, top);
    RowsSplit(t.events, agg, 1, s.version, top);
    RowsFillIff(t.events, agg, s.version);
    ResumeSplit(s, head, tail, keys, id);
  }

  lemma ResumeSplit(s: Loaded, head: seq<Row>, tail: seq<Row>, keys: Keyring, id: string)
    requires id in keys && head != [] && s.version == |head|
    requires ReadAll(head, keys[id]).Ok? && Replay(BLANK, ReadAll(head, keys[id]).value) == Ok(s.state)
    ensures Resume(Loaded(BLANK, 0), head + tail, keys, id) == Resume(s, tail, keys, id)
  {
    hide ReadAll, Replay;
    ReadAllConcat(head, tail, keys[id]);
    if tail == [] {
      assert head + tail == head;
    } else if ReadAll(tail, keys[id]).Ok? {
      ReplaySplit(BLANK, ReadAll(head, keys[id]).value, ReadAll(tail, keys[id]).value);
    }
  }

  lemma BelowMax(events: seq<Row>, agg: Agg, v: nat)
    requires Occupied(events, agg, v)
    ensures v <= MaxVersion(events, agg)
  {
  }

  /** Through its snapshot or not, a project loads as the replay of all its stored events in version order,
      errors included. */
  lemma LoadIsReplay(t: Tables, keys: Keyring, id: string)
    requires id in keys ==> SnapshotOk(t, keys[id], id)
    ensures Load(t, keys, id) == LoadFull(t, keys, id)
  {
    hide LoadFull, Covers, Resume, RowsBetween, MaxVersion;
    if id in keys && UsableSnapshot(t, keys[id], id).Some? {
      ResumeIsReplay(t, keys, id, UsableSnapshot(t, keys[id], id).value);
    }
  }

  // The writers of the tables

  ghost predicate SnapshotsOk(t: Tables, vault: Keyring) {
    forall id :: id in vault ==> SnapshotOk(t, vault[id], id)
  }

  ghost predicate CacheOk(t: Tables, vault: Keyring) {
    SchemaHolds(t) && SnapshotsOk(t, vault)
  }

  lemma CoversKept(a: seq<Row>, b: seq<Row>, key: Key, id: string, s: Loaded)
    requires Covers(a, key, id, s) && forall v: nat :: 1 <= v <= s.version ==> SameRow(a, b, ProjectAgg(id), v)
    ensures Covers(b, key, id, s)
  {
    hide Occupied, OccupantAt, ReadAll, Replay, RowsBetween;
    SameRowsBetween(a, b, ProjectAgg(id), 1, s.version);
    forall v: nat | 1 <= v <= s.version ensures Occupied(b, ProjectAgg(id), v) {
      assert SameRow(a, b, ProjectAgg(id), v);
    }
  }

  lemma ExecKeepsCache(t: Tables, s: Stmt, vault: Keyring)
    requires CacheOk(t, vault)
    ensures CacheOk(Exec(t, s), vault)
  {
    hide Covers, SchemaHolds;
    ExecKeepsSchema(t, s);
    var after := Exec(t, s);
    forall id | id in vault ensures SnapshotOk(after, vault[id], id) {
      assert SnapshotOk(t, vault[id], id);
      if UsableSnapshot(t, vault[id], id).Some? && after.events != t.events {
        InsertKeepsCovers(t, s.row, vault[id], id, UsableSnapshot(t, vault[id], id).value);
      }
    }
  }

  lemma InsertKeepsCovers(t: Tables, r: Row, key: Key, id: string, s: Loaded)
    requires Covers(t.events, key, id, s) && !Occupied(t.events, r.agg, r.version)
    ensures Covers(t.events + [r], key, id, s)
  {
    hide ReadAll, Replay, RowsBetween, OccupantAt, SameRow;
    forall v: nat | 1 <= v <= s.version ensures SameRow(t.events, t.events + [r], ProjectAgg(id), v) {
      AppendedRow(t.events, r, ProjectAgg(id), v);
    }
    CoversKept(t.events, t.events + [r], key, id, s);
  }

  /** The rewrite of pending versions drops the snapshot of the aggregate it moves and leaves every other valid. */
  lemma ShiftKeepsCache(t: Tables, keys: Keyring, agg: Agg, from: nat, vault: Keyring)
    requires CacheOk(t, vault) && CanShift(t, keys, agg, from)
    ensures CacheOk(Shift(t, agg, from), vault)
  {
    hide Covers, CanShift, UniqueEventIds, UniqueSequences, UniqueVersions, SameRow;
    ShiftFreesVersion(t, keys, agg, from);
    var after := Shift(t, agg, from);
    forall id | id in vault ensures SnapshotOk(after, vault[id], id) {
      assert SnapshotOk(t, vault[id], id);
      if UsableSnapshot(after, vault[id], id).Some? {
        assert ProjectAgg(id) != agg;
        forall v: nat ensures SameRow(t.events, after.events, ProjectAgg(id), v) {
          ShiftedRow(t, agg, from, ProjectAgg(id), v);
        }
        CoversKept(t.events, after.events, vault[id], id, UsableSnapshot(t, vault[id], id).value);
      }
    }
  }

  lemma {:induction false} ExecAllKeepsCache(t: Tables, batch: seq<Stmt>, vault: Keyring)
    requires CacheOk(t, vault)
    ensures CacheOk(ExecAll(t, batch), vault)
  {
    hide CacheOk, Exec;
    if batch != [] {
      ExecAllKeepsCache(t, batch[..|batch| - 1], vault);
      ExecKeepsCache(ExecAll(t, batch[..|batch| - 1]), batch[|batch| - 1], vault);
    }
  }

  lemma {:induction false} ApplyEachKeepsCache(t: Tables, keys: Keyring, page: seq<Incoming>, vault: Keyring)
    requires CacheOk(t, vault)
    ensures CacheOk(ApplyEach(t, keys, page).t, vault)
  {
    hide CacheOk, CanShift, Shift, Materializes, Occupied, HasId;
    if page != [] {
      ApplyEachKeepsCache(t, keys, page[..|page| - 1], vault);
      var p, r := ApplyEach(t, keys, page[..|page| - 1]), page[|page| - 1].record;
      if CanShift(p.t, keys, r.agg, r.version) {
        ShiftKeepsCache(p.t, keys, r.agg, r.version, vault);
      }
    }
  }

  /** Applying any page of remote events, whether or not it succeeds, leaves every snapshot a true prefix. */
  lemma RemotePageKeepsCache(t: Tables, keys: Keyring, page: seq<Incoming>, vault: Keyring)
    requires CacheOk(t, vault)
    ensures CacheOk(ApplyRemote(t, keys, page).t, vault)
  {
    hide CacheOk, ApplyEach, ExecAll;
    ApplyEachKeepsCache(t, keys, page, vault);
    ExecAllKeepsCache(ApplyEach(t, keys, page).t, ApplyEach(t, keys, page).queue, vault);
  }

  lemma PurgeKeepsCache(t: Tables, key: Key, id: string, vault: Keyring)
    requires CacheOk(t, vault)
    ensures CacheOk(Purged(t, key, id), vault)
  {
    hide Covers;
    var after := Purged(t, key, id);
    forall i | i in vault ensures SnapshotOk(after, vault[i], i) {
      assert SnapshotOk(t, vault[i], i);
    }
  }
}
