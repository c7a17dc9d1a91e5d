/** The client's SQLite tables as values: the event table in commit order, the map from an event id to its
    sequence on the server, the snapshots and the pull cursor.  Sealed payloads are symbolic: opening succeeds
    exactly under the key, aggregate and version they were sealed for. */
module EventTables {
  import opened Wrappers
  import opened ProjectModel

  type Id = string
  type Key = string
  /** Keys a client holds, by aggregate id. */
  type Keyring = map<string, Key>

  datatype Agg = Agg(kind: string, id: string)

  datatype Body = ProjectBody(event: ProjectEvent) | OtherBody(data: string)

  /** The plaintext envelope of an event carries the event's own id. */
  datatype Plain = Plain(eventId: Id, body: Body)

  datatype Sealed = Sealed(key: Key, agg: Agg, version: nat, plain: Plain)

  function Open(s: Sealed, key: Key, agg: Agg, version: nat): Option<Plain> {
    if s.key == key && s.agg == agg && s.version == version then Some(s.plain) else None
  }

  /** A row of the event table, and equally a record of the server log: both carry the same fields. */
  datatype Row = Row(id: Id, agg: Agg, version: nat, payload: Sealed)

  datatype SealedState = SealedState(key: Key, aggId: string, version: nat, state: State)

  datatype Snapshot = Snapshot(version: nat, cipher: SealedState)

  datatype Tables = Tables(events: seq<Row>, syncMap: map<Id, nat>, snapshots: map<Agg, Snapshot>, cursor: nat)

  const EMPTY: Tables := Tables([], map[], map[], 0)

  // Queries

  predicate HasId(events: seq<Row>, id: Id) {
    exists i :: 0 <= i < |events| && events[i].id == id
  }

  predicate Occupied(events: seq<Row>, agg: Agg, version: nat) {
    exists i :: 0 <= i < |events| && events[i].agg == agg && events[i].version == version
  }

  /** The first row at this aggregate and version; the unique index makes it the only one. */
  function OccupantAt(events: seq<Row>, agg: Agg, version: nat): (i: nat)
    requires Occupied(events, agg, version)
    ensures i < |events| && events[i].agg == agg && events[i].version == version
  {
    var last := |events| - 1;
    if events[last].agg == agg && events[last].version == version then last
    else
      assert Occupied(events[..last], agg, version) by {
        var k :| 0 <= k < |events| && events[k].agg == agg && events[k].version == version;
        assert events[..last][k] == events[k];
      }
      OccupantAt(events[..last], agg, version)
  }

  /** SELECT MAX(version) for one aggregate, 0 when it has no rows. */
  function MaxVersion(events: seq<Row>, agg: Agg): (v: nat)
    ensures forall i :: 0 <= i < |events| && events[i].agg == agg ==> events[i].version <= v
    ensures v != 0 ==> Occupied(events, agg, v)
  {
    if events == [] then 0 else
      var last := |events| - 1;
      var m := MaxVersion(events[..last], agg);
      assert m != 0 ==> Occupied(events, agg, m) by {
        if m != 0 {
          var k :| 0 <= k < last && events[..last][k].agg == agg && events[..last][k].version == m;
          assert events[k].agg == agg;
        }
      }
      assert forall i :: 0 <= i < last ==> events[i] == events[..last][i];
      if events[last].agg == agg && events[last].version > m then events[last].version else m
  }

  /** Rows of the first n without an entry in the sync map, in commit order. */
  function Pending(t: Tables, n: nat): (r: seq<Row>)
    requires n <= |t.events|
    ensures |r| <= n
  {
    if n == 0 then [] else
      Pending(t, n - 1) + if t.events[n - 1].id in t.syncMap then [] else [t.events[n - 1]]
  }

  function LoadPending(t: Tables, limit: nat): seq<Row> {
    var all := Pending(t, |t.events|);
    if |all| <= limit then all else all[..limit]
  }

  // Constraints of the schema

  ghost predicate UniqueEventIds(events: seq<Row>) {
    forall i, j :: 0 <= i < j < |events| ==> events[i].id != events[j].id
  }

  ghost predicate UniqueVersions(events: seq<Row>) {
    forall i, j :: 0 <= i < j < |events| && events[i].agg == events[j].agg ==> events[i].version != events[j].version
  }

  ghost predicate UniqueSequences(m: map<Id, nat>) {
    forall a, b :: a in m && b in m && m[a] == m[b] ==> a == b
  }

  ghost predicate SchemaHolds(t: Tables) {
    UniqueEventIds(t.events) && UniqueVersions(t.events) && UniqueSequences(t.syncMap)
  }

  // Statements

  datatype Stmt = InsertEvent(row: Row) | InsertMap(id: Id, globalSeq: nat)

  /** INSERT OR IGNORE: a row that would break a unique constraint is dropped.  A map entry is only written
      for an event that is in the table. */
  function Exec(t: Tables, s: Stmt): Tables {
    match s
    case InsertEvent(row) =>
      if HasId(t.events, row.id) || Occupied(t.events, row.agg, row.version) then t
      else t.(events := t.events + [row])
    case InsertMap(id, n) =>
      if !HasId(t.events, id) || id in t.syncMap || n in t.syncMap.Values then t
      else t.(syncMap := t.syncMap[id := n])
  }

  function ExecAll(t: Tables, batch: seq<Stmt>): Tables {
    if batch == [] then t else Exec(ExecAll(t, batch[..|batch| - 1]), batch[|batch| - 1])
  }

  lemma ExecKeepsSchema(t: Tables, s: Stmt)
    requires SchemaHolds(t)
    ensures SchemaHolds(Exec(t, s))
  {
    var r := Exec(t, s);
    if s.InsertMap? && r != t {
      forall a, b | a in r.syncMap && b in r.syncMap && r.syncMap[a] == r.syncMap[b] ensures a == b {
        assert a != s.id ==> t.syncMap[a] in t.syncMap.Values;
        assert b != s.id ==> t.syncMap[b] in t.syncMap.Values;
      }
    }
  }

  // The pending version shift

  /** The rows a shift moves: pending, of this aggregate, at or above the version to be freed. */
  predicate Moves(t: Tables, agg: Agg, from: nat, i: nat)
    requires i < |t.events|
  {
    t.events[i].agg == agg && t.events[i].version >= from && t.events[i].id !in t.syncMap
  }

  /** One version up, sealed anew for that version. */
  function Bump(r: Row): Row {
    r.(version := r.version + 1, payload := r.payload.(version := r.version + 1))
  }

  /** No other row of the aggregate has this version. */
  predicate FreeFor(events: seq<Row>, i: nat, version: nat)
    requires i < |events|
  {
    forall j :: 0 <= j < |events| && j != i && events[j].agg == events[i].agg ==> events[j].version != version
  }

  predicate Readable(r: Row, keys: Keyring) {
    r.agg.id in keys && Open(r.payload, keys[r.agg.id], r.agg, r.version).Some?
  }

  /** A moved row can be opened, and no row that stays is in its way. */
  ghost predicate Movable(t: Tables, keys: Keyring, agg: Agg, from: nat, i: nat)
    requires i < |t.events|
  {
    && Readable(t.events[i], keys)
    && forall j :: 0 <= j < |t.events| && t.events[j].agg == agg && !Moves(t, agg, from, j)
         ==> t.events[j].version != t.events[i].version + 1
  }

  ghost predicate CanShift(t: Tables, keys: Keyring, agg: Agg, from: nat) {
    forall i :: 0 <= i < |t.events| && Moves(t, agg, from, i) ==> Movable(t, keys, agg, from, i)
  }

  function Shift(t: Tables, agg: Agg, from: nat): (r: Tables)
    ensures |r.events| == |t.events| && r.syncMap == t.syncMap && r.cursor == t.cursor
    ensures forall i :: 0 <= i < |t.events| ==>
              r.events[i] == if Moves(t, agg, from, i) then Bump(t.events[i]) else t.events[i]
    ensures r.snapshots == t.snapshots - {agg}
  {
    t.(events := seq(|t.events|, i requires 0 <= i < |t.events| =>
                       if Moves(t, agg, from, i) then Bump(t.events[i]) else t.events[i]),
       snapshots := t.snapshots - {agg})
  }

  /** After a shift that nothing blocks, the constraints still hold and the version is free, unless a synced
      row holds it; so the second pass of a collision loop finds it free. */
  lemma ShiftFreesVersion(t: Tables, keys: Keyring, agg: Agg, from: nat)
    requires SchemaHolds(t) && CanShift(t, keys, agg, from)
    ensures SchemaHolds(Shift(t, agg, from))
    ensures Occupied(Shift(t, agg, from).events, agg, from)
       <==> exists i :: 0 <= i < |t.events| && t.events[i].agg == agg && t.events[i].version == from
                     && t.events[i].id in t.syncMap
  {
    var r := Shift(t, agg, from);
    forall i, j | 0 <= i < j < |r.events| && r.events[i].agg == r.events[j].agg
      ensures r.events[i].version != r.events[j].version
    {
      assert t.events[i].agg == t.events[j].agg;
      if Moves(t, agg, from, i) { assert Movable(t, keys, agg, from, i); }
      if Moves(t, agg, from, j) { assert Movable(t, keys, agg, from, j); }
    }
    if Occupied(r.events, agg, from) {
      var k := OccupantAt(r.events, agg, from);
      assert !Moves(t, agg, from, k);
    }
    if i :| 0 <= i < |t.events| && t.events[i].agg == agg && t.events[i].version == from && t.events[i].id in t.syncMap {
      assert r.events[i] == t.events[i];
    }
  }
}
