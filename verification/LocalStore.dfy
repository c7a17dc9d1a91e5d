/** The client database as an object: the statements the sync code issues against it, each keeping the
    schema's constraints. */
module LocalStore {
  import opened Wrappers
  import opened EventTables

  predicate RunsOn(events: seq<Row>, agg: Agg, rows: seq<Row>) {
    && (forall i :: 0 <= i < |rows| ==> rows[i].version == MaxVersion(events, agg) + 1 + i)
    && (forall i :: 0 <= i < |rows| ==> !HasId(events, rows[i].id))
    && (forall i, j :: 0 <= i < j < |rows| ==> rows[i].id != rows[j].id)
  }

  class Store {
    var events: seq<Row>
    var syncMap: map<Id, nat>
    var snapshots: map<Agg, Snapshot>
    var cursor: nat
    /** What ROLLBACK returns to while a transaction is open. */
    var savepoint: Option<Tables>

    constructor ()
      ensures View() == EMPTY && savepoint == None && Valid()
    {
      events, syncMap, snapshots, cursor, savepoint := [], map[], map[], 0, None;
    }

    function View(): Tables
      reads this
    {
      Tables(events, syncMap, snapshots, cursor)
    }

    ghost predicate Valid()
      reads this
    {
      SchemaHolds(View()) && (savepoint.Some? ==> SchemaHolds(savepoint.value))
    }

    method Begin()
      requires Valid() && savepoint == None
      modifies this
      ensures Valid() && View() == old(View()) && savepoint == Some(View())
    {
      savepoint := Some(View());
    }

    method Commit()
      requires Valid()
      modifies this
      ensures Valid() && View() == old(View()) && savepoint == None
    {
      savepoint := None;
    }

    method Rollback()
      requires Valid() && savepoint.Some?
      modifies this
      ensures Valid() && View() == old(savepoint.value) && savepoint == None
    {
      var t := savepoint.value;
      events, syncMap, snapshots, cursor, savepoint := t.events, t.syncMap, t.snapshots, t.cursor, None;
    }

    /** UPDATE events SET version, payload WHERE id: refused, with nothing changed, exactly when another row of
        the aggregate already has the version. */
    method UpdateVersion(i: nat, version: nat, payload: Sealed) returns (ok: bool)
      requires Valid() && i < |events|
      modifies this
      ensures Valid() && savepoint == old(savepoint)
      ensures ok <==> FreeFor(old(events), i, version)
      ensures View() == if ok then old(View()).(events := old(events)[i := old(events)[i].(version := version,
                                                                                         payload := payload)])
                              else old(View())
    {
      ok := FreeFor(events, i, version);
      if ok {
        events := events[i := events[i].(version := version, payload := payload)];
      }
    }

    method DeleteSnapshot(agg: Agg)
      requires Valid()
      modifies this
      ensures Valid() && savepoint == old(savepoint)
      ensures View() == old(View()).(snapshots := old(snapshots) - {agg})
    {
      snapshots := snapshots - {agg};
    }

    /** One statement after the other, each with its OR IGNORE. */
    method Batch(statements: seq<Stmt>)
      requires Valid()
      modifies this
      ensures Valid() && savepoint == old(savepoint)
      ensures View() == ExecAll(old(View()), statements)
    {
      for k := 0 to |statements|
        invariant Valid() && savepoint == old(savepoint)
        invariant View() == ExecAll(old(View()), statements[..k])
      {
        ExecKeepsSchema(View(), statements[k]);
        assert statements[..k + 1][..k] == statements[..k];
        var t := Exec(View(), statements[k]);
        events, syncMap := t.events, t.syncMap;
      }
      assert statements[..|statements|] == statements;
    }

    /** INSERT OR IGNORE of one map entry. */
    method InsertMapping(id: Id, globalSeq: nat)
      requires Valid()
      modifies this
      ensures Valid() && savepoint == old(savepoint)
      ensures View() == if id in old(syncMap) || globalSeq in old(syncMap).Values then old(View())
                        else old(View()).(syncMap := old(syncMap)[id := globalSeq])
    {
      if id !in syncMap && globalSeq !in syncMap.Values {
        ghost var before := syncMap;
        syncMap := syncMap[id := globalSeq];
        forall a, b | a in syncMap && b in syncMap && syncMap[a] == syncMap[b] ensures a == b {
          assert a != id ==> before[a] in before.Values;
          assert b != id ==> before[b] in before.Values;
        }
      }
    }

    /** INSERT of new rows of one aggregate, all or none: refused unless their versions run on from the highest
        stored one and their ids are new. */
    method AppendRows(agg: Agg, rows: seq<Row>) returns (ok: bool)
      requires Valid() && forall i :: 0 <= i < |rows| ==> rows[i].agg == agg
      modifies this
      ensures Valid() && savepoint == old(savepoint)
      ensures ok <==> RunsOn(old(events), agg, rows)
      ensures View() == if ok then old(View()).(events := old(events) + rows) else old(View())
    {
      ok := RunsOn(events, agg, rows);
      if ok {
        events := events + rows;
      }
    }

    /** INSERT ... ON CONFLICT DO UPDATE. */
    method PutSnapshot(agg: Agg, snapshot: Snapshot)
      requires Valid()
      modifies this
      ensures Valid() && savepoint == old(savepoint)
      ensures View() == old(View()).(snapshots := old(snapshots)[agg := snapshot])
    {
      snapshots := snapshots[agg := snapshot];
    }

    method WriteCursor(value: nat)
      requires Valid()
      modifies this
      ensures Valid() && savepoint == old(savepoint) && View() == old(View()).(cursor := value)
    {
      cursor := value;
    }
  }
}
