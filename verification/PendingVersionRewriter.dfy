/** The rewriter that moves an aggregate's pending events one version up, inside a transaction. */
module PendingVersionRewriter {
  import opened Wrappers
  import opened EventTables
  import opened LocalStore

  datatype RewriteError = MissingKey | DecryptFailed | ConstraintFailed

  datatype Rewritten = Rewritten(shiftedCount: nat, oldMaxVersion: Option<nat>, newMaxVersion: Option<nat>)

  ghost predicate Positions(events: seq<Row>, order: seq<nat>) {
    forall a :: 0 <= a < |order| ==> order[a] < |events|
  }

  function InsertByVersion(events: seq<Row>, order: seq<nat>, i: nat): (r: seq<nat>)
    requires i < |events| && Positions(events, order)
    ensures Positions(events, r)
    ensures forall k: nat :: k in r <==> k in order || k == i
  {
    if order == [] || events[order[0]].version <= events[i].version then [i] + order
    else [order[0]] + InsertByVersion(events, order[1..], i)
  }

  /** SELECT of the rows to move among the first n, ORDER BY version DESC; positions stand for the rows. */
  function SelectPending(t: Tables, agg: Agg, from: nat, n: nat): (order: seq<nat>)
    requires n <= |t.events|
    ensures Positions(t.events, order)
    ensures forall k: nat :: k in order <==> k < n && Moves(t, agg, from, k)
  {
    if n == 0 then [] else
      var rest := SelectPending(t, agg, from, n - 1);
      if Moves(t, agg, from, n - 1) then InsertByVersion(t.events, rest, n - 1) else rest
  }

  ghost predicate Descending(events: seq<Row>, order: seq<nat>) {
    && Positions(events, order)
    && forall a, b :: 0 <= a < b < |order| ==> events[order[a]].version > events[order[b]].version
  }

  lemma {:induction false} InsertKeepsDescending(events: seq<Row>, order: seq<nat>, i: nat)
    requires i < |events| && Descending(events, order)
    requires forall a :: 0 <= a < |order| ==> events[order[a]].version != events[i].version
    ensures Descending(events, InsertByVersion(events, order, i))
  {
    hide InsertByVersion;
    InsertCases(events, order, i);
    if order != [] && events[order[0]].version > events[i].version {
      var s := InsertByVersion(events, order[1..], i);
      InsertKeepsDescending(events, order[1..], i);
      forall b | 0 <= b < |s| ensures events[order[0]].version > events[s[b]].version {
        assert s[b] in s;
      }
    }
  }

  lemma InsertCases(events: seq<Row>, order: seq<nat>, i: nat)
    requires i < |events| && Positions(events, order)
    ensures order == [] || events[order[0]].version <= events[i].version ==>
              InsertByVersion(events, order, i) == [i] + order
    ensures order != [] && events[order[0]].version > events[i].version ==>
              InsertByVersion(events, order, i) == [order[0]] + InsertByVersion(events, order[1..], i)
  {
  }

  lemma {:induction false} SelectIsDescending(t: Tables, agg: Agg, from: nat, n: nat)
    requires n <= |t.events| && UniqueVersions(t.events)
    ensures Descending(t.events, SelectPending(t, agg, from, n))
  {
    if n > 0 {
      SelectIsDescending(t, agg, from, n - 1);
      if Moves(t, agg, from, n - 1) {
        var rest := SelectPending(t, agg, from, n - 1);
        forall a | 0 <= a < |rest| ensures t.events[rest[a]].version != t.events[n - 1].version {
          assert rest[a] in rest;
        }
        InsertKeepsDescending(t.events, rest, n - 1);
      }
    }
  }

  /** The event table once the first j rows of the descending order have been moved. */
  ghost predicate PartlyShifted(before: Tables, now: seq<Row>, order: seq<nat>, j: nat)
    requires j <= |order|
  {
    && |now| == |before.events|
    && forall i :: 0 <= i < |now| ==>
         now[i] == if i in order[..j] then Bump(before.events[i]) else before.events[i]
  }

  /** Going down, the version above a readable row is taken exactly when a row that does not move has it: the
      rows that move have left it already. */
  lemma NextVersionFree(t: Tables, keys: Keyring, agg: Agg, from: nat, now: seq<Row>, order: seq<nat>, j: nat)
    requires UniqueVersions(t.events) && order == SelectPending(t, agg, from, |t.events|)
    requires Descending(t.events, order) && j < |order| && PartlyShifted(t, now, order, j)
    ensures |now| == |t.events| && now[order[j]] == t.events[order[j]] && Moves(t, agg, from, order[j])
    ensures Movable(t, keys, agg, from, order[j]) <==>
              Readable(t.events[order[j]], keys) && FreeFor(now, order[j], t.events[order[j]].version + 1)
    ensures !Movable(t, keys, agg, from, order[j]) ==> !CanShift(t, keys, agg, from)
  {
    var i: nat := order[j];
    assert i in order && i !in order[..j];
    forall q: nat | q < |now| && q != i && now[q].agg == agg && now[q].version == t.events[i].version + 1
      ensures !Moves(t, agg, from, q) && t.events[q].version == t.events[i].version + 1
    {
      assert q !in order;
    }
    forall q: nat | q < |t.events| && t.events[q].agg == agg && !Moves(t, agg, from, q)
      ensures now[q] == t.events[q] && q != i
    {
      assert q !in order;
    }
  }

  lemma NoneShifted(t: Tables, order: seq<nat>)
    ensures PartlyShifted(t, t.events, order, 0)
  {
  }

  lemma OneMoreShifted(t: Tables, now: seq<Row>, order: seq<nat>, j: nat)
    requires Descending(t.events, order) && j < |order| && PartlyShifted(t, now, order, j)
    ensures PartlyShifted(t, now[order[j] := Bump(t.events[order[j]])], order, j + 1)
  {
    assert order[..j + 1] == order[..j] + [order[j]];
  }

  lemma AllShifted(t: Tables, keys: Keyring, agg: Agg, from: nat, now: seq<Row>, order: seq<nat>)
    requires order == SelectPending(t, agg, from, |t.events|)
    requires PartlyShifted(t, now, order, |order|)
    requires forall a :: 0 <= a < |order| ==> Movable(t, keys, agg, from, order[a])
    ensures now == Shift(t, agg, from).events && CanShift(t, keys, agg, from)
  {
    assert order[..|order|] == order;
    forall i: nat | i < |t.events| ensures i in order <==> Moves(t, agg, from, i) {
    }
  }

  /** The highest version among the rows to move, if there are any. */
  ghost predicate TopMoved(t: Tables, agg: Agg, from: nat, top: Option<nat>) {
    && (top.None? ==> forall i :: 0 <= i < |t.events| ==> !Moves(t, agg, from, i))
    && (top.Some? ==>
          && (exists i :: 0 <= i < |t.events| && Moves(t, agg, from, i) && t.events[i].version == top.value)
          && forall i :: 0 <= i < |t.events| && Moves(t, agg, from, i) ==> t.events[i].version <= top.value)
  }

  lemma FirstIsTop(t: Tables, agg: Agg, from: nat, order: seq<nat>)
    requires order == SelectPending(t, agg, from, |t.events|) && Descending(t.events, order)
    ensures TopMoved(t, agg, from, if order == [] then None else Some(t.events[order[0]].version))
  {
    hide SelectPending;
    forall i: nat | i < |t.events| && Moves(t, agg, from, i) ensures i in order {
    }
    if order != [] {
      assert order[0] in order;
    }
  }

  /** Succeeds exactly when every row to move can be opened and none is blocked by a row that stays; then the
      tables are the shifted ones, and otherwise they are untouched. */
  method RewritePendingVersions(store: Store, keys: Keyring, agg: Agg, from: nat)
    returns (r: Result<Rewritten, RewriteError>)
    requires store.Valid() && store.savepoint == None
    modifies store
    ensures store.Valid() && store.savepoint == None
    ensures r.Ok? <==> old(CanShift(store.View(), keys, agg, from))
    ensures store.View() == if r.Ok? then old(Shift(store.View(), agg, from)) else old(store.View())
    ensures r.Ok? ==> r.value.shiftedCount == |old(SelectPending(store.View(), agg, from, |store.events|))|
    ensures r.Ok? ==> TopMoved(old(store.View()), agg, from, r.value.oldMaxVersion)
    ensures r.Ok? ==> r.value.newMaxVersion == if r.value.oldMaxVersion.None? then None
                                               else Some(r.value.oldMaxVersion.value + 1)
  {
    hide SelectPending, Movable, CanShift, UniqueEventIds, UniqueVersions, UniqueSequences, PartlyShifted, FreeFor, TopMoved;
    var t := store.View();
    store.Begin();
    var order := SelectPending(t, agg, from, |t.events|);
    SelectIsDescending(t, agg, from, |t.events|);
    FirstIsTop(t, agg, from, order);
    NoneShifted(t, order);
    var j := 0;
    while j < |order|
      invariant 0 <= j <= |order|
      invariant store.Valid() && store.savepoint == Some(t)
      invariant store.View() == t.(events := store.events)
      invariant PartlyShifted(t, store.events, order, j)
      invariant forall a :: 0 <= a < j ==> Movable(t, keys, agg, from, order[a])
    {
      var i := order[j];
      var row := t.events[i];
      NextVersionFree(t, keys, agg, from, store.events, order, j);
      if row.agg.id !in keys {
        store.Rollback();
        return Err(MissingKey);
      }
      var key := keys[row.agg.id];
      var plain := Open(row.payload, key, row.agg, row.version);
      if plain.None? {
        store.Rollback();
        return Err(DecryptFailed);
      }
      var rewritten := Sealed(key, row.agg, row.version + 1, plain.value);
      OneMoreShifted(t, store.events, order, j);
      var updated := store.UpdateVersion(i, row.version + 1, rewritten);
      if !updated {
        store.Rollback();
        return Err(ConstraintFailed);
      }
      j := j + 1;
    }
    AllShifted(t, keys, agg, from, store.events, order);
    store.DeleteSnapshot(agg);
    store.Commit();
    var top := if order == [] then None else Some(t.events[order[0]].version);
    r := Ok(Rewritten(|order|, top, if top.None? then None else Some(top.value + 1)));
  }
}
