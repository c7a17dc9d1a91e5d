/** Applying a page of remote events: version shifts take effect at once, inserts are queued and run as one
    batch at the end. */
module RemoteApply {
  import opened Wrappers
  import opened EventTables
  import opened LocalStore
  import PendingVersionRewriter

  datatype Incoming = Incoming(globalSeq: nat, record: Row)

  datatype SyncError =
    | SyncedCollision | RewriteFailed | NotResolved | MaterializeFailed | InsertNotPersisted
    | ServerBehind | CursorStuck | ResponseLost

  const MAX_REWRITE_ATTEMPTS: nat := 128

  /** The remote payload opens under the aggregate's key and names the event it came with. */
  predicate Materializes(keys: Keyring, r: Row) {
    && r.agg.id in keys
    && var plain := Open(r.payload, keys[r.agg.id], r.agg, r.version);
       plain.Some? && plain.value.eventId == r.id
  }

  /** Freeing the version of an incoming record. */
  ghost function Clear(t: Tables, keys: Keyring, r: Row): Result<Tables, SyncError> {
    if !Occupied(t.events, r.agg, r.version) then Ok(t)
    else if t.events[OccupantAt(t.events, r.agg, r.version)].id in t.syncMap then Err(SyncedCollision)
    else if CanShift(t, keys, r.agg, r.version) then Ok(Shift(t, r.agg, r.version))
    else Err(RewriteFailed)
  }

  /** The state between two events of the page: the tables, what is queued, and the error that ended it. */
  datatype Pass = Pass(t: Tables, queue: seq<Stmt>, error: Option<SyncError>)

  ghost function ApplyOne(p: Pass, keys: Keyring, e: Incoming): Pass {
    var mapEntry := InsertMap(e.record.id, e.globalSeq);
    if p.error.Some? then p
    else if HasId(p.t.events, e.record.id) then p.(queue := p.queue + [mapEntry])
    else
      match Clear(p.t, keys, e.record)
      case Err(error) => p.(error := Some(error))
      case Ok(t) =>
        if Materializes(keys, e.record) then Pass(t, p.queue + [InsertEvent(e.record), mapEntry], None)
        else Pass(t, p.queue, Some(MaterializeFailed))
  }

  ghost function ApplyEach(t: Tables, keys: Keyring, page: seq<Incoming>): Pass {
    if page == [] then Pass(t, [], None)
    else ApplyOne(ApplyEach(t, keys, page[..|page| - 1]), keys, page[|page| - 1])
  }

  predicate AllPersisted(events: seq<Row>, queue: seq<Stmt>) {
    forall k :: 0 <= k < |queue| && queue[k].InsertEvent? ==> HasId(events, queue[k].row.id)
  }

  datatype Applied = Applied(t: Tables, error: Option<SyncError>)

  ghost function ApplyRemote(t: Tables, keys: Keyring, page: seq<Incoming>): Applied {
    var p := ApplyEach(t, keys, page);
    if p.error.Some? then Applied(p.t, p.error)
    else
      var done := ExecAll(p.t, p.queue);
      Applied(done, if AllPersisted(done.events, p.queue) then None else Some(InsertNotPersisted))
  }

  predicate BringsNews(syncMap: map<Id, nat>, page: seq<Incoming>) {
    exists k :: 0 <= k < |page| && page[k].record.id !in syncMap
  }

  /** The collision loop; it never needs a third pass. */
  method ResolveCollision(store: Store, keys: Keyring, r: Row) returns (error: Option<SyncError>)
    requires store.Valid() && store.savepoint == None
    modifies store
    ensures store.Valid() && store.savepoint == None
    ensures var want := old(Clear(store.View(), keys, r));
            match want
            case Ok(t) => error == None && store.View() == t && !Occupied(store.events, r.agg, r.version)
            case Err(e) => error == Some(e) && store.View() == old(store.View())
  {
    var t := store.View();
    var attempt := 0;
    while attempt < MAX_REWRITE_ATTEMPTS
      invariant store.Valid() && store.savepoint == None
      invariant attempt <= 1
      invariant attempt == 0 ==> store.View() == t
      invariant attempt == 1 ==>
                  Clear(t, keys, r) == Ok(store.View()) && !Occupied(store.events, r.agg, r.version)
    {
      if !Occupied(store.events, r.agg, r.version) {
        return None;
      }
      var i := OccupantAt(store.events, r.agg, r.version);
      if store.events[i].id in store.syncMap {
        return Some(SyncedCollision);
      }
      var rewritten := PendingVersionRewriter.RewritePendingVersions(store, keys, r.agg, r.version);
      if rewritten.Err? {
        return Some(RewriteFailed);
      }
      ShiftFreesVersion(t, keys, r.agg, r.version);
      attempt := attempt + 1;
    }
    return Some(NotResolved);
  }

  /** On failure the shifts made so far stay, and nothing that was queued is inserted. */
  method ApplyRemoteEvents(store: Store, keys: Keyring, page: seq<Incoming>)
    returns (news: bool, error: Option<SyncError>)
    requires store.Valid() && store.savepoint == None
    modifies store
    ensures store.Valid() && store.savepoint == None
    ensures var want := old(ApplyRemote(store.View(), keys, page)); store.View() == want.t && error == want.error
    ensures error == None ==> news == old(BringsNews(store.syncMap, page))
  {
    if page == [] {
      return false, None;
    }
    var before := store.View();
    var statements: seq<Stmt> := [];
    for k := 0 to |page|
      invariant store.Valid() && store.savepoint == None
      invariant ApplyEach(before, keys, page[..k]) == Pass(store.View(), statements, None)
    {
      var incoming := page[k];
      assert page[..k + 1][..k] == page[..k];
      assert ApplyEach(before, keys, page[..k + 1]) == ApplyOne(Pass(store.View(), statements, None), keys, incoming);
      ghost var rest := page[k + 1..];
      assert page == page[..k + 1] + rest;
      if !HasId(store.events, incoming.record.id) {
        var collision := ResolveCollision(store, keys, incoming.record);
        if collision.Some? {
          ErrorSticks(before, keys, page[..k + 1], rest);
          return false, collision;
        }
        if !Materializes(keys, incoming.record) {
          ErrorSticks(before, keys, page[..k + 1], rest);
          return false, Some(MaterializeFailed);
        }
        statements := statements + [InsertEvent(incoming.record), InsertMap(incoming.record.id, incoming.globalSeq)];
      } else {
        statements := statements + [InsertMap(incoming.record.id, incoming.globalSeq)];
      }
    }
    assert page[..|page|] == page;
    store.Batch(statements);
    if !AllPersisted(store.events, statements) {
      return false, Some(InsertNotPersisted);
    }
    news := BringsNews(before.syncMap, page);
    error := None;
  }

  lemma {:induction false} ErrorSticks(t: Tables, keys: Keyring, head: seq<Incoming>, rest: seq<Incoming>)
    requires ApplyEach(t, keys, head).error.Some?
    ensures ApplyEach(t, keys, head + rest) == ApplyEach(t, keys, head)
    decreases |rest|
  {
    if rest == [] {
      assert head + rest == head;
    } else {
      ErrorSticks(t, keys, head, rest[..|rest| - 1]);
      assert (head + rest)[..|head + rest| - 1] == head + rest[..|rest| - 1];
    }
  }
}
