/** The client's sync engine: pulling pages, pushing pending events, and answering a push conflict. */
module SyncEngine {
  import opened Wrappers
  import opened EventTables
  import opened LocalStore
  import opened RemoteApply
  import opened Replication
  import opened SyncServer
  import opened Pushing

  const MAX_PUSH_RETRIES: nat := 2

  datatype Client = Client(t: Tables, keys: Keyring, lastKnownHead: Option<nat>)

  datatype Pulled = Pulled(client: Client, news: bool, error: Option<SyncError>)
  datatype Pushed = Pushed(log: seq<Row>, client: Client, done: bool, error: Option<SyncError>)

  function ExpectedHead(c: Client): nat {
    if c.lastKnownHead.Some? then c.lastKnownHead.value else c.t.cursor
  }

  /** One pull response: the head is remembered before the page is applied, the cursor moves after. */
  ghost function TakePage(c: Client, response: PullResponse): Pulled {
    var informed := c.(lastKnownHead := Some(response.head));
    if response.events == [] then Pulled(informed, false, None) else
      var applied := ApplyRemote(c.t, c.keys, response.events);
      if applied.error.Some? then Pulled(informed.(t := applied.t), false, applied.error)
      else
        var cursor := if response.nextSince.Some? then response.nextSince.value else c.t.cursor;
        Pulled(informed.(t := applied.t.(cursor := cursor)), BringsNews(c.t.syncMap, response.events), None)
  }

  /** The pull loop from sequence since on. */
  ghost function PullFrom(c: Client, log: seq<Row>, limit: nat, since: nat): Pulled
    requires limit > 0
    decreases |log| - since
  {
    var response := PullOutcome(log, since, limit);
    var page := TakePage(c, response);
    if page.error.Some? || !response.hasMore then page
    else
      var rest := PullFrom(page.client, log, limit, response.nextSince.value);
      rest.(news := page.news || rest.news)
  }

  /** A conflict answered with the missing events; `done` only says the attempt ended the push. */
  ghost function TakeConflict(c: Client, log: seq<Row>, head: nat, missing: seq<Incoming>): Pushed {
    var applied := ApplyRemote(c.t, c.keys, missing);
    if applied.error.Some? then Pushed(log, c.(t := applied.t), true, applied.error)
    else Pushed(log, c.(t := applied.t.(cursor := Max(applied.t.cursor, head)), lastKnownHead := Some(head)),
                false, None)
  }

  function TakeAck(c: Client, head: nat, assignments: seq<Assignment>): Client {
    var t := AssignAll(c.t, assignments);
    c.(t := t.(cursor := Max(t.cursor, head)), lastKnownHead := Some(head))
  }

  /** One attempt to push. */
  ghost function PushAttempt(c: Client, log: seq<Row>, limit: nat, ackLost: bool): Pushed
    requires limit > 0
  {
    var batch := LoadPending(c.t, PUSH_BATCH_SIZE);
    if batch == [] then Pushed(log, c, true, None) else
      var (after, result) := PushOutcome(log, ExpectedHead(c), batch);
      match result
      case PushOk(head, assignments) =>
        if ackLost then Pushed(after, c, true, Some(ResponseLost))
        else Pushed(after, TakeAck(c, head, assignments), true, None)
      case PushConflict(head, behind, missing) =>
        if behind then Pushed(after, c, true, Some(ServerBehind))
        else if missing != [] then TakeConflict(c, after, head, missing)
        else
          var pulled := if c.t.cursor <= ExpectedHead(c) then PullFrom(c, after, limit, c.t.cursor).client else c;
          if pulled.t.cursor <= ExpectedHead(c) then Pushed(after, pulled, true, Some(CursorStuck))
          else Pushed(after, pulled, false, None)
  }

  ghost function PushAttempts(c: Client, log: seq<Row>, limit: nat, ackLost: bool, retries: nat): Pushed
    requires limit > 0
    decreases retries
  {
    if retries == 0 then Pushed(log, c, false, None) else
      var first := PushAttempt(c, log, limit, ackLost);
      if first.done then first else PushAttempts(first.client, first.log, limit, ackLost, retries - 1)
  }

  /** The answer to a conflict always carries missing events, and its last one is the head unless the cap cut it. */
  lemma ConflictCarriesMissing(log: seq<Row>, expectedHead: nat, batch: seq<Row>)
    requires batch != [] && expectedHead < |log|
    ensures PushOutcome(log, expectedHead, batch) == (log, PushConflict(|log|, false,
              PageOf(log, expectedHead, if expectedHead + MISSING_LIMIT <= |log| then expectedHead + MISSING_LIMIT
                                        else |log|)))
  {
  }

  lemma {:induction false} PendingIff(t: Tables, n: nat)
    requires n <= |t.events|
    ensures Pending(t, n) != [] <==> exists i :: 0 <= i < n && t.events[i].id !in t.syncMap
  {
    if n > 0 {
      PendingIff(t, n - 1);
    }
  }

  class Engine {
    const store: Store
    const service: SyncService
    const key: StoreKey
    const keys: Keyring
    const pullLimit: nat
    var lastKnownHead: Option<nat>

    constructor (store: Store, service: SyncService, key: StoreKey, keys: Keyring, pullLimit: nat)
      requires pullLimit > 0
      ensures this.store == store && this.service == service && this.key == key && this.keys == keys
      ensures this.pullLimit == pullLimit && lastKnownHead == None
    {
      this.store, this.service, this.key, this.keys, this.pullLimit := store, service, key, keys, pullLimit;
      lastKnownHead := None;
    }

    function Now(): Client
      reads this, store
    {
      Client(store.View(), keys, lastKnownHead)
    }

    ghost predicate Ready()
      reads this, store, service.repository
    {
      store.Valid() && store.savepoint == None && service.repository.Valid() && pullLimit > 0
    }

    ghost function ServerLog(): seq<Row>
      reads service.repository
    {
      service.repository.Log(key)
    }

    method HasPendingEvents() returns (pending: bool)
      ensures pending <==> exists i :: 0 <= i < |store.events| && store.events[i].id !in store.syncMap
    {
      PendingIff(store.View(), |store.events|);
      pending := Pending(store.View(), |store.events|) != [];
    }

    /** Pulls until the server has no more; asks for a rebase when remote news met local pending events. */
    method PullOnce() returns (error: Option<SyncError>, rebaseRequired: bool)
      requires Ready()
      modifies this, store
      ensures Ready()
      ensures var want := PullFrom(old(Now()), ServerLog(), pullLimit, old(store.cursor));
              && Now() == want.client && error == want.error
              && (rebaseRequired <==> error == None && want.news && old(Pending(store.View(), |store.events|)) != []
                                      && Pending(store.View(), |store.events|) != [])
    {
      hide ApplyRemote, UniqueEventIds, UniqueVersions, UniqueSequences, Pending, Since;
      rebaseRequired := false;
      var hadPending := HasPendingEvents();
      PendingIff(store.View(), |store.events|);
      var since := store.cursor;
      var pulledAny, keepPulling := false, true;
      ghost var start, first := Now(), since;
      ghost var want := PullFrom(start, ServerLog(), pullLimit, first);
      while keepPulling
        invariant Ready()
        invariant keepPulling ==>
                    var rest := PullFrom(Now(), ServerLog(), pullLimit, since);
                    want == rest.(news := pulledAny || rest.news)
        invariant !keepPulling ==> want == Pulled(Now(), pulledAny, None)
        decreases keepPulling, |ServerLog()| - since
      {
        var response := service.PullEvents(key, since, pullLimit);
        lastKnownHead := Some(response.head);
        if response.events == [] {
          keepPulling := false;
        } else {
          var news;
          news, error := ApplyRemoteEvents(store, keys, response.events);
          if error.Some? {
            return;
          }
          pulledAny := pulledAny || news;
          since := response.nextSince.value;
          store.WriteCursor(since);
          keepPulling := response.hasMore;
        }
      }
      error := None;
      if pulledAny && hadPending {
        rebaseRequired := HasPendingEvents();
        PendingIff(store.View(), |store.events|);
      }
    }

    method ApplyAssignments(assignments: seq<Assignment>)
      requires store.Valid() && store.savepoint == None
      modifies store
      ensures store.Valid() && store.savepoint == None
      ensures store.View() == AssignAll(old(store.View()), assignments)
    {
      for k := 0 to |assignments|
        invariant store.Valid() && store.savepoint == None
        invariant store.View() == AssignAll(old(store.View()), assignments[..k])
      {
        assert assignments[..k + 1][..k] == assignments[..k];
        store.InsertMapping(assignments[k].eventId, assignments[k].globalSeq);
      }
      assert assignments[..|assignments|] == assignments;
    }

    /** What a refused push leads to: an error, or tables from which a retry makes sense. */
    method HandleConflict(head: nat, behind: bool, missing: seq<Incoming>, expectedHead: nat)
      returns (error: Option<SyncError>, rebaseRequired: bool)
      requires Ready() && !behind && expectedHead == ExpectedHead(Now())
      modifies this, store
      ensures Ready()
      ensures missing != [] ==>
                var want := TakeConflict(old(Now()), ServerLog(), head, missing);
                && Now() == want.client && error == want.error
                && (rebaseRequired <==> error == None && BringsNews(old(store.syncMap), missing)
                                        && old(Pending(store.View(), |store.events|)) != []
                                        && Pending(store.View(), |store.events|) != [])
      ensures missing == [] ==>
                var c := old(Now());
                var pulled := if c.t.cursor <= expectedHead then PullFrom(c, ServerLog(), pullLimit, c.t.cursor)
                              else Pulled(c, false, None);
                && Now() == pulled.client
                && error == (if pulled.client.t.cursor <= expectedHead then Some(CursorStuck) else None)
                && (rebaseRequired <==> pulled.error == None && pulled.news
                                        && old(Pending(store.View(), |store.events|)) != []
                                        && Pending(store.View(), |store.events|) != [])
    {
      rebaseRequired := false;
      if missing != [] {
        var hadPending := HasPendingEvents();
        PendingIff(store.View(), |store.events|);
        var news;
        news, error := ApplyRemoteEvents(store, keys, missing);
        if error.Some? {
          return;
        }
        store.WriteCursor(Max(store.cursor, head));
        lastKnownHead := Some(head);
        if news && hadPending {
          rebaseRequired := HasPendingEvents();
          PendingIff(store.View(), |store.events|);
        }
        return;
      }
      if store.cursor <= expectedHead {
        var _, rebase := PullOnce();
        rebaseRequired := rebase;
      }
      error := if store.cursor <= expectedHead then Some(CursorStuck) else None;
    }

    /** The body of the retry loop. */
    method TryPush(ackLost: bool) returns (done: bool, error: Option<SyncError>)
      requires Ready()
      modifies this, store, service.repository
      ensures Ready()
      ensures Pushed(ServerLog(), Now(), done, error)
           == PushAttempt(old(Now()), old(ServerLog()), pullLimit, ackLost)
      ensures forall k :: k != key ==> service.repository.Log(k) == old(service.repository.Log(k))
    {
      hide ApplyRemote, PullFrom, AssignAll, LoadPending, PushOutcome, UniqueEventIds, UniqueVersions;
      var pending := LoadPending(store.View(), PUSH_BATCH_SIZE);
      if pending == [] {
        return true, None;
      }
      var expectedHead := ExpectedHead(Now());
      ghost var client, log := Now(), ServerLog();
      var response := service.PushEvents(key, expectedHead, pending);
      assert Now() == client && PushOutcome(log, expectedHead, pending) == (ServerLog(), response);
      match response {
        case PushOk(head, assignments) =>
          if ackLost {
            return true, Some(ResponseLost);
          }
          ApplyAssignments(assignments);
          store.WriteCursor(Max(store.cursor, head));
          lastKnownHead := Some(head);
          return true, None;
        case PushConflict(head, behind, missing) =>
          if behind {
            return true, Some(ServerBehind);
          }
          var rebase;
          error, rebase := HandleConflict(head, behind, missing, expectedHead);
          return error.Some?, error;
      }
    }

    /** Pushes one batch; a conflict is resolved and the push retried once.  An acknowledgement may get lost after
        the server has accepted the batch. */
    method PushOnce(ackLost: bool) returns (error: Option<SyncError>)
      requires Ready()
      modifies this, store, service.repository
      ensures Ready()
      ensures var want := PushAttempts(old(Now()), old(ServerLog()), pullLimit, ackLost, MAX_PUSH_RETRIES);
              Now() == want.client && ServerLog() == want.log && error == want.error
      ensures forall k :: k != key ==> service.repository.Log(k) == old(service.repository.Log(k))
    {
      hide PushAttempt, UniqueEventIds, UniqueVersions;
      ghost var want := PushAttempts(Now(), ServerLog(), pullLimit, ackLost, MAX_PUSH_RETRIES);
      var attempt := 0;
      while attempt < MAX_PUSH_RETRIES
        invariant Ready() && attempt <= MAX_PUSH_RETRIES
        invariant want == PushAttempts(Now(), ServerLog(), pullLimit, ackLost, MAX_PUSH_RETRIES - attempt)
        invariant forall k :: k != key ==> service.repository.Log(k) == old(service.repository.Log(k))
      {
        attempt := attempt + 1;
        var done;
        done, error := TryPush(ackLost);
        if done {
          return;
        }
      }
      return None;
    }
  }
}
