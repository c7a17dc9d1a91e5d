/** What one push achieves: which rows it sends, what the acknowledgement leaves, and what a retry after a conflict
    sends instead. */
module SyncPush {
  import opened Wrappers
  import opened EventTables
  import opened RemoteApply
  import opened Replication
  import opened SyncServer
  import opened Pushing
  import opened SyncEngine
  import opened SyncProtocol
  import opened SyncHypotheses

  // The batch

  lemma {:induction false} PendingAt(t: Tables, n: nat, k: nat) returns (q: nat)
    requires n <= |t.events| && k < |Pending(t, n)|
    ensures q < n && t.events[q].id !in t.syncMap && t.events[q] == Pending(t, n)[k] && |Pending(t, q)| == k
  {
    if k < |Pending(t, n - 1)| {
      q := PendingAt(t, n - 1, k);
    } else {
      q := n - 1;
    }
  }

  lemma {:induction false} PendingGrows(t: Tables, m: nat, n: nat)
    requires m <= n <= |t.events|
    ensures |Pending(t, m)| <= |Pending(t, n)| && Pending(t, n)[..|Pending(t, m)|] == Pending(t, m)
    decreases n - m
  {
    if m < n {
      PendingGrows(t, m, n - 1);
    }
  }

  /** A batch holds pending rows in commit order, and is only shorter than the limit when it holds them all. */
  lemma BatchInOrder(t: Tables, limit: nat)
    ensures var batch := LoadPending(t, limit);
            && |batch| <= limit
            && (forall r :: r in batch ==> r in t.events && r.id !in t.syncMap)
            && (forall i, j :: 0 <= i < j < |batch| ==> RowBefore(t, batch[i], batch[j]))
            && (|batch| < limit ==>
                  forall q :: 0 <= q < |t.events| && t.events[q].id !in t.syncMap ==> t.events[q] in batch)
  {
    hide Pending, RowBefore;
    var batch := LoadPending(t, limit);
    forall r | r in batch ensures r in t.events && r.id !in t.syncMap {
      PendingMember(t, |t.events|, r);
    }
    forall i: nat, j: nat | i < j < |batch| ensures RowBefore(t, batch[i], batch[j]) {
      PendingOrder(t, i, j);
    }
    forall q | 0 <= q < |t.events| && t.events[q].id !in t.syncMap && |batch| < limit ensures t.events[q] in batch {
      PendingMember(t, |t.events|, t.events[q]);
    }
  }

  /** Every pending row left out of a batch comes after each row in it. */
  lemma BatchIsOldest(t: Tables, limit: nat, q: nat, i: nat)
    requires i < |LoadPending(t, limit)| && q < |t.events| && t.events[q].id !in t.syncMap
    requires t.events[q] !in LoadPending(t, limit)
    ensures RowBefore(t, LoadPending(t, limit)[i], t.events[q])
  {
    hide Pending, RowBefore;
    var all, batch := Pending(t, |t.events|), LoadPending(t, limit);
    PendingMember(t, |t.events|, t.events[q]);
    var k: nat :| k < |all| && all[k] == t.events[q];
    assert forall m {:trigger all[m]} :: 0 <= m < |batch| ==> all[m] == batch[m];
    PendingOrder(t, i, k);
  }

  ghost predicate RowBefore(t: Tables, a: Row, b: Row) {
    exists i, j :: 0 <= i < j < |t.events| && t.events[i] == a && t.events[j] == b
  }

  lemma PendingOrder(t: Tables, i: nat, j: nat)
    requires i < j < |Pending(t, |t.events|)|
    ensures RowBefore(t, Pending(t, |t.events|)[i], Pending(t, |t.events|)[j])
  {
    var a := PendingAt(t, |t.events|, i);
    var b := PendingAt(t, |t.events|, j);
    assert a < b by {
      if b <= a { PendingGrows(t, b, a); }
    }
  }

  // The acknowledgement

  /** If exactly the first p rows and those mapped before are mapped now, the pending rows lost exactly the first
      p's. */
  lemma {:induction false} PendingSplit(before: Tables, after: Tables, p: nat, n: nat)
    requires p <= n <= |before.events| && after.events == before.events
    requires forall j :: 0 <= j < p ==> before.events[j].id in after.syncMap
    requires forall j :: p <= j < n ==> (before.events[j].id in after.syncMap <==> before.events[j].id in before.syncMap)
    ensures Pending(before, n) == Pending(before, p) + Pending(after, n)
    decreases n
  {
    if n > p {
      PendingSplit(before, after, p, n - 1);
    } else if p > 0 {
      NonePending(after, p);
    }
  }

  lemma {:induction false} NonePending(t: Tables, n: nat)
    requires n <= |t.events| && forall j :: 0 <= j < n ==> t.events[j].id in t.syncMap
    ensures Pending(t, n) == []
  {
    if n > 0 {
      NonePending(t, n - 1);
    }
  }

  /** After an acknowledged push of the batch: each event is mapped to the sequence the server gave it, the cursor
      and the expected head are the server's head, no row or snapshot changed, and what is still pending is what
      was pending without the batch. */
  ghost predicate Acknowledged(c: Client, log: seq<Row>, batch: seq<Row>, r: Pushed) {
    && r.log == log + batch
    && r.client.t.cursor == |r.log| == ExpectedHead(r.client)
    && (forall i :: 0 <= i < |batch| ==>
          batch[i].id in r.client.t.syncMap && r.client.t.syncMap[batch[i].id] == |log| + i + 1)
    && r.client.t.events == c.t.events && r.client.t.snapshots == c.t.snapshots && r.client.keys == c.keys
    && Pending(c.t, |c.t.events|) == batch + Pending(r.client.t, |r.client.t.events|)
  }

  lemma MappedAfterPush(log: seq<Row>, vault: Keyring, c: Client, d: Client, p: nat, j: nat)
    requires LogOk(log) && FollowsAt(log, vault, c, |log|, |log|, AllOf(log)) && p <= |c.t.events| && j < |c.t.events|
    requires var after := log + Unknown(log, c.t.events, p);
             FollowsAt(after, vault, d, |after|, |after|, AllOf(after))
    requires d.t.events == c.t.events
    ensures j < p ==> c.t.events[j].id in d.t.syncMap
    ensures j >= p ==> (c.t.events[j].id in d.t.syncMap <==> c.t.events[j].id in c.t.syncMap)
  {
    RowIdsUnique(log, vault, c.keys, c.t, |log|, |log|, AllOf(log));
    hide Follows, InLog, LogOk, UniqueEventIds, AllOf, Unknown;
    var after := log + Unknown(log, c.t.events, p);
    SyncedIffInLog(after, vault, d.keys, d.t, AllOf(after), j);
    SyncedIffInLog(log, vault, c.keys, c.t, AllOf(log), j);
    if j < p {
      PushedAreIn(log, c.t.events, p);
    } else {
      StillUnsent(log, c.t.events, p, j);
    }
  }

  /** At the head, the base of every aggregate is its count. */
  lemma AtHead(log: seq<Row>, vault: Keyring, c: Client, tight: bool)
    requires ClientOk(log, vault, c, tight) && c.t.cursor == |log|
    ensures FollowsAt(log, vault, c, |log|, |log|, AllOf(log))
  {
    hide HoldsPrefix, MapsPrefix, UniqueEventIds, KeysFrom, Genuine;
    var mapped, held, base :| FollowsAt(log, vault, c, mapped, held, base);
    BaseSqueezed(log, vault, c.keys, c.t, mapped, base);
    assert UnsentAbove(log, c.t.events, AllOf(log)) by { hide Unsent, InLog; }
  }

  lemma AckedAtHead(log: seq<Row>, vault: Keyring, c: Client, limit: nat)
    requires LogOk(log) && ClientOk(log, vault, c, false) && limit > 0
    requires c.t.cursor == |log| == ExpectedHead(c) && LoadPending(c.t, PUSH_BATCH_SIZE) != []
    ensures var r := PushAttempt(c, log, limit, false);
            r.done && r.error == None && Acknowledged(c, log, LoadPending(c.t, PUSH_BATCH_SIZE), r)
  {
    hide Follows, LogOk, Pending, Appended, Assigned, AssignAll, Unknown, InLog, UniqueEventIds, AllOf;
    var batch, n := LoadPending(c.t, PUSH_BATCH_SIZE), |c.t.events|;
    AtHead(log, vault, c, false);
    AcceptedFollows(log, vault, c, |log|, |log|, AllOf(log));
    var after, given := Appended(log, batch), Assigned(log, batch);
    var d := TakeAck(c, |after|, given);
    AssignAllKeepsEvents(c.t, given);
    AtHead(after, vault, d, true);
    MappedSequences(after, vault, d.keys, d.t, |after|, |after|, AllOf(after));
    forall i | 0 <= i < |batch| ensures batch[i].id in d.t.syncMap && d.t.syncMap[batch[i].id] == |log| + i + 1 {
      assert after[|log| + i] == batch[i];
    }
    var p := BatchIsPending(c.t, PUSH_BATCH_SIZE);
    PendingIsUnknown(log, vault, c.keys, c.t, AllOf(log), p);
    forall j: nat | j < n
      ensures j < p ==> c.t.events[j].id in d.t.syncMap
      ensures j >= p ==> (c.t.events[j].id in d.t.syncMap <==> c.t.events[j].id in c.t.syncMap)
    {
      MappedAfterPush(log, vault, c, d, p, j);
    }
    PendingSplit(c.t, d.t, p, n);
  }

  /** A push from the server's head takes the whole batch into the log.  With its acknowledgement the client knows
      all of it; when the acknowledgement is lost the client has not changed at all. */
  lemma AckedPush(log: seq<Row>, vault: Keyring, c: Client, limit: nat, ackLost: bool)
    requires LogOk(log) && ClientOk(log, vault, c, false) && limit > 0
    requires c.t.cursor == |log| == ExpectedHead(c) && LoadPending(c.t, PUSH_BATCH_SIZE) != []
    ensures var r, batch := PushAttempt(c, log, limit, ackLost), LoadPending(c.t, PUSH_BATCH_SIZE);
            && r.done && r.log == log + batch && batch != []
            && (ackLost ==> r.error == Some(ResponseLost) && r.client == c)
            && (!ackLost ==> r.error == None && Acknowledged(c, log, batch, r))
  {
    hide ClientOk, LogOk, LoadPending, Appended, Assigned, AssignAll;
    AckedAtHead(log, vault, c, limit);
  }

  // The conflict and the retry

  /** The client once the events it lacked are applied. */
  ghost function CaughtUp(c: Client, log: seq<Row>): Client {
    if c.t.cursor >= |log| then c
    else c.(t := ApplyRemote(c.t, c.keys, PageOf(log, c.t.cursor, |log|)).t.(cursor := |log|),
            lastKnownHead := Some(|log|))
  }

  lemma ConflictCatchesUp(log: seq<Row>, vault: Keyring, c: Client, tight: bool, limit: nat, ackLost: bool)
    requires LogOk(log) && GenuineLog(vault, log) && ClientOk(log, vault, c, tight) && limit > 0
    requires ExpectedHead(c) == c.t.cursor < |log| <= c.t.cursor + MISSING_LIMIT
    requires LoadPending(c.t, PUSH_BATCH_SIZE) != []
    requires forall k :: c.t.cursor <= k < |log| ==> log[k].agg.id in c.keys
    ensures PushAttempt(c, log, limit, ackLost) == Pushed(log, CaughtUp(c, log), false, None)
    ensures ClientOk(log, vault, CaughtUp(c, log), tight)
  {
    hide ClientOk, LogOk, GenuineLog, LoadPending, ApplyRemote;
    ConflictCarriesMissing(log, c.t.cursor, LoadPending(c.t, PUSH_BATCH_SIZE));
    ApplyFromCursor(log, vault, c, tight, |log|, |log|, Some(|log|));
  }

  /** A push by a client in step, at most 1000 events behind and holding the keys of what it lacks, succeeds within
      its two attempts: the log gains the first hundred pending rows of the client as rebased by the conflict, and
      all of them are acknowledged. */
  lemma PushGetsThrough(log: seq<Row>, vault: Keyring, c: Client, limit: nat)
    requires LogOk(log) && GenuineLog(vault, log) && ClientOk(log, vault, c, false) && limit > 0
    requires ExpectedHead(c) == c.t.cursor && |log| <= c.t.cursor + MISSING_LIMIT
    requires LoadPending(c.t, PUSH_BATCH_SIZE) != []
    requires forall k :: c.t.cursor <= k < |log| ==> log[k].agg.id in c.keys
    ensures var r, rebased := PushAttempts(c, log, limit, false, MAX_PUSH_RETRIES), CaughtUp(c, log);
            r.error == None && Acknowledged(rebased, log, LoadPending(rebased.t, PUSH_BATCH_SIZE), r)
  {
    hide ClientOk, LogOk, GenuineLog, LoadPending, ApplyRemote, PushAttempt, Pending;
    ClientBounds(log, vault, c, false);
    var rebased := CaughtUp(c, log);
    if c.t.cursor == |log| {
      AckedPush(log, vault, c, limit, false);
      assert PushAttempts(c, log, limit, false, 2) == PushAttempt(c, log, limit, false);
    } else {
      ConflictCatchesUp(log, vault, c, false, limit, false);
      assert PushAttempts(c, log, limit, false, 2) == PushAttempts(rebased, log, limit, false, 1);
      if LoadPending(rebased.t, PUSH_BATCH_SIZE) != [] {
        AckedPush(log, vault, rebased, limit, false);
        assert PushAttempts(rebased, log, limit, false, 1) == PushAttempt(rebased, log, limit, false);
      } else {
        NothingToPush(rebased, log, limit);
      }
    }
  }

  /** Nothing pending: nothing happens. */
  lemma NothingToPush(c: Client, log: seq<Row>, limit: nat)
    requires LoadPending(c.t, PUSH_BATCH_SIZE) == [] && limit > 0
    ensures PushAttempt(c, log, limit, false) == Pushed(log, c, true, None)
    ensures PushAttempts(c, log, limit, false, 1) == Pushed(log, c, true, None)
    ensures Pending(c.t, |c.t.events|) == [] && log + [] == log
  {
  }

  // What the retry sends

  datatype Content = Content(id: Id, agg: Agg, plain: Plain)

  function Contents(rows: seq<Row>): (r: seq<Content>)
    ensures |r| == |rows|
  {
    seq(|rows|, i requires 0 <= i < |rows| => Content(rows[i].id, rows[i].agg, rows[i].payload.plain))
  }

  lemma ContentsSnoc(rows: seq<Row>, r: Row)
    ensures Contents(rows + [r]) == Contents(rows) + [Content(r.id, r.agg, r.payload.plain)]
  {
  }

  lemma {:induction false} UnknownKept(log: seq<Row>, before: seq<Row>, after: seq<Row>, n: nat)
    requires n <= |before| && KeepsRows(before, after)
    ensures Contents(Unknown(log, after, n)) == Contents(Unknown(log, before, n))
  {
    hide InLog, Contents;
    if n > 0 {
      UnknownKept(log, before, after, n - 1);
      ContentsSnoc(Unknown(log, after, n - 1), after[n - 1]);
      ContentsSnoc(Unknown(log, before, n - 1), before[n - 1]);
      assert Unknown(log, after, n - 1) + [] == Unknown(log, after, n - 1);
      assert Unknown(log, before, n - 1) + [] == Unknown(log, before, n - 1);
    }
  }

  lemma {:induction false} NoneUnknownAfter(log: seq<Row>, events: seq<Row>, m: nat, n: nat)
    requires m <= n <= |events| && forall j :: m <= j < n ==> InLog(log, events[j].id)
    ensures Unknown(log, events, n) == Unknown(log, events, m)
    decreases n
  {
    if n > m {
      NoneUnknownAfter(log, events, m, n - 1);
    }
  }

  lemma NewRowsAreLogged(log: seq<Row>, vault: Keyring, c: Client, d: Client)
    requires ClientOk(log, vault, c, false) && c.t.cursor < |log| && d == CaughtUp(c, log)
    requires UniqueEventIds(d.t.events) && KeepsRows(c.t.events, d.t.events)
    ensures forall j :: |c.t.events| <= j < |d.t.events| ==> InLog(log, d.t.events[j].id)
  {
    hide ClientOk, InLog, InPage, ApplyRemote;
    var page := PageOf(log, c.t.cursor, |log|);
    forall j: nat | |c.t.events| <= j < |d.t.events| ensures InLog(log, d.t.events[j].id) {
      assert HasId(ApplyRemote(c.t, c.keys, page).t.events, d.t.events[j].id);
      ApplyRemoteIds(c.t, c.keys, page, d.t.events[j].id);
      assert !HasId(c.t.events, d.t.events[j].id);
      PageOfLogIds(log, c.t.cursor, |log|, d.t.events[j].id);
    }
  }

  /** What is pending after the rebase is exactly what the server lacks: the client's own events that are not in
      the log, in commit order, each with the plaintext it was saved with. */
  lemma RetrySendsTheRest(log: seq<Row>, vault: Keyring, c: Client)
    requires LogOk(log) && GenuineLog(vault, log) && ClientOk(log, vault, c, false)
    requires forall k :: c.t.cursor <= k < |log| ==> log[k].agg.id in c.keys
    ensures var rebased := CaughtUp(c, log).t;
            Contents(Pending(rebased, |rebased.events|)) == Contents(Unknown(log, c.t.events, |c.t.events|))
  {
    hide ClientOk, LogOk, GenuineLog, ApplyRemote, Pending, Unknown, KeepsRows, Follows, InLog, UniqueEventIds, AllOf,
         Contents;
    ClientBounds(log, vault, c, false);
    var d := CaughtUp(c, log);
    if c.t.cursor == |log| {
      AtHead(log, vault, c, false);
      PendingIsUnknown(log, vault, c.keys, c.t, AllOf(log), |c.t.events|);
    } else {
      ApplyFromCursor(log, vault, c, false, |log|, |log|, Some(|log|));
      AtHead(log, vault, d, false);
      PendingIsUnknown(log, vault, d.keys, d.t, AllOf(log), |d.t.events|);
      ApplyRemoteKeepsRows(c.t, c.keys, PageOf(log, c.t.cursor, |log|));
      RowIdsUnique(log, vault, d.keys, d.t, |log|, |log|, AllOf(log));
      NewRowsAreLogged(log, vault, c, d);
      KeptPrefix(c.t.events, d.t.events);
      NoneUnknownAfter(log, d.t.events, |c.t.events|, |d.t.events|);
      UnknownKept(log, c.t.events, d.t.events, |c.t.events|);
    }
  }

  // A server that lost events

  lemma {:induction false} ApplyEachErrors(t: Tables, keys: Keyring, page: seq<Incoming>)
    ensures ApplyEach(t, keys, page).error != Some(ServerBehind)
  {
    hide HasId, CanShift, Occupied, Materializes;
    if page != [] {
      ApplyEachErrors(t, keys, page[..|page| - 1]);
    }
  }

  /** The server is reported to be behind exactly when something is pending and the expected head is above its own;
      then nothing changes, and trying again changes nothing. */
  lemma ServerBehindIff(c: Client, log: seq<Row>, limit: nat, ackLost: bool, retries: nat)
    requires limit > 0 && retries > 0
    ensures PushAttempt(c, log, limit, ackLost).error == Some(ServerBehind) <==>
              LoadPending(c.t, PUSH_BATCH_SIZE) != [] && ExpectedHead(c) > |log|
    ensures LoadPending(c.t, PUSH_BATCH_SIZE) != [] && ExpectedHead(c) > |log| ==>
              PushAttempts(c, log, limit, ackLost, retries) == Pushed(log, c, true, Some(ServerBehind))
  {
    hide PullFrom, LoadPending, ApplyEach, ExecAll, Appended, Assigned, AssignAll;
    var batch := LoadPending(c.t, PUSH_BATCH_SIZE);
    if batch != [] && ExpectedHead(c) < |log| {
      ConflictCarriesMissing(log, ExpectedHead(c), batch);
      var hi := if ExpectedHead(c) + MISSING_LIMIT <= |log| then ExpectedHead(c) + MISSING_LIMIT else |log|;
      ApplyEachErrors(c.t, c.keys, PageOf(log, ExpectedHead(c), hi));
    }
  }

  // Pulling

  /** A pull reports news exactly when the server had events past the cursor. */
  lemma {:induction false} NewsIff(log: seq<Row>, vault: Keyring, c: Client, limit: nat)
    requires LogOk(log) && GenuineLog(vault, log) && ClientOk(log, vault, c, true) && limit > 0
    requires forall k :: 0 <= k < |log| ==> log[k].agg.id in c.keys
    ensures PullFrom(c, log, limit, c.t.cursor).news <==> c.t.cursor < |log|
  {
    hide ClientOk, LogOk, GenuineLog, ApplyRemote;
    ClientBounds(log, vault, c, true);
    TightMap(log, vault, c);
    var response := PullOutcome(log, c.t.cursor, limit);
    if response.events != [] {
      var hi := response.nextSince.value;
      ApplyFromCursor(log, vault, c, true, hi, hi, Some(response.head));
      assert response.events[0].record == log[c.t.cursor];
    }
  }
}
