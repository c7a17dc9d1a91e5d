/** Runs of many clients against one store of the server.  A pull takes one page per step and a push makes one
    attempt per step, so the steps of different clients, and of one client's pull and push loops, interleave. */
module SyncProtocol {
  import opened Wrappers
  import opened EventTables
  import opened RemoteApply
  import opened Replication
  import opened SyncServer
  import opened Pushing
  import opened SyncEngine

  datatype System = System(log: seq<Row>, clients: seq<Client>)

  datatype Step =
    | LearnKey(c: nat, aggId: string)
    | AppendLocal(c: nat, agg: Agg, plains: seq<Plain>)
    | PullPage(c: nat, limit: nat, cursorWritten: bool)
    | Push(c: nat, ackLost: bool)
    | Restart(c: nat)

  /** The rows of a save: sealed for the versions after the aggregate's highest. */
  function NewRows(key: Key, agg: Agg, start: nat, plains: seq<Plain>): (rows: seq<Row>)
    ensures |rows| == |plains|
    ensures forall i :: 0 <= i < |rows| ==>
              rows[i] == Row(plains[i].eventId, agg, start + i, Sealed(key, agg, start + i, plains[i]))
  {
    seq(|plains|, i requires 0 <= i < |plains| =>
          Row(plains[i].eventId, agg, start + i, Sealed(key, agg, start + i, plains[i])))
  }

  function AppendRows(c: Client, agg: Agg, plains: seq<Plain>): Client
    requires agg.id in c.keys
  {
    var rows := NewRows(c.keys[agg.id], agg, MaxVersion(c.t.events, agg) + 1, plains);
    c.(t := c.t.(events := c.t.events + rows))
  }

  /** One page; a crash may come between applying it and writing the cursor. */
  ghost function PullStep(c: Client, log: seq<Row>, limit: nat, cursorWritten: bool): Client {
    var pulled := TakePage(c, PullOutcome(log, c.t.cursor, limit)).client;
    if cursorWritten then pulled else pulled.(t := pulled.t.(cursor := c.t.cursor))
  }

  /** Events no client and no log has yet, each once. */
  ghost predicate NewIds(s: System, plains: seq<Plain>) {
    && (forall i, j :: 0 <= i < j < |plains| ==> plains[i].eventId != plains[j].eventId)
    && (forall i :: 0 <= i < |plains| ==> !InLog(s.log, plains[i].eventId))
    && (forall i, c :: 0 <= i < |plains| && 0 <= c < |s.clients| ==> !HasId(s.clients[c].t.events, plains[i].eventId))
  }

  /** When a step can happen, and the two hypotheses a push relies on: the head it expects is its fully applied
      cursor, and the server is at most as far ahead as a conflict answer reaches. */
  ghost predicate Enabled(s: System, vault: Keyring, step: Step) {
    && step.c < |s.clients|
    && match step
       case LearnKey(c, aggId) => aggId in vault
       case AppendLocal(c, agg, plains) => agg.id in s.clients[c].keys && NewIds(s, plains)
       case PullPage(c, limit, _) => limit > 0
       case Push(c, _) =>
         && ExpectedHead(s.clients[c]) == s.clients[c].t.cursor
         && |s.log| <= s.clients[c].t.cursor + MISSING_LIMIT
       case Restart(c) => true
  }

  ghost function Next(s: System, vault: Keyring, step: Step): System
    requires Enabled(s, vault, step)
  {
    var c := s.clients[step.c];
    match step
    case LearnKey(i, aggId) => s.(clients := s.clients[i := c.(keys := c.keys[aggId := vault[aggId]])])
    case AppendLocal(i, agg, plains) => s.(clients := s.clients[i := AppendRows(c, agg, plains)])
    case PullPage(i, limit, written) => s.(clients := s.clients[i := PullStep(c, s.log, limit, written)])
    case Push(i, ackLost) =>
      var pushed := PushAttempt(c, s.log, 1, ackLost);
      System(pushed.log, s.clients[i := pushed.client])
    case Restart(i) => s.(clients := s.clients[i := c.(lastKnownHead := None)])
  }

  // The invariant

  ghost predicate FollowsAt(log: seq<Row>, vault: Keyring, c: Client, mapped: nat, held: nat, base: Agg -> nat) {
    Follows(log, vault, c.keys, c.t, mapped, held, base)
  }

  /** In step with the log; tight when nothing beyond the cursor is mapped. */
  ghost predicate ClientOk(log: seq<Row>, vault: Keyring, c: Client, tight: bool) {
    exists mapped, held, base ::
      FollowsAt(log, vault, c, mapped, held, base) && (tight ==> mapped == c.t.cursor)
  }

  /** No row that is only local to one client is also at another. */
  ghost predicate Apart(log: seq<Row>, a: Client, b: Client) {
    forall j :: 0 <= j < |a.t.events| && !InLog(log, a.t.events[j].id) ==> !HasId(b.t.events, a.t.events[j].id)
  }

  ghost predicate SystemOk(s: System, vault: Keyring, tight: bool) {
    && LogOk(s.log) && GenuineLog(vault, s.log)
    && (forall c :: 0 <= c < |s.clients| ==> ClientOk(s.log, vault, s.clients[c], tight))
    && (forall c, d :: 0 <= c < |s.clients| && 0 <= d < |s.clients| && c != d ==>
          Apart(s.log, s.clients[c], s.clients[d]))
  }

  // Local appends

  lemma MaxIsTop(log: seq<Row>, vault: Keyring, keys: Keyring, t: Tables, mapped: nat, held: nat, base: Agg -> nat,
                 agg: Agg)
    requires LogOk(log) && held <= |log| && Follows(log, vault, keys, t, mapped, held, base)
    ensures var unsent := Unsent(log, t.events, agg, |t.events|);
            MaxVersion(t.events, agg) == if unsent > 0 then base(agg) + unsent else Count(log, agg, held)
  {
    var top, unsent := MaxVersion(t.events, agg), Unsent(log, t.events, agg, |t.events|);
    forall j: nat | j < |t.events| && t.events[j].agg == agg
      ensures t.events[j].version <= if unsent > 0 then base(agg) + unsent else Count(log, agg, held)
    {
      RowVersionBound(log, vault, keys, t, mapped, held, base, agg, j);
    }
    if unsent > 0 {
      LastUnsent(log, vault, keys, t, mapped, held, base, agg);
    } else if Count(log, agg, held) > 0 {
      LastHeld(log, vault, keys, t, mapped, held, base, agg);
    }
  }

  lemma RowVersionBound(log: seq<Row>, vault: Keyring, keys: Keyring, t: Tables, mapped: nat, held: nat,
                        base: Agg -> nat, agg: Agg, j: nat)
    requires LogOk(log) && held <= |log| && Follows(log, vault, keys, t, mapped, held, base)
    requires j < |t.events| && t.events[j].agg == agg
    ensures var unsent := Unsent(log, t.events, agg, |t.events|);
            t.events[j].version <= if unsent > 0 then base(agg) + unsent else Count(log, agg, held)
  {
    if InLog(log, t.events[j].id) {
      HeldVersion(log, vault, keys, t, mapped, held, base, j);
    } else {
      UnsentVersion(log, vault, keys, t, mapped, held, base, j);
      UnsentMono(log, t.events, agg, j, |t.events|);
    }
  }

  lemma {:induction false} LastCounted(log: seq<Row>, events: seq<Row>, agg: Agg, n: nat) returns (j: nat)
    requires n <= |events| && Unsent(log, events, agg, n) > 0
    ensures j < n && events[j].agg == agg && !InLog(log, events[j].id)
    ensures Unsent(log, events, agg, j) + 1 == Unsent(log, events, agg, n)
  {
    if events[n - 1].agg == agg && !InLog(log, events[n - 1].id) {
      j := n - 1;
    } else {
      j := LastCounted(log, events, agg, n - 1);
    }
  }

  lemma LastUnsent(log: seq<Row>, vault: Keyring, keys: Keyring, t: Tables, mapped: nat, held: nat,
                   base: Agg -> nat, agg: Agg)
    requires Follows(log, vault, keys, t, mapped, held, base) && Unsent(log, t.events, agg, |t.events|) > 0
    ensures Occupied(t.events, agg, base(agg) + Unsent(log, t.events, agg, |t.events|))
  {
    var j := LastCounted(log, t.events, agg, |t.events|);
    UnsentVersion(log, vault, keys, t, mapped, held, base, j);
  }

  lemma {:induction false} LastOf(log: seq<Row>, agg: Agg, n: nat) returns (i: nat)
    requires n <= |log| && Count(log, agg, n) > 0
    ensures i < n && log[i].agg == agg && Count(log, agg, i) + 1 == Count(log, agg, n)
  {
    if log[n - 1].agg == agg { i := n - 1; } else { i := LastOf(log, agg, n - 1); }
  }

  lemma LastHeld(log: seq<Row>, vault: Keyring, keys: Keyring, t: Tables, mapped: nat, held: nat,
                 base: Agg -> nat, agg: Agg)
    requires LogOk(log) && held <= |log| && Follows(log, vault, keys, t, mapped, held, base)
    requires Count(log, agg, held) > 0
    ensures Occupied(t.events, agg, Count(log, agg, held))
  {
    var i := LastOf(log, agg, held);
    assert log[i] in t.events;
    var j :| 0 <= j < |t.events| && t.events[j] == log[i];
    assert t.events[j].version == Count(log, agg, held);
  }

  /** Where new rows of the aggregate start from: above its unsent rows, or above what is held. */
  ghost function Rebased(log: seq<Row>, t: Tables, held: nat, base: Agg -> nat, agg: Agg): Agg -> nat
    requires held <= |log|
  {
    var start := if Unsent(log, t.events, agg, |t.events|) > 0 then base(agg) else Count(log, agg, held);
    (a: Agg) => if a == agg then start else base(a)
  }

  lemma {:induction false} UnsentOfNew(log: seq<Row>, events: seq<Row>, rows: seq<Row>, agg: Agg, a: Agg, n: nat)
    requires n <= |rows| && forall i :: 0 <= i < |rows| ==> rows[i].agg == agg && !InLog(log, rows[i].id)
    ensures Unsent(log, events + rows, a, |events| + n)
         == Unsent(log, events, a, |events|) + if a == agg then n else 0
  {
    if n == 0 {
      UnsentSame(log, events, events + rows, a, |events|);
    } else {
      UnsentOfNew(log, events, rows, agg, a, n - 1);
      assert (events + rows)[|events| + n - 1] == rows[n - 1];
    }
  }

  lemma UnsentAt(log: seq<Row>, events: seq<Row>, base: Agg -> nat, j: nat)
    requires UnsentAbove(log, events, base) && j < |events| && !InLog(log, events[j].id)
    ensures events[j].version == base(events[j].agg) + Unsent(log, events, events[j].agg, j) + 1
    ensures Unsent(log, events, events[j].agg, |events|) > 0
  {
    UnsentMono(log, events, events[j].agg, j, |events|);
  }

  lemma AppendAbove(log: seq<Row>, t: Tables, held: nat, base: Agg -> nat, agg: Agg, rows: seq<Row>, top: nat)
    requires held <= |log| && UnsentAbove(log, t.events, base)
    requires var unsent := Unsent(log, t.events, agg, |t.events|);
             top == if unsent > 0 then base(agg) + unsent else Count(log, agg, held)
    requires forall i :: 0 <= i < |rows| ==>
               rows[i].agg == agg && rows[i].version == top + 1 + i && !InLog(log, rows[i].id)
    ensures UnsentAbove(log, t.events + rows, Rebased(log, t, held, base, agg))
  {
    hide InLog, Count, Unsent;
    var after, base', n := t.events + rows, Rebased(log, t, held, base, agg), |t.events|;
    forall j: nat | j < |after| && !InLog(log, after[j].id)
      ensures after[j].version == base'(after[j].agg) + Unsent(log, after, after[j].agg, j) + 1
    {
      if j < n {
        UnsentAt(log, t.events, base, j);
        UnsentSame(log, t.events, after, after[j].agg, j);
      } else {
        assert after[j] == rows[j - n];
        UnsentOfNew(log, t.events, rows, agg, agg, j - n);
      }
    }
  }

  lemma AppendHolds(log: seq<Row>, events: seq<Row>, rows: seq<Row>, held: nat)
    requires held <= |log| && HoldsPrefix(log, events, held)
    requires forall i :: 0 <= i < |rows| ==> !InLog(log, rows[i].id)
    ensures HoldsPrefix(log, events + rows, held)
  {
    hide InLog;
    var after := events + rows;
    forall i | 0 <= i < held ensures log[i] in after {
      assert log[i] in events;
    }
    forall j: nat | |events| <= j < |after| ensures !InLog(log, after[j].id) {
      assert after[j] == rows[j - |events|];
    }
    forall j: nat | j < |after| && InLog(log, after[j].id) ensures exists i :: 0 <= i < held && log[i] == after[j] {
      assert j < |events| && after[j] == events[j];
      assert InLog(log, events[j].id);
    }
  }

  lemma AppendUnique(events: seq<Row>, rows: seq<Row>)
    requires UniqueEventIds(events) && UniqueEventIds(rows)
    requires forall i :: 0 <= i < |rows| ==> !HasId(events, rows[i].id)
    ensures UniqueEventIds(events + rows)
  {
    var after := events + rows;
    forall i, j | 0 <= i < j < |after| ensures after[i].id != after[j].id {
      if i < |events| <= j {
        assert !HasId(events, rows[j - |events|].id);
      }
    }
  }

  lemma RebasedBetween(log: seq<Row>, t: Tables, held: nat, base: Agg -> nat, agg: Agg)
    requires held <= |log| && BaseBetween(log, base, held)
    ensures BaseBetween(log, Rebased(log, t, held, base, agg), held)
  {
    CountMono(log, agg, held, |log|);
  }

  lemma AppendFollows(log: seq<Row>, vault: Keyring, c: Client, mapped: nat, held: nat, base: Agg -> nat,
                      agg: Agg, plains: seq<Plain>)
    requires LogOk(log) && held <= |log| && FollowsAt(log, vault, c, mapped, held, base) && agg.id in c.keys
    requires forall i, j :: 0 <= i < j < |plains| ==> plains[i].eventId != plains[j].eventId
    requires forall i :: 0 <= i < |plains| ==>
               !InLog(log, plains[i].eventId) && !HasId(c.t.events, plains[i].eventId)
    ensures FollowsAt(log, vault, AppendRows(c, agg, plains), mapped, held, Rebased(log, c.t, held, base, agg))
  {
    hide HoldsPrefix, UnsentAbove, MapsPrefix, BaseBetween, InLog, HasId, LogOk, MaxVersion, Rebased;
    var top := MaxVersion(c.t.events, agg);
    var rows := NewRows(c.keys[agg.id], agg, top + 1, plains);
    MaxIsTop(log, vault, c.keys, c.t, mapped, held, base, agg);
    AppendAbove(log, c.t, held, base, agg, rows, top);
    AppendHolds(log, c.t.events, rows, held);
    AppendUnique(c.t.events, rows);
    RebasedBetween(log, c.t, held, base, agg);
  }

  // Pulling

  lemma CursorFollows(log: seq<Row>, vault: Keyring, keys: Keyring, t: Tables, mapped: nat, held: nat,
                      base: Agg -> nat, cursor: nat)
    requires Follows(log, vault, keys, t, mapped, held, base) && cursor <= mapped
    ensures Follows(log, vault, keys, t.(cursor := cursor), mapped, held, base)
  {
  }

  lemma ClientBounds(log: seq<Row>, vault: Keyring, c: Client, tight: bool)
    requires ClientOk(log, vault, c, tight)
    ensures c.t.cursor <= |log|
  {
  }

  /** Applying a gap-free page from the cursor, whether it completes or fails; the errors a client can meet. */
  lemma ApplyFromCursor(log: seq<Row>, vault: Keyring, c: Client, tight: bool, hi: nat, cursor: nat,
                        head: Option<nat>)
    requires LogOk(log) && GenuineLog(vault, log) && ClientOk(log, vault, c, tight)
    requires c.t.cursor <= hi <= |log|
    ensures var applied := ApplyRemote(c.t, c.keys, PageOf(log, c.t.cursor, hi));
            && applied.t.cursor == c.t.cursor
            && (applied.error == None || applied.error == Some(MaterializeFailed))
            && ((forall k :: c.t.cursor <= k < hi ==> log[k].agg.id in c.keys) ==> applied.error == None)
            && (applied.error == None && cursor <= hi ==>
                  ClientOk(log, vault, Client(applied.t.(cursor := cursor), c.keys, head), tight && cursor == hi))
            && ClientOk(log, vault, Client(applied.t, c.keys, head), tight && applied.error != None)
  {
    hide Follows, LogOk, GenuineLog, ApplyRemote;
    var mapped, held, base :| FollowsAt(log, vault, c, mapped, held, base)
                            && (tight ==> mapped == c.t.cursor);
    FollowsBounds(log, vault, c.keys, c.t, mapped, held, base);
    var base' := PageFollows(log, vault, c.keys, c.t, mapped, held, base, c.t.cursor, hi);
    var applied := ApplyRemote(c.t, c.keys, PageOf(log, c.t.cursor, hi));
    if applied.error == None {
      assert FollowsAt(log, vault, Client(applied.t, c.keys, head), Max(mapped, hi), Max(held, hi), base');
      if cursor <= hi {
        CursorFollows(log, vault, c.keys, applied.t, Max(mapped, hi), Max(held, hi), base', cursor);
        assert FollowsAt(log, vault, Client(applied.t.(cursor := cursor), c.keys, head), Max(mapped, hi),
                         Max(held, hi), base');
      }
    } else {
      assert FollowsAt(log, vault, Client(applied.t, c.keys, head), mapped, held, base');
    }
  }

  lemma Loosen(log: seq<Row>, vault: Keyring, c: Client, tight: bool)
    requires ClientOk(log, vault, c, true) || ClientOk(log, vault, c, tight)
    ensures ClientOk(log, vault, c, tight) && ClientOk(log, vault, c, false)
  {
    hide Follows;
    var mapped, held, base :| FollowsAt(log, vault, c, mapped, held, base) && (tight ==> mapped == c.t.cursor);
    assert FollowsAt(log, vault, c, mapped, held, base);
  }

  lemma HeadIsFree(log: seq<Row>, vault: Keyring, c: Client, tight: bool, head: Option<nat>)
    requires ClientOk(log, vault, c, tight)
    ensures ClientOk(log, vault, c.(lastKnownHead := head), tight)
  {
    var mapped, held, base :| FollowsAt(log, vault, c, mapped, held, base) && (tight ==> mapped == c.t.cursor);
    assert FollowsAt(log, vault, c.(lastKnownHead := head), mapped, held, base);
  }

  lemma PullKeepsClient(log: seq<Row>, vault: Keyring, c: Client, tight: bool, limit: nat, written: bool)
    requires LogOk(log) && GenuineLog(vault, log) && ClientOk(log, vault, c, tight) && limit > 0
    ensures ClientOk(log, vault, PullStep(c, log, limit, written), tight && written)
  {
    hide ClientOk, LogOk, GenuineLog, ApplyRemote;
    var response := PullOutcome(log, c.t.cursor, limit);
    if response.events == [] {
      HeadIsFree(log, vault, c, tight, Some(response.head));
      if !written { Loosen(log, vault, c.(lastKnownHead := Some(response.head)), tight); }
      assert c.t.(cursor := c.t.cursor) == c.t;
    } else {
      var hi := response.nextSince.value;
      var applied := ApplyRemote(c.t, c.keys, PageOf(log, c.t.cursor, hi));
      ApplyFromCursor(log, vault, c, tight, hi, hi, Some(response.head));
      if applied.error != None && !written {
        Loosen(log, vault, Client(applied.t, c.keys, Some(response.head)), tight);
      }
      assert applied.t.(cursor := hi).(cursor := c.t.cursor) == applied.t == applied.t.(cursor := c.t.cursor);
    }
  }

  // Which ids a page can bring

  ghost predicate InPage(page: seq<Incoming>, id: Id) {
    exists k :: 0 <= k < |page| && page[k].record.id == id
  }

  ghost predicate Inserts(batch: seq<Stmt>, id: Id) {
    exists k :: 0 <= k < |batch| && batch[k].InsertEvent? && batch[k].row.id == id
  }

  lemma {:induction false} ExecAllIds(t: Tables, batch: seq<Stmt>, id: Id)
    requires HasId(ExecAll(t, batch).events, id)
    ensures HasId(t.events, id) || Inserts(batch, id)
  {
    if batch != [] {
      var init, s := batch[..|batch| - 1], batch[|batch| - 1];
      var before := ExecAll(t, init);
      if HasId(before.events, id) {
        ExecAllIds(t, init, id);
        if k :| 0 <= k < |init| && init[k].InsertEvent? && init[k].row.id == id {
          assert batch[k] == init[k];
        }
      } else {
        var j :| 0 <= j < |Exec(before, s).events| && Exec(before, s).events[j].id == id;
        assert j == |before.events|;
        assert batch[|batch| - 1].InsertEvent?;
      }
    }
  }

  lemma {:induction false} ApplyEachIds(t: Tables, keys: Keyring, page: seq<Incoming>, id: Id)
    ensures var p := ApplyEach(t, keys, page);
            (HasId(p.t.events, id) ==> HasId(t.events, id)) && (Inserts(p.queue, id) ==> InPage(page, id))
  {
    if page != [] {
      var init, e := page[..|page| - 1], page[|page| - 1];
      ApplyEachIds(t, keys, init, id);
      var p := ApplyEach(t, keys, init);
      OneTurnIds(p, keys, e, id);
      if k :| 0 <= k < |init| && init[k].record.id == id { assert page[k].record.id == id; }
    }
  }

  lemma OneTurnIds(p: Pass, keys: Keyring, e: Incoming, id: Id)
    ensures var q := ApplyOne(p, keys, e);
            (HasId(q.t.events, id) ==> HasId(p.t.events, id))
            && (Inserts(q.queue, id) ==> Inserts(p.queue, id) || e.record.id == id)
  {
    hide CanShift, Occupied, Materializes;
    var q := ApplyOne(p, keys, e);
    if k :| 0 <= k < |q.queue| && q.queue[k].InsertEvent? && q.queue[k].row.id == id {
      if k < |p.queue| { assert p.queue[k] == q.queue[k]; }
    }
  }

  lemma ApplyRemoteIds(t: Tables, keys: Keyring, page: seq<Incoming>, id: Id)
    requires HasId(ApplyRemote(t, keys, page).t.events, id)
    ensures HasId(t.events, id) || InPage(page, id)
  {
    hide HasId, Inserts, InPage, ApplyEach, ExecAll;
    var p := ApplyEach(t, keys, page);
    ApplyEachIds(t, keys, page, id);
    if p.error == None {
      ExecAllIds(p.t, p.queue, id);
    }
  }

  /** A change that only adds events of the log keeps clients apart, on either side. */
  lemma ApartKept(log: seq<Row>, a: Client, a': Client, b: Client)
    requires Apart(log, a, b) && Apart(log, b, a)
    requires forall id :: HasId(a'.t.events, id) ==> HasId(a.t.events, id) || InLog(log, id)
    ensures Apart(log, a', b) && Apart(log, b, a')
  {
    hide InLog;
    forall j | 0 <= j < |a'.t.events| && !InLog(log, a'.t.events[j].id) ensures !HasId(b.t.events, a'.t.events[j].id) {
      assert HasId(a'.t.events, a'.t.events[j].id);
      var k :| 0 <= k < |a.t.events| && a.t.events[k].id == a'.t.events[j].id;
      assert !InLog(log, a.t.events[k].id);
    }
  }

  lemma PageOfLogIds(log: seq<Row>, lo: nat, hi: nat, id: Id)
    requires lo <= hi <= |log| && InPage(PageOf(log, lo, hi), id)
    ensures InLog(log, id)
  {
  }

  // Pushing

  /** An accepted push whose expected head is the applied cursor: the log grows by the batch, and the pusher
      follows the new log whether or not it learns of it. */
  lemma AcceptedFollows(log: seq<Row>, vault: Keyring, c: Client, mapped: nat, held: nat, base: Agg -> nat)
    requires LogOk(log) && FollowsAt(log, vault, c, mapped, held, base) && c.t.cursor == |log|
    ensures var batch := LoadPending(c.t, PUSH_BATCH_SIZE);
            var after := Appended(log, batch);
            && after == log + batch && LogOk(after) && |Assigned(log, batch)| == |batch|
            && ClientOk(after, vault, c, true)
            && ClientOk(after, vault, TakeAck(c, |after|, Assigned(log, batch)), true)
            && forall i :: 0 <= i < |batch| ==> batch[i] in c.t.events && !InLog(log, batch[i].id)
  {
    hide Follows, LogOk, LoadPending, Pending, Appended, Assigned, AssignAll, Unknown, InLog, UniqueEventIds;
    FollowsBounds(log, vault, c.keys, c.t, mapped, held, base);
    var batch := LoadPending(c.t, PUSH_BATCH_SIZE);
    var p := BatchIsPending(c.t, PUSH_BATCH_SIZE);
    PendingIsUnknown(log, vault, c.keys, c.t, base, p);
    var after := log + batch;
    AcceptedLogOk(log, vault, c, base, p);
    LogIdsUnique(after);
    LogIdsUnique(log);
    forall i: nat | i < |batch| ensures batch[i] in c.t.events && !InLog(log, batch[i].id) {
      var q := UnknownFrom(log, c.t.events, p, i);
    }
    BatchIsNew(log, batch);
    AppendedNew(log, batch);
    PushedFollows(log, vault, c.keys, c.t, base, p);
    assert FollowsAt(after, vault, c, |log|, |after|, AllOf(after));
    var assignments := Assigned(log, batch);
    assert NumbersFrom(after, assignments, |log|);
    AssignAllFollows(after, vault, c.keys, c.t, |log|, |after|, AllOf(after), assignments);
    var t := AssignAll(c.t, assignments);
    CursorFollows(after, vault, c.keys, t, |after|, |after|, AllOf(after), |after|);
    assert FollowsAt(after, vault, TakeAck(c, |after|, assignments), |after|, |after|, AllOf(after));
  }

  lemma BatchIsNew(log: seq<Row>, batch: seq<Row>)
    requires UniqueEventIds(log + batch)
    ensures UniqueEventIds(batch) && forall i :: 0 <= i < |batch| ==> !HasId(log, batch[i].id)
  {
    forall i, j | 0 <= i < j < |batch| ensures batch[i].id != batch[j].id {
      assert (log + batch)[|log| + i].id != (log + batch)[|log| + j].id;
    }
    forall i, k | 0 <= i < |batch| && 0 <= k < |log| ensures log[k].id != batch[i].id {
      assert (log + batch)[k].id != (log + batch)[|log| + i].id;
    }
  }

  lemma AcceptedLogOk(log: seq<Row>, vault: Keyring, c: Client, base: Agg -> nat, p: nat)
    requires LogOk(log) && FollowsAt(log, vault, c, |log|, |log|, base) && p <= |c.t.events|
    ensures LogOk(log + Unknown(log, c.t.events, p))
  {
    RowIdsUnique(log, vault, c.keys, c.t, |log|, |log|, base);
    hide Follows, LogOk, Unknown, UniqueEventIds;
    BaseSqueezed(log, vault, c.keys, c.t, |log|, base);
    PushedLogOk(log, vault, c.keys, c.t, |log|, |log|, base, p);
  }

  lemma RowIdsUnique(log: seq<Row>, vault: Keyring, keys: Keyring, t: Tables, mapped: nat, held: nat,
                     base: Agg -> nat)
    requires Follows(log, vault, keys, t, mapped, held, base)
    ensures UniqueEventIds(t.events) && forall j :: 0 <= j < |t.events| ==> Genuine(vault, t.events[j])
  {
  }

  /** The errors a push attempt can end in under the two hypotheses: a lost acknowledgement, or a missing key.
      Never a server that is behind, a collision with a synced event, a failed rewrite, a lost insert or a
      cursor that does not move. */
  lemma PushOutcomes(log: seq<Row>, vault: Keyring, c: Client, tight: bool, ackLost: bool)
    requires LogOk(log) && GenuineLog(vault, log) && ClientOk(log, vault, c, tight)
    requires ExpectedHead(c) == c.t.cursor && |log| <= c.t.cursor + MISSING_LIMIT
    ensures var r := PushAttempt(c, log, 1, ackLost);
            && r.error in {None, Some(ResponseLost), Some(MaterializeFailed)}
            && LogOk(r.log) && ClientOk(r.log, vault, r.client, tight)
            && (r.log == log || (r.client.t.events == c.t.events && r.log == log + LoadPending(c.t, PUSH_BATCH_SIZE)))
            && (c.t.cursor < |log| ==> r.log == log)
            && (!r.done ==> r.client.t.cursor == |log| == ExpectedHead(r.client))
    ensures var batch := LoadPending(c.t, PUSH_BATCH_SIZE);
            PushAttempt(c, log, 1, ackLost).log != log ==>
              forall i :: 0 <= i < |batch| ==> batch[i] in c.t.events && !InLog(log, batch[i].id)
  {
    hide Follows, LogOk, GenuineLog, LoadPending, ApplyRemote, InLog, AssignAll;
    var batch := LoadPending(c.t, PUSH_BATCH_SIZE);
    ClientBounds(log, vault, c, tight);
    if batch != [] {
      if c.t.cursor == |log| {
        var mapped, held, base :| FollowsAt(log, vault, c, mapped, held, base);
        AcceptedFollows(log, vault, c, mapped, held, base);
        Loosen(Appended(log, batch), vault, c, tight);
        Loosen(Appended(log, batch), vault, TakeAck(c, |Appended(log, batch)|, Assigned(log, batch)), tight);
        AssignAllKeepsEvents(c.t, Assigned(log, batch));
      } else {
        ConflictCarriesMissing(log, c.t.cursor, batch);
        ApplyFromCursor(log, vault, c, tight, |log|, |log|, Some(|log|));
        ApplyFromCursor(log, vault, c, tight, |log|, |log|, c.lastKnownHead);
      }
    }
  }

  lemma {:induction false} AssignAllKeepsEvents(t: Tables, assignments: seq<Assignment>)
    ensures AssignAll(t, assignments).events == t.events
    ensures AssignAll(t, assignments).snapshots == t.snapshots && AssignAll(t, assignments).cursor == t.cursor
  {
    if assignments != [] {
      AssignAllKeepsEvents(t, assignments[..|assignments| - 1]);
    }
  }

  // Steps and runs

  lemma GenuineExtends(vault: Keyring, log: seq<Row>, batch: seq<Row>)
    requires GenuineLog(vault, log) && forall i :: 0 <= i < |batch| ==> Genuine(vault, batch[i])
    ensures GenuineLog(vault, log + batch)
  {
  }

  lemma ApartInLongerLog(log: seq<Row>, more: seq<Row>, a: Client, b: Client)
    requires Apart(log, a, b)
    ensures Apart(log + more, a, b)
  {
    forall j | 0 <= j < |a.t.events| && !InLog(log + more, a.t.events[j].id) ensures !HasId(b.t.events, a.t.events[j].id) {
      InLogConcat(log, more, a.t.events[j].id);
    }
  }

  lemma OtherClientFollows(log: seq<Row>, batch: seq<Row>, vault: Keyring, pusher: Client, d: Client, tight: bool)
    requires ClientOk(log, vault, d, tight) && Apart(log, pusher, d)
    requires forall i :: 0 <= i < |batch| ==> batch[i] in pusher.t.events && !InLog(log, batch[i].id)
    ensures ClientOk(log + batch, vault, d, tight)
  {
    hide Follows;
    var mapped, held, base :| FollowsAt(log, vault, d, mapped, held, base) && (tight ==> mapped == d.t.cursor);
    forall i | 0 <= i < |batch| ensures !HasId(d.t.events, batch[i].id) {
      var k :| 0 <= k < |pusher.t.events| && pusher.t.events[k] == batch[i];
      assert !InLog(log, pusher.t.events[k].id);
    }
    forall j: nat | j < |d.t.events| ensures !InLog(batch, d.t.events[j].id) {
      forall i | 0 <= i < |batch| ensures batch[i].id != d.t.events[j].id {
        assert !HasId(d.t.events, batch[i].id);
      }
    }
    OthersFollow(log, batch, vault, d.keys, d.t, mapped, held, base);
    assert FollowsAt(log + batch, vault, d, mapped, held, base);
  }

  lemma ClientRowsGenuine(log: seq<Row>, vault: Keyring, c: Client, tight: bool)
    requires ClientOk(log, vault, c, tight)
    ensures forall j :: 0 <= j < |c.t.events| ==> Genuine(vault, c.t.events[j])
  {
  }

  /** One client changes, the log does not: enough to look at that client. */
  lemma OneClientChanges(s: System, vault: Keyring, tight: bool, i: nat, c': Client)
    requires SystemOk(s, vault, tight) && i < |s.clients| && ClientOk(s.log, vault, c', tight)
    requires forall d :: 0 <= d < |s.clients| && d != i ==>
               Apart(s.log, c', s.clients[d]) && Apart(s.log, s.clients[d], c')
    ensures SystemOk(s.(clients := s.clients[i := c']), vault, tight)
  {
    hide ClientOk, Apart, LogOk, GenuineLog;
  }

  lemma LoosenSystem(s: System, vault: Keyring, tight: bool, tight': bool)
    requires SystemOk(s, vault, tight) && (tight' ==> tight)
    ensures SystemOk(s, vault, tight')
  {
    hide ClientOk, Apart, LogOk, GenuineLog;
    forall c | 0 <= c < |s.clients| ensures ClientOk(s.log, vault, s.clients[c], tight') {
      Loosen(s.log, vault, s.clients[c], tight);
    }
  }

  lemma PullKeepsSystem(s: System, vault: Keyring, tight: bool, i: nat, limit: nat, written: bool)
    requires SystemOk(s, vault, tight) && i < |s.clients| && limit > 0
    ensures SystemOk(s.(clients := s.clients[i := PullStep(s.clients[i], s.log, limit, written)]), vault,
                     tight && written)
  {
    hide ClientOk, Apart, LogOk, GenuineLog;
    var c, c' := s.clients[i], PullStep(s.clients[i], s.log, limit, written);
    PullKeepsClient(s.log, vault, c, tight, limit, written);
    LoosenSystem(s, vault, tight, tight && written);
    forall id | HasId(c'.t.events, id) ensures HasId(c.t.events, id) || InLog(s.log, id) {
      PullStepIds(s.log, c, limit, written, id);
    }
    forall d | 0 <= d < |s.clients| && d != i ensures Apart(s.log, c', s.clients[d]) && Apart(s.log, s.clients[d], c') {
      ApartKept(s.log, c, c', s.clients[d]);
    }
    OneClientChanges(s, vault, tight && written, i, c');
  }

  lemma PullStepIds(log: seq<Row>, c: Client, limit: nat, written: bool, id: Id)
    requires HasId(PullStep(c, log, limit, written).t.events, id)
    ensures HasId(c.t.events, id) || InLog(log, id)
  {
    hide HasId, InLog, ApplyRemote;
    var response := PullOutcome(log, c.t.cursor, limit);
    if response.events != [] {
      ApplyRemoteIds(c.t, c.keys, response.events, id);
      if InPage(response.events, id) {
        PageOfLogIds(log, c.t.cursor, response.nextSince.value, id);
      }
    }
  }

  lemma PushIds(log: seq<Row>, vault: Keyring, c: Client, tight: bool, ackLost: bool, id: Id)
    requires ClientOk(log, vault, c, tight) && ExpectedHead(c) == c.t.cursor && |log| <= c.t.cursor + MISSING_LIMIT
    requires HasId(PushAttempt(c, log, 1, ackLost).client.t.events, id)
    ensures HasId(c.t.events, id) || InLog(log, id)
  {
    hide ClientOk, HasId, InLog, ApplyRemote, LoadPending, AssignAll;
    ClientBounds(log, vault, c, tight);
    var batch := LoadPending(c.t, PUSH_BATCH_SIZE);
    if batch != [] {
      if c.t.cursor == |log| {
        AssignAllKeepsEvents(c.t, Assigned(log, batch));
      } else {
        ConflictCarriesMissing(log, c.t.cursor, batch);
        ApplyRemoteIds(c.t, c.keys, PageOf(log, c.t.cursor, |log|), id);
        if InPage(PageOf(log, c.t.cursor, |log|), id) {
          PageOfLogIds(log, c.t.cursor, |log|, id);
        }
      }
    }
  }

  /** The pusher and the log change together. */
  lemma PushKeepsSystem(s: System, vault: Keyring, tight: bool, i: nat, ackLost: bool)
    requires SystemOk(s, vault, tight) && Enabled(s, vault, Push(i, ackLost))
    ensures SystemOk(Next(s, vault, Push(i, ackLost)), vault, tight)
  {
    hide ClientOk, Apart, LogOk, GenuineLog, PushAttempt, LoadPending, InLog, HasId;
    var c := s.clients[i];
    var pushed := PushAttempt(c, s.log, 1, ackLost);
    var batch := LoadPending(c.t, PUSH_BATCH_SIZE);
    PushOutcomes(s.log, vault, c, tight, ackLost);
    forall d | 0 <= d < |s.clients| && d != i
      ensures Apart(s.log, pushed.client, s.clients[d]) && Apart(s.log, s.clients[d], pushed.client)
    {
      forall id | HasId(pushed.client.t.events, id) ensures HasId(c.t.events, id) || InLog(s.log, id) {
        PushIds(s.log, vault, c, tight, ackLost, id);
      }
      ApartKept(s.log, c, pushed.client, s.clients[d]);
    }
    if pushed.log == s.log {
      OneClientChanges(s, vault, tight, i, pushed.client);
    } else {
      ClientRowsGenuine(s.log, vault, c, tight);
      GenuineExtends(vault, s.log, batch);
      forall d | 0 <= d < |s.clients| && d != i ensures ClientOk(pushed.log, vault, s.clients[d], tight) {
        OtherClientFollows(s.log, batch, vault, c, s.clients[d], tight);
      }
      var after := s.clients[i := pushed.client];
      forall a, b | 0 <= a < |after| && 0 <= b < |after| && a != b ensures Apart(pushed.log, after[a], after[b]) {
        ApartInLongerLog(s.log, batch, after[a], after[b]);
      }
    }
  }

  lemma AppendKeepsSystem(s: System, vault: Keyring, tight: bool, i: nat, agg: Agg, plains: seq<Plain>)
    requires SystemOk(s, vault, tight) && Enabled(s, vault, AppendLocal(i, agg, plains))
    ensures SystemOk(Next(s, vault, AppendLocal(i, agg, plains)), vault, tight)
  {
    hide Follows, LogOk, GenuineLog, InLog, MaxVersion;
    var c, c' := s.clients[i], AppendRows(s.clients[i], agg, plains);
    var mapped, held, base :| FollowsAt(s.log, vault, c, mapped, held, base) && (tight ==> mapped == c.t.cursor);
    FollowsBounds(s.log, vault, c.keys, c.t, mapped, held, base);
    AppendFollows(s.log, vault, c, mapped, held, base, agg, plains);
    assert ClientOk(s.log, vault, c', tight);
    forall d | 0 <= d < |s.clients| && d != i ensures Apart(s.log, c', s.clients[d]) && Apart(s.log, s.clients[d], c') {
      AppendStaysApart(s, i, d, agg, plains);
    }
    OneClientChanges(s, vault, tight, i, c');
  }

  lemma AppendStaysApart(s: System, i: nat, d: nat, agg: Agg, plains: seq<Plain>)
    requires i < |s.clients| && d < |s.clients| && agg.id in s.clients[i].keys && NewIds(s, plains)
    requires Apart(s.log, s.clients[i], s.clients[d]) && Apart(s.log, s.clients[d], s.clients[i])
    ensures var c' := AppendRows(s.clients[i], agg, plains);
            Apart(s.log, c', s.clients[d]) && Apart(s.log, s.clients[d], c')
  {
    hide InLog, MaxVersion;
    var c, c', other := s.clients[i], AppendRows(s.clients[i], agg, plains), s.clients[d];
    var n := |c.t.events|;
    forall j: nat | j < |c'.t.events| && !InLog(s.log, c'.t.events[j].id) ensures !HasId(other.t.events, c'.t.events[j].id) {
      if j < n {
        assert c'.t.events[j] == c.t.events[j];
      } else {
        assert c'.t.events[j].id == plains[j - n].eventId;
      }
    }
    forall j: nat | j < |other.t.events| && !InLog(s.log, other.t.events[j].id)
      ensures !HasId(c'.t.events, other.t.events[j].id)
    {
      forall k | 0 <= k < |c'.t.events| ensures c'.t.events[k].id != other.t.events[j].id {
        if k < n {
          assert c'.t.events[k] == c.t.events[k];
          assert !HasId(c.t.events, other.t.events[j].id);
        } else {
          assert c'.t.events[k].id == plains[k - n].eventId;
          assert !HasId(other.t.events, plains[k - n].eventId);
        }
      }
    }
  }

  lemma KeyFollows(log: seq<Row>, vault: Keyring, c: Client, tight: bool, aggId: string)
    requires ClientOk(log, vault, c, tight) && aggId in vault
    ensures ClientOk(log, vault, c.(keys := c.keys[aggId := vault[aggId]]), tight)
  {
    var mapped, held, base :| FollowsAt(log, vault, c, mapped, held, base) && (tight ==> mapped == c.t.cursor);
    assert FollowsAt(log, vault, c.(keys := c.keys[aggId := vault[aggId]]), mapped, held, base);
  }

  lemma SameRowsApart(log: seq<Row>, a: Client, a': Client, b: Client)
    requires a'.t == a.t && Apart(log, a, b) && Apart(log, b, a)
    ensures Apart(log, a', b) && Apart(log, b, a')
  {
  }

  /** No crash between applying a page and writing the cursor. */
  predicate Undisturbed(step: Step) {
    step.PullPage? ==> step.cursorWritten
  }

  /** Every step keeps the log well formed and every client in step with it. */
  lemma StepKeepsSystem(s: System, vault: Keyring, tight: bool, step: Step)
    requires SystemOk(s, vault, tight) && Enabled(s, vault, step)
    ensures SystemOk(Next(s, vault, step), vault, tight && Undisturbed(step)) && |Next(s, vault, step).clients| == |s.clients|
  {
    hide ClientOk, Apart, LogOk, GenuineLog, PushAttempt, PullStep, AppendRows;
    var c := s.clients[step.c];
    match step
    case LearnKey(i, aggId) =>
      var c' := c.(keys := c.keys[aggId := vault[aggId]]);
      KeyFollows(s.log, vault, c, tight, aggId);
      forall d | 0 <= d < |s.clients| && d != i ensures Apart(s.log, c', s.clients[d]) && Apart(s.log, s.clients[d], c') {
        SameRowsApart(s.log, c, c', s.clients[d]);
      }
      OneClientChanges(s, vault, tight, i, c');
    case AppendLocal(i, agg, plains) => AppendKeepsSystem(s, vault, tight, i, agg, plains);
    case PullPage(i, limit, written) => PullKeepsSystem(s, vault, tight, i, limit, written);
    case Push(i, ackLost) => PushKeepsSystem(s, vault, tight, i, ackLost);
    case Restart(i) =>
      var c' := c.(lastKnownHead := None);
      HeadIsFree(s.log, vault, c, tight, None);
      forall d | 0 <= d < |s.clients| && d != i ensures Apart(s.log, c', s.clients[d]) && Apart(s.log, s.clients[d], c') {
        SameRowsApart(s.log, c, c', s.clients[d]);
      }
      OneClientChanges(s, vault, tight, i, c');
  }

  ghost predicate Legal(s: System, vault: Keyring, steps: seq<Step>)
    decreases |steps|
  {
    steps == [] || (Enabled(s, vault, steps[0]) && Legal(Next(s, vault, steps[0]), vault, steps[1..]))
  }

  ghost function Run(s: System, vault: Keyring, steps: seq<Step>): System
    requires Legal(s, vault, steps)
    decreases |steps|
  {
    if steps == [] then s else Run(Next(s, vault, steps[0]), vault, steps[1..])
  }

  predicate AllUndisturbed(steps: seq<Step>) {
    forall i :: 0 <= i < |steps| ==> Undisturbed(steps[i])
  }

  lemma FirstThenRest(steps: seq<Step>)
    requires steps != []
    ensures AllUndisturbed(steps) <==> Undisturbed(steps[0]) && AllUndisturbed(steps[1..])
  {
    if Undisturbed(steps[0]) && AllUndisturbed(steps[1..]) {
      forall i | 0 <= i < |steps| ensures Undisturbed(steps[i]) {
        assert i > 0 ==> steps[i] == steps[1..][i - 1];
      }
    }
  }

  lemma {:induction false} RunKeepsSystem(s: System, vault: Keyring, steps: seq<Step>, tight: bool)
    requires SystemOk(s, vault, tight) && Legal(s, vault, steps)
    ensures SystemOk(Run(s, vault, steps), vault, tight && AllUndisturbed(steps))
    ensures |Run(s, vault, steps).clients| == |s.clients|
    decreases |steps|
  {
    hide SystemOk, Enabled, Next, AllUndisturbed, Undisturbed;
    if steps == [] {
      LoosenSystem(s, vault, tight, tight && AllUndisturbed(steps));
    } else {
      StepKeepsSystem(s, vault, tight, steps[0]);
      RunKeepsSystem(Next(s, vault, steps[0]), vault, steps[1..], tight && Undisturbed(steps[0]));
      FirstThenRest(steps);
    }
  }

  ghost predicate Initial(s: System, vault: Keyring) {
    && s.log == []
    && forall c :: 0 <= c < |s.clients| ==>
         s.clients[c].t == EMPTY && s.clients[c].lastKnownHead == None && KeysFrom(vault, s.clients[c].keys)
  }

  lemma InitialIsOk(s: System, vault: Keyring, tight: bool)
    requires Initial(s, vault)
    ensures SystemOk(s, vault, tight)
  {
    forall c | 0 <= c < |s.clients| ensures ClientOk(s.log, vault, s.clients[c], tight) {
      assert FollowsAt(s.log, vault, s.clients[c], 0, 0, AllOf([]));
    }
  }

  lemma ReachableIsOk(s: System, vault: Keyring, steps: seq<Step>)
    requires Initial(s, vault) && Legal(s, vault, steps)
    ensures SystemOk(Run(s, vault, steps), vault, AllUndisturbed(steps))
    ensures |Run(s, vault, steps).clients| == |s.clients|
  {
    InitialIsOk(s, vault, AllUndisturbed(steps));
    RunKeepsSystem(s, vault, steps, AllUndisturbed(steps));
  }

  // What every run guarantees

  /** In every run the server log holds each event once, the events of an aggregate at versions 1 .. n in log
      order, each readable under the aggregate's key for exactly that version. */
  lemma ServerLogSafe(s: System, vault: Keyring, steps: seq<Step>)
    requires Initial(s, vault) && Legal(s, vault, steps)
    ensures LogOk(Run(s, vault, steps).log) && GenuineLog(vault, Run(s, vault, steps).log)
  {
    hide Legal, Run, ClientOk;
    ReachableIsOk(s, vault, steps);
  }

  /** In every run, every server event at or below a client's cursor is a row of that client, mapped to that very
      sequence, and the client's tables respect the schema's uniqueness constraints. */
  lemma CursorSafe(s: System, vault: Keyring, steps: seq<Step>, c: nat)
    requires Initial(s, vault) && Legal(s, vault, steps) && c < |s.clients|
    ensures |Run(s, vault, steps).clients| == |s.clients|
    ensures var log, t := Run(s, vault, steps).log, Run(s, vault, steps).clients[c].t;
            && SchemaHolds(t) && t.cursor <= |log|
            && forall k :: 0 <= k < t.cursor ==>
                 log[k] in t.events && log[k].id in t.syncMap && t.syncMap[log[k].id] == k + 1
  {
    hide Legal, Run, Follows, LogOk, SchemaHolds, MapsPrefix;
    ReachableIsOk(s, vault, steps);
    var log, client := Run(s, vault, steps).log, Run(s, vault, steps).clients[c];
    var mapped, held, base :| FollowsAt(log, vault, client, mapped, held, base);
    FollowsBounds(log, vault, client.keys, client.t, mapped, held, base);
    FollowsImpliesSchema(log, vault, client.keys, client.t, mapped, held, base);
    MappedSequences(log, vault, client.keys, client.t, mapped, held, base);
  }

  lemma MappedSequences(log: seq<Row>, vault: Keyring, keys: Keyring, t: Tables, mapped: nat, held: nat,
                        base: Agg -> nat)
    requires Follows(log, vault, keys, t, mapped, held, base)
    ensures forall k :: 0 <= k < mapped ==> log[k].id in t.syncMap && t.syncMap[log[k].id] == k + 1
    ensures forall id :: id in t.syncMap ==> 1 <= t.syncMap[id] <= mapped && log[t.syncMap[id] - 1].id == id
  {
  }

  lemma {:induction false} NothingPending(t: Tables, n: nat)
    requires n <= |t.events| && Pending(t, n) == []
    ensures forall j :: 0 <= j < n ==> t.events[j].id in t.syncMap
  {
    if n > 0 {
      NothingPending(t, n - 1);
    }
  }

  /** A client with nothing pending and nothing mapped beyond its cursor is the log up to the cursor. */
  lemma SettledIsPrefix(log: seq<Row>, vault: Keyring, c: Client, r: Row)
    requires LogOk(log) && ClientOk(log, vault, c, true) && Pending(c.t, |c.t.events|) == []
    ensures c.t.cursor <= |log|
    ensures r in c.t.events <==> exists k :: 0 <= k < c.t.cursor && log[k] == r
    ensures forall id :: id in c.t.syncMap <==> exists k :: 0 <= k < c.t.cursor && log[k].id == id
  {
    hide Follows, LogOk, HoldsPrefix, KeysFrom;
    var mapped, held, base :| FollowsAt(log, vault, c, mapped, held, base) && mapped == c.t.cursor;
    FollowsBounds(log, vault, c.keys, c.t, mapped, held, base);
    MappedSequences(log, vault, c.keys, c.t, mapped, held, base);
    NothingPending(c.t, |c.t.events|);
    if r in c.t.events {
      var j :| 0 <= j < |c.t.events| && c.t.events[j] == r;
      var k := c.t.syncMap[r.id] - 1;
      assert InLog(log, r.id);
      var i := HeldRow(log, vault, c.keys, c.t, mapped, held, base, j);
      LogIdsUnique(log);
    }
  }

  /** Convergence: in every run where no pull is cut off before it writes its cursor, two clients at the same
      cursor with nothing pending hold the same events at the same versions, with the same sequences. */
  lemma Converged(s: System, vault: Keyring, steps: seq<Step>, a: nat, b: nat, r: Row, id: Id)
    requires Initial(s, vault) && Legal(s, vault, steps) && AllUndisturbed(steps)
    requires a < |s.clients| == |Run(s, vault, steps).clients| && b < |s.clients|
    requires var end := Run(s, vault, steps);
             end.clients[a].t.cursor == end.clients[b].t.cursor
             && Pending(end.clients[a].t, |end.clients[a].t.events|) == []
             && Pending(end.clients[b].t, |end.clients[b].t.events|) == []
    ensures var ta, tb := Run(s, vault, steps).clients[a].t, Run(s, vault, steps).clients[b].t;
            && (r in ta.events <==> r in tb.events)
            && (id in ta.syncMap <==> id in tb.syncMap)
            && (id in ta.syncMap ==> ta.syncMap[id] == tb.syncMap[id])
  {
    hide Legal, Run, ClientOk, LogOk, Apart;
    ReachableIsOk(s, vault, steps);
    var end := Run(s, vault, steps);
    SettledIsPrefix(end.log, vault, end.clients[a], r);
    SettledIsPrefix(end.log, vault, end.clients[b], r);
    if id in end.clients[a].t.syncMap && id in end.clients[b].t.syncMap {
      SameSequence(end.log, vault, end.clients[a], end.clients[b], id);
    }
  }

  lemma SameSequence(log: seq<Row>, vault: Keyring, a: Client, b: Client, id: Id)
    requires LogOk(log) && ClientOk(log, vault, a, true) && ClientOk(log, vault, b, true)
    requires id in a.t.syncMap && id in b.t.syncMap
    ensures a.t.syncMap[id] == b.t.syncMap[id]
  {
    LogIdsUnique(log);
    hide Follows, LogOk;
    var m, h, base :| FollowsAt(log, vault, a, m, h, base);
    var m', h', base' :| FollowsAt(log, vault, b, m', h', base');
    FollowsBounds(log, vault, a.keys, a.t, m, h, base);
    FollowsBounds(log, vault, b.keys, b.t, m', h', base');
    MappedSequences(log, vault, a.keys, a.t, m, h, base);
    MappedSequences(log, vault, b.keys, b.t, m', h', base');
  }

  /** A complete pull by a client that knows every aggregate key meets no error and ends with the cursor, and the
      head the next push will expect, at the server's head. */
  lemma {:induction false} PullCatchesUp(log: seq<Row>, vault: Keyring, c: Client, tight: bool, limit: nat)
    requires LogOk(log) && GenuineLog(vault, log) && ClientOk(log, vault, c, tight) && limit > 0
    requires forall k :: 0 <= k < |log| ==> log[k].agg.id in c.keys
    ensures var r := PullFrom(c, log, limit, c.t.cursor);
            && r.error == None && r.client.t.cursor == |log| == ExpectedHead(r.client)
            && ClientOk(log, vault, r.client, tight)
    decreases |log| - c.t.cursor
  {
    hide ClientOk, LogOk, GenuineLog, ApplyRemote;
    ClientBounds(log, vault, c, tight);
    var response := PullOutcome(log, c.t.cursor, limit);
    HeadIsFree(log, vault, c, tight, Some(response.head));
    if response.events != [] {
      var hi := response.nextSince.value;
      ApplyFromCursor(log, vault, c, tight, hi, hi, Some(response.head));
      var page := TakePage(c, response);
      if response.hasMore {
        PullCatchesUp(log, vault, page.client, tight, limit);
      }
    }
  }
}
