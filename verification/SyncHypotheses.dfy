/** The two hypotheses a push relies on, each shown to be needed: an expected head that is the fully applied
    cursor, and a conflict answer that covers the whole gap. */
module SyncHypotheses {
  import opened Wrappers
  import opened EventTables
  import opened RemoteApply
  import opened Replication
  import opened SyncServer
  import opened Pushing
  import opened SyncEngine
  import opened SyncProtocol

  ghost predicate CursorCovered(log: seq<Row>, t: Tables) {
    t.cursor <= |log| && forall k :: 0 <= k < t.cursor ==> log[k].id in t.syncMap
  }

  lemma TightMap(log: seq<Row>, vault: Keyring, c: Client)
    requires LogOk(log) && ClientOk(log, vault, c, true)
    ensures c.t.cursor <= |log|
    ensures forall k :: 0 <= k < |log| ==> (log[k].id in c.t.syncMap <==> k < c.t.cursor)
  {
    hide Follows, LogOk, HoldsPrefix, KeysFrom;
    var mapped, held, base :| FollowsAt(log, vault, c, mapped, held, base) && mapped == c.t.cursor;
    FollowsBounds(log, vault, c.keys, c.t, mapped, held, base);
    MappedSequences(log, vault, c.keys, c.t, mapped, held, base);
    LogIdsUnique(log);
  }

  /** A conflict answer moves the cursor to the server's head.  Every event below it has really been received if
      and only if the client was at most 1000 events behind; further behind, the events past the thousandth are
      skipped for good. */
  lemma ConflictCoversIff(log: seq<Row>, vault: Keyring, c: Client, ackLost: bool)
    requires LogOk(log) && GenuineLog(vault, log) && ClientOk(log, vault, c, true)
    requires ExpectedHead(c) == c.t.cursor < |log| && LoadPending(c.t, PUSH_BATCH_SIZE) != []
    requires forall k :: 0 <= k < |log| ==> log[k].agg.id in c.keys
    ensures var r := PushAttempt(c, log, 1, ackLost);
            && r.error == None && r.log == log && r.client.t.cursor == |log|
            && (CursorCovered(log, r.client.t) <==> |log| <= c.t.cursor + MISSING_LIMIT)
  {
    hide ClientOk, LogOk, GenuineLog, LoadPending, ApplyRemote;
    var batch := LoadPending(c.t, PUSH_BATCH_SIZE);
    var hi := if c.t.cursor + MISSING_LIMIT <= |log| then c.t.cursor + MISSING_LIMIT else |log|;
    ConflictCarriesMissing(log, c.t.cursor, batch);
    ApplyFromCursor(log, vault, c, true, hi, hi, None);
    var applied := ApplyRemote(c.t, c.keys, PageOf(log, c.t.cursor, hi));
    TightMap(log, vault, Client(applied.t.(cursor := hi), c.keys, None));
    assert hi < |log| ==> log[hi].id !in applied.t.syncMap;
  }

  // The clients below hold one pending event and have pulled nothing

  const AGG: Agg := Agg("project", "p")
  const OTHER: Agg := Agg("project", "q")

  function Entry(agg: Agg, version: nat, id: Id): Row {
    Row(id, agg, version, Sealed("k", agg, version, Plain(id, OtherBody(""))))
  }

  const VAULT: Keyring := map["p" := "k", "q" := "k"]

  const CLIENT: Client := Client(Tables([Entry(AGG, 1, "c")], map[], map[], 0), VAULT, None)

  // A conflict that skips events

  function Tally(n: nat): (id: Id)
    ensures |id| == n && forall i :: 0 <= i < n ==> id[i] == 'a'
  {
    if n == 0 then "" else Tally(n - 1) + "a"
  }

  /** As many events of one aggregate as wanted. */
  function LongLog(n: nat): (log: seq<Row>)
    ensures |log| == n && forall i :: 0 <= i < n ==> log[i] == Entry(OTHER, i + 1, Tally(i + 1))
  {
    seq(n, i requires 0 <= i < n => Entry(OTHER, i + 1, Tally(i + 1)))
  }

  lemma {:induction false} AllOther(log: seq<Row>, n: nat)
    requires n <= |log| && forall i :: 0 <= i < |log| ==> log[i].agg == OTHER
    ensures Count(log, OTHER, n) == n
  {
    if n > 0 {
      AllOther(log, n - 1);
    }
  }

  lemma LongLogIsOk(n: nat)
    ensures LogOk(LongLog(n)) && GenuineLog(VAULT, LongLog(n)) && ClientOk(LongLog(n), VAULT, CLIENT, true)
  {
    hide Count;
    var log, base := LongLog(n), (a: Agg) => 0;
    forall i: nat | i < n ensures log[i].version == Count(log, log[i].agg, i) + 1 {
      AllOther(log, i);
    }
    forall i, j | 0 <= i < j < n ensures log[i].id != log[j].id {
      assert |log[i].id| == i + 1 && |log[j].id| == j + 1;
    }
    forall i | 0 <= i < n ensures log[i].id != "c" {
      assert log[i].id[0] == 'a';
    }
    assert Unsent(log, CLIENT.t.events, AGG, 0) == 0;
    assert forall a :: Count(log, a, 0) == 0 by { NothingCounted(log); }
    assert FollowsAt(log, VAULT, CLIENT, 0, 0, base);
  }

  lemma NothingCounted(log: seq<Row>)
    ensures forall a :: Count(log, a, 0) == 0
  {
  }

  /** With more than 1000 events missing, whatever their number, the push ends without an error at the server's head,
      and some event below it has never been received. */
  lemma LongGapSkips(n: nat, ackLost: bool)
    requires n > MISSING_LIMIT
    ensures var r := PushAttempt(CLIENT, LongLog(n), 1, ackLost);
            && r.error == None && r.client.t.cursor == n
            && exists k :: 0 <= k < n && LongLog(n)[k].id !in r.client.t.syncMap
  {
    hide ClientOk, LogOk, GenuineLog, ApplyRemote, PushAttempt;
    LongLogIsOk(n);
    assert Pending(CLIENT.t, 0) == [];
    assert Pending(CLIENT.t, 1) == [Entry(AGG, 1, "c")];
    ConflictCoversIff(LongLog(n), VAULT, CLIENT, ackLost);
  }

  // A push between two pages of a pull

  /** Two events on the server, the second of the aggregate of the client's pending event. */
  const LOG: seq<Row> := [Entry(OTHER, 1, "a"), Entry(AGG, 1, "b")]

  lemma StartIsOk()
    ensures LogOk(LOG) && GenuineLog(VAULT, LOG) && ClientOk(LOG, VAULT, CLIENT, true)
  {
    var base := (a: Agg) => 0;
    forall id ensures InLog(LOG, id) <==> id in {"a", "b"} {
      if id == "a" { assert LOG[0].id == id; }
      if id == "b" { assert LOG[1].id == id; }
    }
    assert Count(LOG, AGG, 1) == 0 && Count(LOG, OTHER, 0) == 0;
    assert Unsent(LOG, CLIENT.t.events, AGG, 0) == 0;
    assert FollowsAt(LOG, VAULT, CLIENT, 0, 0, base);
  }

  /** After the first page of a longer pull the client already remembers the server's head, although its cursor is
      still behind it; a push at that point is accepted and puts a second version 1 of the aggregate in the log. */
  lemma PushBetweenPages()
    ensures LogOk(LOG) && GenuineLog(VAULT, LOG) && ClientOk(LOG, VAULT, CLIENT, true)
    ensures var paused := PullStep(CLIENT, LOG, 1, true);
            && ClientOk(LOG, VAULT, paused, true)
            && paused.t.cursor == 1 && ExpectedHead(paused) == |LOG|
            && PushAttempt(paused, LOG, 1, false).error == None
            && !LogOk(PushAttempt(paused, LOG, 1, false).log)
  {
    StartIsOk();
    PullKeepsClient(LOG, VAULT, CLIENT, true, 1, true);
    var page := PageOf(LOG, 0, 1);
    assert page == [Incoming(1, LOG[0])];
    var t := CLIENT.t;
    assert !HasId(t.events, "a") && !Occupied(t.events, OTHER, 1);
    var q := [InsertEvent(LOG[0]), InsertMap("a", 1)];
    assert page[..0] == [];
    assert ApplyEach(t, VAULT, []) == Pass(t, [], None);
    assert ApplyEach(t, VAULT, page) == Pass(t, q, None);
    var t' := t.(events := [t.events[0], LOG[0]], syncMap := map["a" := 1]);
    Inserted(t, q, t');
    assert AllPersisted(t'.events, q) by { assert t'.events[1].id == "a"; }
    assert ApplyRemote(t, VAULT, page) == Applied(t', None);
    var paused := PullStep(CLIENT, LOG, 1, true);
    assert paused == Client(t'.(cursor := 1), VAULT, Some(2));
    PushedTwice(paused);
  }

  lemma Inserted(t: Tables, q: seq<Stmt>, t': Tables)
    requires t == CLIENT.t && q == [InsertEvent(LOG[0]), InsertMap("a", 1)]
    requires t' == t.(events := [t.events[0], LOG[0]], syncMap := map["a" := 1])
    ensures ExecAll(t, q) == t'
  {
    var t1 := t.(events := [t.events[0], LOG[0]]);
    assert q[..1] == [q[0]] && q[..1][..0] == [];
    assert ExecAll(t, []) == t;
    assert !HasId(t.events, "a") && !Occupied(t.events, OTHER, 1);
    assert ExecAll(t, [q[0]]) == Exec(t, q[0]) == t1;
    assert HasId(t1.events, "a") by { assert t1.events[1].id == "a"; }
  }

  lemma PushedTwice(c: Client)
    requires c == Client(Tables([Entry(AGG, 1, "c"), LOG[0]], map["a" := 1], map[], 1), VAULT, Some(2))
    ensures ExpectedHead(c) == |LOG| && PushAttempt(c, LOG, 1, false).error == None
    ensures !LogOk(PushAttempt(c, LOG, 1, false).log)
  {
    var row := Entry(AGG, 1, "c");
    assert Pending(c.t, 1) == [row] by { assert Pending(c.t, 0) == []; }
    assert Pending(c.t, 2) == [row];
    var batch := LoadPending(c.t, PUSH_BATCH_SIZE);
    assert batch == [row];
    assert batch[..0] == [] && Appended(LOG, []) == LOG;
    assert !HasId(LOG, "c");
    var after := Appended(LOG, batch);
    assert after == LOG + [row];
    assert after[2] == row && after[1] == LOG[1];
    assert Count(after, AGG, 2) >= 1;
  }
}
