/** What a client's tables must be relative to the server's log, and that applying pages keeps it so. */
module Replication {
  import opened Wrappers
  import opened EventTables
  import opened RemoteApply

  // The log

  function Count(log: seq<Row>, agg: Agg, n: nat): (c: nat)
    requires n <= |log|
    ensures c <= n
  {
    if n == 0 then 0 else Count(log, agg, n - 1) + if log[n - 1].agg == agg then 1 else 0
  }

  ghost predicate InLog(log: seq<Row>, id: Id) {
    exists i :: 0 <= i < |log| && log[i].id == id
  }

  /** Each event once, and the events of an aggregate carry versions 1, 2, ... in log order. */
  ghost predicate LogOk(log: seq<Row>) {
    && UniqueEventIds(log)
    && forall i :: 0 <= i < |log| ==> log[i].version == Count(log, log[i].agg, i) + 1
  }

  lemma {:induction false} CountMono(log: seq<Row>, agg: Agg, i: nat, j: nat)
    requires i <= j <= |log|
    ensures Count(log, agg, i) <= Count(log, agg, j)
    ensures i < j && log[i].agg == agg ==> Count(log, agg, i) + 1 <= Count(log, agg, j)
    decreases j - i
  {
    if i < j {
      CountMono(log, agg, i + 1, j);
    }
  }

  lemma {:induction false} CountExtends(log: seq<Row>, more: seq<Row>, agg: Agg, n: nat)
    requires n <= |log|
    ensures Count(log + more, agg, n) == Count(log, agg, n)
  {
    if n > 0 {
      CountExtends(log, more, agg, n - 1);
    }
  }

  /** Within one aggregate, log versions rise with position. */
  lemma LogVersionsRise(log: seq<Row>, i: nat, j: nat)
    requires LogOk(log) && i < j < |log| && log[i].agg == log[j].agg
    ensures log[i].version < log[j].version
  {
    CountMono(log, log[i].agg, i, j);
  }

  // Local events the server does not have

  /** Among the first n rows, those of the aggregate that are not in the log. */
  ghost function Unsent(log: seq<Row>, events: seq<Row>, agg: Agg, n: nat): (c: nat)
    requires n <= |events|
    ensures c <= n
  {
    if n == 0 then 0 else
      Unsent(log, events, agg, n - 1) + if events[n - 1].agg == agg && !InLog(log, events[n - 1].id) then 1 else 0
  }

  lemma {:induction false} UnsentMono(log: seq<Row>, events: seq<Row>, agg: Agg, i: nat, j: nat)
    requires i <= j <= |events|
    ensures Unsent(log, events, agg, i) <= Unsent(log, events, agg, j)
    ensures (i < j && events[i].agg == agg && !InLog(log, events[i].id)) ==>
              Unsent(log, events, agg, i) + 1 <= Unsent(log, events, agg, j)
    decreases j - i
  {
    if i < j {
      UnsentMono(log, events, agg, i + 1, j);
    }
  }

  lemma {:induction false} UnsentSame(log: seq<Row>, a: seq<Row>, b: seq<Row>, agg: Agg, n: nat)
    requires n <= |a| && n <= |b|
    requires forall i :: 0 <= i < n ==> a[i].id == b[i].id && a[i].agg == b[i].agg
    ensures Unsent(log, a, agg, n) == Unsent(log, b, agg, n)
  {
    if n > 0 {
      UnsentSame(log, a, b, agg, n - 1);
    }
  }

  /** If some row counts, one is the first to count. */
  lemma {:induction false} FirstUnsent(log: seq<Row>, events: seq<Row>, agg: Agg, n: nat) returns (i: nat)
    requires n <= |events| && Unsent(log, events, agg, n) > 0
    ensures i < n && events[i].agg == agg && !InLog(log, events[i].id) && Unsent(log, events, agg, i) == 0
  {
    if Unsent(log, events, agg, n - 1) > 0 {
      i := FirstUnsent(log, events, agg, n - 1);
    } else {
      i := n - 1;
    }
  }

  // The relation between a client and the log

  /** Sealed under the aggregate's key for its own aggregate and version, and naming its own id. */
  ghost predicate Genuine(vault: Keyring, r: Row) {
    r.agg.id in vault && r.payload == Sealed(vault[r.agg.id], r.agg, r.version, r.payload.plain)
    && r.payload.plain.eventId == r.id
  }

  ghost predicate GenuineLog(vault: Keyring, log: seq<Row>) {
    forall i :: 0 <= i < |log| ==> Genuine(vault, log[i])
  }

  ghost predicate KeysFrom(vault: Keyring, keys: Keyring) {
    forall a :: a in keys ==> a in vault && keys[a] == vault[a]
  }

  /** The sync map is exactly the first `mapped` events of the log with their sequences. */
  ghost predicate MapsPrefix(log: seq<Row>, m: map<Id, nat>, mapped: nat)
    requires mapped <= |log|
  {
    && (forall i :: 0 <= i < mapped ==> log[i].id in m && m[log[i].id] == i + 1)
    && (forall id :: id in m ==> 1 <= m[id] <= mapped && log[m[id] - 1].id == id)
  }

  ghost predicate HoldsPrefix(log: seq<Row>, events: seq<Row>, held: nat)
    requires held <= |log|
  {
    && (forall i :: 0 <= i < held ==> log[i] in events)
    && (forall j {:trigger InLog(log, events[j].id)} :: 0 <= j < |events| && InLog(log, events[j].id) ==>
          exists i :: 0 <= i < held && log[i] == events[j])
  }

  /** The unsent rows of an aggregate have, in commit order, the versions just above its base. */
  ghost predicate UnsentAbove(log: seq<Row>, events: seq<Row>, base: Agg -> nat) {
    forall j {:trigger InLog(log, events[j].id)} :: 0 <= j < |events| && !InLog(log, events[j].id) ==>
      events[j].version == base(events[j].agg) + Unsent(log, events, events[j].agg, j) + 1
  }

  ghost predicate BaseBetween(log: seq<Row>, base: Agg -> nat, held: nat)
    requires held <= |log|
  {
    forall a :: Count(log, a, held) <= base(a) <= Count(log, a, |log|)
  }

  /** The first `mapped` log events are synced, the first `held` are local rows (the rest of those were pushed
      but their acknowledgement was lost), and every other local row waits above its aggregate's base.
      A base above Count(held) is room made by a page that failed after shifting. */
  ghost predicate Follows(log: seq<Row>, vault: Keyring, keys: Keyring, t: Tables, mapped: nat, held: nat,
                          base: Agg -> nat)
  {
    && t.cursor <= mapped <= held <= |log|
    && UniqueEventIds(t.events)
    && MapsPrefix(log, t.syncMap, mapped)
    && HoldsPrefix(log, t.events, held)
    && UnsentAbove(log, t.events, base)
    && BaseBetween(log, base, held)
    && KeysFrom(vault, keys)
    && (forall j :: 0 <= j < |t.events| ==> Genuine(vault, t.events[j]) && t.events[j].agg.id in keys)
  }

  /** A row in the log is at a version no higher than the aggregate's count among the held events. */
  lemma HeldVersion(log: seq<Row>, vault: Keyring, keys: Keyring, t: Tables, mapped: nat, held: nat,
                    base: Agg -> nat, j: nat)
    requires LogOk(log) && Follows(log, vault, keys, t, mapped, held, base)
    requires j < |t.events| && InLog(log, t.events[j].id)
    ensures 1 <= t.events[j].version <= Count(log, t.events[j].agg, held)
  {
    var i :| 0 <= i < held && log[i] == t.events[j];
    CountMono(log, log[i].agg, i, held);
  }

  lemma UnsentVersion(log: seq<Row>, vault: Keyring, keys: Keyring, t: Tables, mapped: nat, held: nat,
                      base: Agg -> nat, j: nat)
    requires Follows(log, vault, keys, t, mapped, held, base) && j < |t.events| && !InLog(log, t.events[j].id)
    ensures t.events[j].version == base(t.events[j].agg) + Unsent(log, t.events, t.events[j].agg, j) + 1
  {
  }

  lemma HeldRow(log: seq<Row>, vault: Keyring, keys: Keyring, t: Tables, mapped: nat, held: nat,
                base: Agg -> nat, j: nat) returns (i: nat)
    requires Follows(log, vault, keys, t, mapped, held, base)
    requires j < |t.events| && InLog(log, t.events[j].id)
    ensures i < held <= |log| && log[i] == t.events[j]
  {
    i :| 0 <= i < held && log[i] == t.events[j];
  }

  lemma RowIdsDiffer(log: seq<Row>, vault: Keyring, keys: Keyring, t: Tables, mapped: nat, held: nat,
                     base: Agg -> nat, i: nat, j: nat)
    requires Follows(log, vault, keys, t, mapped, held, base) && i < j < |t.events|
    ensures t.events[i].id != t.events[j].id
    ensures forall a :: Count(log, a, held) <= base(a)
  {
  }

  lemma VersionsDiffer(log: seq<Row>, vault: Keyring, keys: Keyring, t: Tables, mapped: nat, held: nat,
                       base: Agg -> nat, i: nat, j: nat)
    requires LogOk(log) && held <= |log| && Follows(log, vault, keys, t, mapped, held, base)
    requires i < j < |t.events| && t.events[i].agg == t.events[j].agg
    ensures t.events[i].version != t.events[j].version
  {
    hide Follows, LogOk, InLog;
    RowIdsDiffer(log, vault, keys, t, mapped, held, base, i, j);
    if InLog(log, t.events[i].id) && InLog(log, t.events[j].id) {
      var a := HeldRow(log, vault, keys, t, mapped, held, base, i);
      var b := HeldRow(log, vault, keys, t, mapped, held, base, j);
      if a < b { LogVersionsRise(log, a, b); } else { LogVersionsRise(log, b, a); }
    } else if InLog(log, t.events[i].id) {
      HeldVersion(log, vault, keys, t, mapped, held, base, i);
      UnsentVersion(log, vault, keys, t, mapped, held, base, j);
    } else if InLog(log, t.events[j].id) {
      HeldVersion(log, vault, keys, t, mapped, held, base, j);
      UnsentVersion(log, vault, keys, t, mapped, held, base, i);
    } else {
      UnsentVersion(log, vault, keys, t, mapped, held, base, i);
      UnsentVersion(log, vault, keys, t, mapped, held, base, j);
      UnsentMono(log, t.events, t.events[i].agg, i, j);
    }
  }

  lemma PrefixIsInjective(log: seq<Row>, m: map<Id, nat>, mapped: nat)
    requires mapped <= |log| && MapsPrefix(log, m, mapped)
    ensures UniqueSequences(m)
  {
  }

  lemma FollowsImpliesSchema(log: seq<Row>, vault: Keyring, keys: Keyring, t: Tables, mapped: nat, held: nat,
                             base: Agg -> nat)
    requires LogOk(log) && Follows(log, vault, keys, t, mapped, held, base)
    ensures SchemaHolds(t)
  {
    assert UniqueSequences(t.syncMap) by {
      PrefixIsInjective(log, t.syncMap, mapped);
    }
    forall i: nat, j: nat | i < j < |t.events| && t.events[i].agg == t.events[j].agg
      ensures t.events[i].version != t.events[j].version
    {
      VersionsDiffer(log, vault, keys, t, mapped, held, base, i, j);
    }
  }

  function Max(a: nat, b: nat): nat { if a < b then b else a }

  function Raise(base: Agg -> nat, agg: Agg, v: nat): Agg -> nat {
    (a: Agg) => if a == agg then Max(base(a), v) else base(a)
  }

  /** Who holds the version of the next unheld log event: nobody, or the first unsent row of its aggregate. */
  lemma NextCollision(log: seq<Row>, vault: Keyring, keys: Keyring, t: Tables, mapped: nat, held: nat,
                      base: Agg -> nat, k: nat)
    requires LogOk(log) && Follows(log, vault, keys, t, mapped, held, base)
    requires held <= k < |log| && Count(log, log[k].agg, k) <= base(log[k].agg)
    ensures forall j :: 0 <= j < |t.events| && t.events[j].agg == log[k].agg && InLog(log, t.events[j].id)
              ==> t.events[j].version < log[k].version
    ensures Occupied(t.events, log[k].agg, log[k].version) <==>
              base(log[k].agg) == log[k].version - 1 && Unsent(log, t.events, log[k].agg, |t.events|) > 0
    ensures Occupied(t.events, log[k].agg, log[k].version) ==>
              !InLog(log, t.events[OccupantAt(t.events, log[k].agg, log[k].version)].id)
  {
    var r := log[k];
    forall j | 0 <= j < |t.events| && t.events[j].agg == r.agg && InLog(log, t.events[j].id)
      ensures t.events[j].version < r.version
    {
      HeldVersion(log, vault, keys, t, mapped, held, base, j);
      CountMono(log, r.agg, held, k);
    }
    if Occupied(t.events, r.agg, r.version) {
      var j := OccupantAt(t.events, r.agg, r.version);
      UnsentMono(log, t.events, r.agg, j, |t.events|);
    }
    if base(r.agg) == r.version - 1 && Unsent(log, t.events, r.agg, |t.events|) > 0 {
      var i := FirstUnsent(log, t.events, r.agg, |t.events|);
      assert t.events[i].version == r.version;
    }
  }

  lemma NothingToClear(log: seq<Row>, vault: Keyring, keys: Keyring, t: Tables, mapped: nat, held: nat,
                       base: Agg -> nat, k: nat)
    requires LogOk(log) && Follows(log, vault, keys, t, mapped, held, base)
    requires k < |log| && !Occupied(t.events, log[k].agg, log[k].version)
    requires base(log[k].agg) >= log[k].version || Unsent(log, t.events, log[k].agg, |t.events|) == 0
    ensures Follows(log, vault, keys, t, mapped, held, Raise(base, log[k].agg, log[k].version))
  {
    var raised := Raise(base, log[k].agg, log[k].version);
    CountMono(log, log[k].agg, k, |log|);
    forall j | 0 <= j < |t.events| && !InLog(log, t.events[j].id)
      ensures t.events[j].version == raised(t.events[j].agg) + Unsent(log, t.events, t.events[j].agg, j) + 1
    {
      UnsentMono(log, t.events, t.events[j].agg, j, |t.events|);
    }
  }

  /** A collision with the next unheld event can be shifted away: exactly the unsent rows of its aggregate move. */
  lemma CollisionShifts(log: seq<Row>, vault: Keyring, keys: Keyring, t: Tables, mapped: nat, held: nat,
                        base: Agg -> nat, agg: Agg, version: nat)
    requires Follows(log, vault, keys, t, mapped, held, base) && base(agg) + 1 == version
    requires forall j: nat :: j < |t.events| && t.events[j].agg == agg && InLog(log, t.events[j].id)
               ==> t.events[j].version < version
    ensures forall j: nat :: j < |t.events| ==>
              (Moves(t, agg, version, j) <==> t.events[j].agg == agg && !InLog(log, t.events[j].id))
    ensures CanShift(t, keys, agg, version)
  {
    forall j: nat | j < |t.events|
      ensures Moves(t, agg, version, j) <==> t.events[j].agg == agg && !InLog(log, t.events[j].id)
    {
      if t.events[j].agg == agg && !InLog(log, t.events[j].id) {
        assert t.events[j].id !in t.syncMap;
      }
    }
  }

  /** Freeing the version of the next unheld event always succeeds: it moves exactly the unsent rows of the
      aggregate, or nothing. */
  lemma ClearFollows(log: seq<Row>, vault: Keyring, keys: Keyring, t: Tables, mapped: nat, held: nat,
                     base: Agg -> nat, k: nat) returns (cleared: Tables)
    requires LogOk(log) && Follows(log, vault, keys, t, mapped, held, base)
    requires held <= k < |log| && Count(log, log[k].agg, k) <= base(log[k].agg)
    ensures Clear(t, keys, log[k]) == Ok(cleared)
    ensures Follows(log, vault, keys, cleared, mapped, held, Raise(base, log[k].agg, log[k].version))
    ensures cleared.cursor == t.cursor && cleared.syncMap == t.syncMap
  {
    hide Follows, Occupied, CanShift, Raise;
    var r := log[k];
    NextCollision(log, vault, keys, t, mapped, held, base, k);
    if !Occupied(t.events, r.agg, r.version) {
      cleared := t;
      NothingToClear(log, vault, keys, t, mapped, held, base, k);
    } else {
      cleared := Shift(t, r.agg, r.version);
      CountMono(log, r.agg, k, |log|);
      assert t.events[OccupantAt(t.events, r.agg, r.version)].id !in t.syncMap by {
        UnmappedOutsideLog(log, vault, keys, t, mapped, held, base, OccupantAt(t.events, r.agg, r.version));
      }
      CollisionShifts(log, vault, keys, t, mapped, held, base, r.agg, r.version);
      ShiftFollows(log, vault, keys, t, mapped, held, base, r.agg, r.version);
    }
  }

  lemma UnmappedOutsideLog(log: seq<Row>, vault: Keyring, keys: Keyring, t: Tables, mapped: nat, held: nat,
                           base: Agg -> nat, j: nat)
    requires Follows(log, vault, keys, t, mapped, held, base)
    requires j < |t.events| && !InLog(log, t.events[j].id)
    ensures t.events[j].id !in t.syncMap
  {
  }

  /** A change of version and payload only leaves every row's place relative to the log. */
  lemma HoldsPrefixKept(log: seq<Row>, before: seq<Row>, after: seq<Row>, held: nat)
    requires held <= |log| && |before| == |after| && HoldsPrefix(log, before, held)
    requires forall j :: 0 <= j < |before| ==> before[j].id == after[j].id
    requires forall j :: 0 <= j < |before| && InLog(log, before[j].id) ==> before[j] == after[j]
    ensures HoldsPrefix(log, after, held)
  {
    forall i | 0 <= i < held ensures log[i] in after {
      var j :| 0 <= j < |before| && before[j] == log[i];
      assert InLog(log, before[j].id);
      assert after[j] == log[i];
    }
    forall j | 0 <= j < |after| && InLog(log, after[j].id) ensures exists i :: 0 <= i < held && log[i] == after[j] {
      assert InLog(log, before[j].id);
    }
  }

  lemma ShiftedAbove(log: seq<Row>, t: Tables, base: Agg -> nat, agg: Agg, version: nat)
    requires UnsentAbove(log, t.events, base) && version == base(agg) + 1
    requires forall j: nat :: j < |t.events| ==>
               (Moves(t, agg, version, j) <==> t.events[j].agg == agg && !InLog(log, t.events[j].id))
    ensures UnsentAbove(log, Shift(t, agg, version).events, Raise(base, agg, version))
  {
    var r := Shift(t, agg, version).events;
    forall j | 0 <= j < |r| && !InLog(log, r[j].id)
      ensures r[j].version == Raise(base, agg, version)(r[j].agg) + Unsent(log, r, r[j].agg, j) + 1
    {
      assert !InLog(log, t.events[j].id);
      UnsentSame(log, t.events, r, r[j].agg, j);
    }
  }

  lemma ShiftFollows(log: seq<Row>, vault: Keyring, keys: Keyring, t: Tables, mapped: nat, held: nat,
                     base: Agg -> nat, agg: Agg, version: nat)
    requires Follows(log, vault, keys, t, mapped, held, base)
    requires base(agg) + 1 == version <= Count(log, agg, |log|)
    requires forall j: nat :: j < |t.events| ==>
               (Moves(t, agg, version, j) <==> t.events[j].agg == agg && !InLog(log, t.events[j].id))
    ensures Follows(log, vault, keys, Shift(t, agg, version), mapped, held, Raise(base, agg, version))
  {
    hide HoldsPrefix, UnsentAbove, MapsPrefix;
    assert HoldsPrefix(log, Shift(t, agg, version).events, held) by {
      HoldsPrefixKept(log, t.events, Shift(t, agg, version).events, held);
    }
    ShiftedAbove(log, t, base, agg, version);
  }

  // A page of the log

  /** The events with sequences lo + 1 .. hi, as a pull or a conflict answer carries them. */
  function PageOf(log: seq<Row>, lo: nat, hi: nat): (page: seq<Incoming>)
    requires lo <= hi <= |log|
    ensures |page| == hi - lo
    ensures forall i :: 0 <= i < |page| ==> page[i] == Incoming(lo + i + 1, log[lo + i])
  {
    seq(hi - lo, i requires 0 <= i < hi - lo => Incoming(lo + i + 1, log[lo + i]))
  }

  function StmtsFor(log: seq<Row>, k: nat, held: nat): seq<Stmt>
    requires k < |log|
  {
    var mapEntry := InsertMap(log[k].id, k + 1);
    if k < held then [mapEntry] else [InsertEvent(log[k]), mapEntry]
  }

  function QueueFor(log: seq<Row>, lo: nat, hi: nat, held: nat): seq<Stmt>
    requires lo <= hi <= |log|
  {
    if lo == hi then [] else QueueFor(log, lo, hi - 1, held) + StmtsFor(log, hi - 1, held)
  }

  lemma HeldIffHasId(log: seq<Row>, t: Tables, held: nat, k: nat)
    requires UniqueEventIds(log) && held <= |log| && k < |log| && HoldsPrefix(log, t.events, held)
    ensures HasId(t.events, log[k].id) <==> k < held
  {
    if HasId(t.events, log[k].id) {
      var j :| 0 <= j < |t.events| && t.events[j].id == log[k].id;
      assert InLog(log, t.events[j].id);
      var i :| 0 <= i < held && log[i] == t.events[j];
    }
  }

  ghost predicate RoomUpTo(log: seq<Row>, base: Agg -> nat, n: nat)
    requires n <= |log|
  {
    forall a :: Count(log, a, n) <= base(a)
  }

  /** A log event that is not held yet is not in the table, and opens when its aggregate's key is known. */
  lemma NewEvent(log: seq<Row>, vault: Keyring, keys: Keyring, t: Tables, held: nat, k: nat)
    requires held <= k < |log| && UniqueEventIds(log) && Genuine(vault, log[k])
    requires HoldsPrefix(log, t.events, held) && KeysFrom(vault, keys)
    ensures !HasId(t.events, log[k].id)
    ensures Materializes(keys, log[k]) <==> log[k].agg.id in keys
  {
    HeldIffHasId(log, t, held, k);
  }

  lemma BaseMakesRoom(log: seq<Row>, vault: Keyring, keys: Keyring, t: Tables, mapped: nat, held: nat,
                      base: Agg -> nat)
    requires Follows(log, vault, keys, t, mapped, held, base)
    ensures RoomUpTo(log, base, held)
  {
  }

  lemma RaiseMakesRoom(log: seq<Row>, base: Agg -> nat, k: nat)
    requires LogOk(log) && k < |log| && RoomUpTo(log, base, k)
    ensures RoomUpTo(log, Raise(base, log[k].agg, log[k].version), k + 1)
  {
  }

  lemma RoomAt(log: seq<Row>, base: Agg -> nat, k: nat)
    requires k < |log| && RoomUpTo(log, base, k)
    ensures Count(log, log[k].agg, k) <= base(log[k].agg)
  {
  }

  /** One turn of the page loop. */
  lemma TurnFollows(log: seq<Row>, vault: Keyring, keys: Keyring, p: Pass, mapped: nat, held: nat,
                    base: Agg -> nat, k: nat) returns (q: Pass, base': Agg -> nat)
    requires LogOk(log) && k < |log| && Genuine(vault, log[k]) && held <= |log| && p.error == None
    requires Follows(log, vault, keys, p.t, mapped, held, base) && RoomUpTo(log, base, Max(held, k))
    ensures q == ApplyOne(p, keys, Incoming(k + 1, log[k]))
    ensures Follows(log, vault, keys, q.t, mapped, held, base')
    ensures q.t.syncMap == p.t.syncMap && q.t.cursor == p.t.cursor
    ensures q.error == if k < held || log[k].agg.id in keys then None else Some(MaterializeFailed)
    ensures q.error == None ==> q.queue == p.queue + StmtsFor(log, k, held) && RoomUpTo(log, base', Max(held, k + 1))
    ensures base' == if k < held then base else Raise(base, log[k].agg, log[k].version)
  {
    hide LogOk, HasId, Clear, Materializes, Follows, HoldsPrefix, KeysFrom, RoomUpTo, UniqueEventIds, Genuine, Raise;
    LogIdsUnique(log);
    FollowsBounds(log, vault, keys, p.t, mapped, held, base);
    q := ApplyOne(p, keys, Incoming(k + 1, log[k]));
    if k < held {
      HeldIffHasId(log, p.t, held, k);
      base' := base;
    } else {
      NewEvent(log, vault, keys, p.t, held, k);
      RoomAt(log, base, k);
      var cleared := ClearFollows(log, vault, keys, p.t, mapped, held, base, k);
      RaiseMakesRoom(log, base, k);
      base' := Raise(base, log[k].agg, log[k].version);
    }
  }

  /** One base is another lifted to at least the counts of the first n events. */
  ghost predicate Lifted(log: seq<Row>, base: Agg -> nat, base': Agg -> nat, n: nat)
    requires n <= |log|
  {
    forall a :: base'(a) == Max(base(a), Count(log, a, n))
  }

  lemma RaiseLifts(log: seq<Row>, base: Agg -> nat, base': Agg -> nat, k: nat)
    requires LogOk(log) && k < |log| && Lifted(log, base, base', k)
    ensures Lifted(log, base, Raise(base', log[k].agg, log[k].version), k + 1)
  {
  }

  lemma LiftStarts(log: seq<Row>, vault: Keyring, keys: Keyring, t: Tables, mapped: nat, held: nat,
                   base: Agg -> nat)
    requires Follows(log, vault, keys, t, mapped, held, base)
    ensures Lifted(log, base, base, held)
  {
  }

  /** The page loop: whatever it has shifted so far, the tables still follow the log, with room for every event
      of the page seen so far; without an error the queue is what is left to insert. */
  lemma {:induction false} LoopFollows(log: seq<Row>, vault: Keyring, keys: Keyring, t: Tables, mapped: nat,
                                       held: nat, base: Agg -> nat, lo: nat, hi: nat)
    returns (p: Pass, base': Agg -> nat)
    requires LogOk(log) && GenuineLog(vault, log) && Follows(log, vault, keys, t, mapped, held, base)
    requires lo <= held <= |log| && lo <= hi <= |log|
    ensures p == ApplyEach(t, keys, PageOf(log, lo, hi))
    ensures Follows(log, vault, keys, p.t, mapped, held, base')
    ensures p.t.syncMap == t.syncMap && p.t.cursor == t.cursor
    ensures p.error == None || p.error == Some(MaterializeFailed)
    ensures p.error == None <==> forall k :: Max(lo, held) <= k < hi ==> log[k].agg.id in keys
    ensures p.error == None ==>
              p.queue == QueueFor(log, lo, hi, held) && RoomUpTo(log, base', Max(held, hi))
              && Lifted(log, base, base', Max(held, hi))
    decreases hi
  {
    hide LogOk, Follows, RoomUpTo, ApplyOne, StmtsFor, Genuine, Lifted, Raise;
    if lo == hi {
      p, base' := Pass(t, [], None), base;
      BaseMakesRoom(log, vault, keys, t, mapped, held, base);
      LiftStarts(log, vault, keys, t, mapped, held, base);
    } else {
      var k := hi - 1;
      p, base' := LoopFollows(log, vault, keys, t, mapped, held, base, lo, k);
      assert PageOf(log, lo, hi)[..hi - lo - 1] == PageOf(log, lo, k);
      if p.error == None {
        if k >= held {
          RaiseLifts(log, base, base', k);
        }
        p, base' := TurnFollows(log, vault, keys, p, mapped, held, base', k);
      } else {
        ErrorStops(p, keys, Incoming(k + 1, log[k]));
      }
    }
  }

  lemma ErrorStops(p: Pass, keys: Keyring, e: Incoming)
    requires p.error.Some?
    ensures ApplyOne(p, keys, e) == p
  {
  }

  // The final batch

  /** The next unheld event goes in: its id is new and its version is free. */
  lemma InsertIsNotIgnored(log: seq<Row>, vault: Keyring, keys: Keyring, t: Tables, k: nat, base: Agg -> nat)
    requires LogOk(log) && k < |log| && Follows(log, vault, keys, t, k, k, base) && RoomUpTo(log, base, k + 1)
    ensures !HasId(t.events, log[k].id) && !Occupied(t.events, log[k].agg, log[k].version)
  {
    HeldIffHasId(log, t, k, k);
    if Occupied(t.events, log[k].agg, log[k].version) {
      var j := OccupantAt(t.events, log[k].agg, log[k].version);
      if InLog(log, t.events[j].id) {
        HeldVersion(log, vault, keys, t, k, k, base, j);
      }
    }
  }

  lemma HoldsOneMore(log: seq<Row>, events: seq<Row>, k: nat)
    requires UniqueEventIds(log) && k < |log| && HoldsPrefix(log, events, k)
    ensures HoldsPrefix(log, events + [log[k]], k + 1)
  {
    var after := events + [log[k]];
    forall i | 0 <= i < k + 1 ensures log[i] in after {
      if i < k { assert log[i] in events; } else { assert after[|events|] == log[k]; }
    }
    forall j | 0 <= j < |after| && InLog(log, after[j].id) ensures exists i :: 0 <= i < k + 1 && log[i] == after[j] {
      if j < |events| {
        assert after[j] == events[j];
        assert InLog(log, events[j].id);
      } else {
        assert log[k] == after[j];
      }
    }
  }

  lemma AboveOneMore(log: seq<Row>, events: seq<Row>, base: Agg -> nat, r: Row)
    requires UnsentAbove(log, events, base) && exists i :: 0 <= i < |log| && log[i] == r
    ensures UnsentAbove(log, events + [r], base)
  {
    var after := events + [r];
    forall j | 0 <= j < |after| && !InLog(log, after[j].id)
      ensures after[j].version == base(after[j].agg) + Unsent(log, after, after[j].agg, j) + 1
    {
      assert j < |events| && after[j] == events[j] && !InLog(log, events[j].id);
      UnsentSame(log, events, after, after[j].agg, j);
    }
  }

  lemma NewIdStaysUnique(events: seq<Row>, r: Row)
    requires UniqueEventIds(events) && !HasId(events, r.id)
    ensures UniqueEventIds(events + [r])
  {
  }

  lemma InsertFollows(log: seq<Row>, vault: Keyring, keys: Keyring, t: Tables, k: nat, base: Agg -> nat)
    requires LogOk(log) && k < |log| && Follows(log, vault, keys, t, k, k, base) && RoomUpTo(log, base, k + 1)
    requires Genuine(vault, log[k]) && log[k].agg.id in keys
    ensures Follows(log, vault, keys, Exec(t, InsertEvent(log[k])), k, k + 1, base)
    ensures Exec(t, InsertEvent(log[k])) == t.(events := t.events + [log[k]])
  {
    hide HoldsPrefix, MapsPrefix, UnsentAbove, KeysFrom, HasId, Occupied, Genuine, LogOk, UniqueEventIds;
    InsertIsNotIgnored(log, vault, keys, t, k, base);
    LogIdsUnique(log);
    HoldsOneMore(log, t.events, k);
    AboveOneMore(log, t.events, base, log[k]);
    NewIdStaysUnique(t.events, log[k]);
    assert BaseBetween(log, base, k + 1);
  }

  lemma MapsOneMore(log: seq<Row>, m: map<Id, nat>, k: nat)
    requires UniqueEventIds(log) && k < |log| && MapsPrefix(log, m, k)
    ensures log[k].id !in m && k + 1 !in m.Values
    ensures MapsPrefix(log, m[log[k].id := k + 1], k + 1)
  {
  }

  lemma MapStatement(log: seq<Row>, t: Tables, mapped: nat, held: nat, k: nat)
    requires UniqueEventIds(log) && k <= mapped && k < held && mapped <= held <= |log|
    requires MapsPrefix(log, t.syncMap, mapped) && HoldsPrefix(log, t.events, held)
    ensures Exec(t, InsertMap(log[k].id, k + 1)) ==
              if k < mapped then t else t.(syncMap := t.syncMap[log[k].id := k + 1])
  {
    hide HoldsPrefix, UniqueEventIds, HasId;
    HeldIffHasId(log, t, held, k);
    if k == mapped {
      MapsOneMore(log, t.syncMap, k);
    }
  }

  lemma MapFollows(log: seq<Row>, vault: Keyring, keys: Keyring, t: Tables, mapped: nat, held: nat, base: Agg -> nat,
                   k: nat)
    requires UniqueEventIds(log) && k <= mapped && k < held && Follows(log, vault, keys, t, mapped, held, base)
    ensures Follows(log, vault, keys, Exec(t, InsertMap(log[k].id, k + 1)), Max(mapped, k + 1), held, base)
    ensures Exec(t, InsertMap(log[k].id, k + 1)).cursor == t.cursor
  {
    hide HoldsPrefix, MapsPrefix, UnsentAbove, BaseBetween, UniqueEventIds, Exec;
    MapStatement(log, t, mapped, held, k);
    if k == mapped {
      MapsOneMore(log, t.syncMap, k);
    }
  }

  lemma ExecAllConcat(t: Tables, a: seq<Stmt>, s: Stmt)
    ensures ExecAll(t, a + [s]) == Exec(ExecAll(t, a), s)
  {
    assert (a + [s])[..|a + [s]| - 1] == a;
  }

  lemma NothingToRun(t: Tables)
    ensures ExecAll(t, []) == t
  {
  }

  lemma GenuineAt(vault: Keyring, log: seq<Row>, k: nat)
    requires GenuineLog(vault, log) && k < |log|
    ensures Genuine(vault, log[k])
  {
  }

  lemma ExecStmtsFor(t: Tables, q: seq<Stmt>, log: seq<Row>, k: nat, held: nat)
    requires k < |log|
    ensures ExecAll(t, q + StmtsFor(log, k, held)) == AfterEvent(ExecAll(t, q), log, k, held)
  {
    var m := InsertMap(log[k].id, k + 1);
    if k < held {
      ExecAllConcat(t, q, m);
    } else {
      ExecAllConcat(t, q, InsertEvent(log[k]));
      ExecAllConcat(t, q + [InsertEvent(log[k])], m);
      assert q + StmtsFor(log, k, held) == q + [InsertEvent(log[k])] + [m];
    }
  }

  function AfterEvent(t: Tables, log: seq<Row>, k: nat, held: nat): Tables
    requires k < |log|
  {
    Exec(if k < held then t else Exec(t, InsertEvent(log[k])), InsertMap(log[k].id, k + 1))
  }

  lemma EventFollows(log: seq<Row>, vault: Keyring, keys: Keyring, t: Tables, mapped: nat, held: nat,
                     base: Agg -> nat, k: nat)
    requires LogOk(log) && k < |log| && mapped <= held <= |log| && Follows(log, vault, keys, t, mapped, held, base)
    requires k <= mapped && RoomUpTo(log, base, Max(held, k + 1))
    requires k >= held ==> Genuine(vault, log[k]) && log[k].agg.id in keys
    ensures Follows(log, vault, keys, AfterEvent(t, log, k, held), Max(mapped, k + 1), Max(held, k + 1), base)
    ensures AfterEvent(t, log, k, held).cursor == t.cursor
  {
    hide Follows, LogOk, Exec, Genuine, RoomUpTo, UniqueEventIds;
    LogIdsUnique(log);
    if k < held {
      MapFollows(log, vault, keys, t, mapped, held, base, k);
    } else {
      InsertFollows(log, vault, keys, t, k, base);
      MapFollows(log, vault, keys, Exec(t, InsertEvent(log[k])), k, k + 1, base, k);
    }
  }

  /** Running the queue: every event of the page ends up held and mapped. */
  lemma {:induction false} QueueFollows(log: seq<Row>, vault: Keyring, keys: Keyring, t: Tables, mapped: nat,
                                        held: nat, base: Agg -> nat, lo: nat, hi: nat) returns (done: Tables)
    requires LogOk(log) && GenuineLog(vault, log) && Follows(log, vault, keys, t, mapped, held, base)
    requires lo <= mapped <= held <= |log| && lo <= hi <= |log| && RoomUpTo(log, base, Max(held, hi))
    requires forall k :: Max(lo, held) <= k < hi ==> log[k].agg.id in keys
    ensures done == ExecAll(t, QueueFor(log, lo, hi, held)) && done.cursor == t.cursor
    ensures Follows(log, vault, keys, done, Max(mapped, hi), Max(held, hi), base)
    decreases hi
  {
    hide Follows, LogOk, Exec, ExecAll, RoomUpTo, Genuine, GenuineLog, StmtsFor;
    if lo == hi {
      done := t;
      assert ExecAll(t, []) == t by { NothingToRun(t); }
    } else {
      var k := hi - 1;
      GenuineAt(vault, log, k);
      RoomShrinks(log, base, Max(held, k), Max(held, hi));
      var before := QueueFollows(log, vault, keys, t, mapped, held, base, lo, k);
      ExecStmtsFor(t, QueueFor(log, lo, k, held), log, k, held);
      done := AfterEvent(before, log, k, held);
      EventFollows(log, vault, keys, before, Max(mapped, k), Max(held, k), base, k);
    }
  }

  lemma FollowsBounds(log: seq<Row>, vault: Keyring, keys: Keyring, t: Tables, mapped: nat, held: nat,
                      base: Agg -> nat)
    requires Follows(log, vault, keys, t, mapped, held, base)
    ensures t.cursor <= mapped <= held <= |log|
    ensures HoldsPrefix(log, t.events, held) && KeysFrom(vault, keys)
    ensures forall i :: 0 <= i < held ==> log[i] in t.events
  {
  }

  lemma LogIdsUnique(log: seq<Row>)
    requires LogOk(log)
    ensures UniqueEventIds(log)
  {
  }

  lemma RoomShrinks(log: seq<Row>, base: Agg -> nat, m: nat, n: nat)
    requires m <= n <= |log| && RoomUpTo(log, base, n)
    ensures RoomUpTo(log, base, m)
  {
    forall a ensures Count(log, a, m) <= base(a) {
      CountMono(log, a, m, n);
    }
  }

  // The page as a whole

  lemma QueuePersisted(log: seq<Row>, events: seq<Row>, lo: nat, hi: nat, held: nat)
    requires lo <= hi <= |log| && forall i :: 0 <= i < hi ==> log[i] in events
    ensures AllPersisted(events, QueueFor(log, lo, hi, held))
  {
    var q := QueueFor(log, lo, hi, held);
    if lo < hi {
      QueuePersisted(log, events, lo, hi - 1, held);
      forall k | 0 <= k < |q| && q[k].InsertEvent? ensures HasId(events, q[k].row.id) {
        var front := QueueFor(log, lo, hi - 1, held);
        if k < |front| {
          assert q[k] == front[k];
        } else {
          assert q[k] == InsertEvent(log[hi - 1]);
        }
      }
    }
  }

  /** A page that continues from what is already mapped either applies completely, leaving its events held at
      their log versions with every unsent row above them in unchanged order, or stops at an event whose
      aggregate key is missing; then nothing is inserted, and the shifts made still leave room.  No collision
      with a synced row, failed rewrite or lost insert can happen. */
  lemma PageFollows(log: seq<Row>, vault: Keyring, keys: Keyring, t: Tables, mapped: nat, held: nat,
                    base: Agg -> nat, lo: nat, hi: nat) returns (base': Agg -> nat)
    requires LogOk(log) && GenuineLog(vault, log) && Follows(log, vault, keys, t, mapped, held, base)
    requires lo <= mapped && lo <= hi <= |log|
    ensures var r := ApplyRemote(t, keys, PageOf(log, lo, hi));
            && r.t.cursor == t.cursor
            && (r.error == None <==> forall k :: Max(lo, held) <= k < hi ==> log[k].agg.id in keys)
            && (r.error == None ==> Follows(log, vault, keys, r.t, Max(mapped, hi), Max(held, hi), base')
                                    && Lifted(log, base, base', Max(held, hi)))
            && (r.error != None ==> r.error == Some(MaterializeFailed)
                                    && Follows(log, vault, keys, r.t, mapped, held, base'))
  {
    hide Follows, LogOk, GenuineLog, ApplyEach, QueueFor, ExecAll;
    FollowsBounds(log, vault, keys, t, mapped, held, base);
    var p: Pass;
    p, base' := LoopFollows(log, vault, keys, t, mapped, held, base, lo, hi);
    if p.error == None {
      var done := QueueFollows(log, vault, keys, p.t, mapped, held, base', lo, hi);
      FollowsBounds(log, vault, keys, done, Max(mapped, hi), Max(held, hi), base');
      QueuePersisted(log, done.events, lo, hi, held);
    }
  }

  // The rows that were there before

  /** Every old row keeps its place, id, aggregate and plaintext; only versions may have moved. */
  ghost predicate KeepsRows(before: seq<Row>, after: seq<Row>) {
    && |before| <= |after|
    && forall j :: 0 <= j < |before| ==>
         before[j].id == after[j].id && before[j].agg == after[j].agg
         && before[j].payload.plain == after[j].payload.plain
  }

  lemma {:induction false} ExecAllKeepsRows(t: Tables, batch: seq<Stmt>)
    ensures KeepsRows(t.events, ExecAll(t, batch).events)
  {
    if batch != [] {
      ExecAllKeepsRows(t, batch[..|batch| - 1]);
    }
  }

  lemma {:induction false} ApplyEachKeepsRows(t: Tables, keys: Keyring, page: seq<Incoming>)
    ensures KeepsRows(t.events, ApplyEach(t, keys, page).t.events)
  {
    hide CanShift, Materializes, Occupied, HasId;
    if page != [] {
      ApplyEachKeepsRows(t, keys, page[..|page| - 1]);
    }
  }

  /** On any tables and any page, even one that fails. */
  lemma ApplyRemoteKeepsRows(t: Tables, keys: Keyring, page: seq<Incoming>)
    ensures KeepsRows(t.events, ApplyRemote(t, keys, page).t.events)
  {
    hide ApplyEach, ExecAll;
    var p := ApplyEach(t, keys, page);
    ApplyEachKeepsRows(t, keys, page);
    ExecAllKeepsRows(p.t, p.queue);
  }

  /** Rebase: when a page applies, its events are local rows at their log versions, and every unsent row of an
      aggregate has moved up by exactly the number of new remote events of that aggregate - so if it had k
      events from the server and p of its own at k+1 .. k+p, and the page brings r, its own are now at
      k+r+1 .. k+r+p, in the same order and with the same plaintexts. */
  lemma Rebase(log: seq<Row>, vault: Keyring, keys: Keyring, t: Tables, mapped: nat, held: nat,
               base: Agg -> nat, lo: nat, hi: nat, j: nat)
    requires LogOk(log) && GenuineLog(vault, log) && Follows(log, vault, keys, t, mapped, held, base)
    requires forall a :: base(a) == Count(log, a, held)
    requires lo <= mapped && held <= hi <= |log| && lo <= hi
    requires forall k :: held <= k < hi ==> log[k].agg.id in keys
    requires j < |t.events| && !InLog(log, t.events[j].id)
    ensures var r := ApplyRemote(t, keys, PageOf(log, lo, hi));
            && r.error == None
            && (forall k :: 0 <= k < hi ==> log[k] in r.t.events)
            && KeepsRows(t.events, r.t.events)
            && r.t.events[j].version ==
                 t.events[j].version + Count(log, t.events[j].agg, hi) - Count(log, t.events[j].agg, held)
  {
    hide Follows, LogOk, GenuineLog, ApplyRemote, KeepsRows;
    var base' := PageFollows(log, vault, keys, t, mapped, held, base, lo, hi);
    var after := ApplyRemote(t, keys, PageOf(log, lo, hi)).t;
    ApplyRemoteKeepsRows(t, keys, PageOf(log, lo, hi));
    FollowsBounds(log, vault, keys, after, Max(mapped, hi), Max(held, hi), base');
    KeptPrefix(t.events, after.events);
    UnsentSame(log, t.events, after.events, t.events[j].agg, j);
    UnsentVersion(log, vault, keys, t, mapped, held, base, j);
    UnsentVersion(log, vault, keys, after, Max(mapped, hi), Max(held, hi), base', j);
    CountMono(log, t.events[j].agg, held, hi);
  }

  lemma KeptPrefix(before: seq<Row>, after: seq<Row>)
    requires KeepsRows(before, after)
    ensures |before| <= |after|
    ensures forall j :: 0 <= j < |before| ==> before[j].id == after[j].id && before[j].agg == after[j].agg
  {
  }
}
