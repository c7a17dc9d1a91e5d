/** What accepting a client's push does to the log, and when that is safe. */
module Pushing {
  import opened Wrappers
  import opened EventTables
  import opened RemoteApply
  import opened Replication
  import opened SyncServer

  const PUSH_BATCH_SIZE: nat := 100

  // The pushed rows

  /** Among the first n rows, those the log does not have, in commit order. */
  ghost function Unknown(log: seq<Row>, events: seq<Row>, n: nat): (r: seq<Row>)
    requires n <= |events|
    ensures |r| <= n
  {
    if n == 0 then [] else
      Unknown(log, events, n - 1) + if InLog(log, events[n - 1].id) then [] else [events[n - 1]]
  }

  /** A batch is the pending rows among some first p rows. */
  lemma {:induction false} PendingTake(t: Tables, n: nat, count: nat) returns (p: nat)
    requires n <= |t.events| && count <= |Pending(t, n)|
    ensures p <= n && Pending(t, p) == Pending(t, n)[..count]
  {
    if count == |Pending(t, n)| {
      p := n;
      assert Pending(t, n)[..count] == Pending(t, n);
    } else {
      p := PendingTake(t, n - 1, count);
      assert Pending(t, n)[..count] == Pending(t, n - 1)[..count];
    }
  }

  lemma BatchIsPending(t: Tables, limit: nat) returns (p: nat)
    ensures p <= |t.events| && Pending(t, p) == LoadPending(t, limit)
  {
    var all := Pending(t, |t.events|);
    p := PendingTake(t, |t.events|, if |all| <= limit then |all| else limit);
  }

  lemma {:induction false} UnknownMember(log: seq<Row>, events: seq<Row>, n: nat, r: Row)
    requires n <= |events|
    ensures r in Unknown(log, events, n) <==> exists q :: 0 <= q < n && events[q] == r && !InLog(log, r.id)
  {
    if n > 0 {
      UnknownMember(log, events, n - 1, r);
    }
  }

  /** Accepting a push adds exactly the rows the server did not know, in commit order. */
  lemma {:induction false} AppendedPending(log: seq<Row>, t: Tables, mapped: nat, p: nat)
    requires mapped <= |log| && MapsPrefix(log, t.syncMap, mapped) && UniqueEventIds(t.events) && p <= |t.events|
    ensures Appended(log, Pending(t, p)) == log + Unknown(log, t.events, p)
  {
    hide MapsPrefix, UniqueEventIds, InLog, HasId, Appended;
    if p == 0 {
      AppendedNothing(log);
    } else {
      var r, front := t.events[p - 1], Unknown(log, t.events, p - 1);
      AppendedPending(log, t, mapped, p - 1);
      KnownToServer(log, t, mapped, p);
      AppendedSnoc(log, Pending(t, p - 1), r);
      assert front + [] == front && Pending(t, p - 1) + [] == Pending(t, p - 1);
      assert log + (front + [r]) == log + front + [r];
    }
  }

  lemma AppendedNothing(log: seq<Row>)
    ensures Appended(log, []) == log + []
  {
    assert log + [] == log;
  }

  lemma AppendedSnoc(log: seq<Row>, batch: seq<Row>, r: Row)
    ensures var before := Appended(log, batch);
            Appended(log, batch + [r]) == if HasId(before, r.id) then before else before + [r]
  {
    assert (batch + [r])[..|batch + [r]| - 1] == batch;
  }

  lemma KnownToServer(log: seq<Row>, t: Tables, mapped: nat, p: nat)
    requires mapped <= |log| && MapsPrefix(log, t.syncMap, mapped) && UniqueEventIds(t.events) && 0 < p <= |t.events|
    ensures HasId(log + Unknown(log, t.events, p - 1), t.events[p - 1].id) <==> InLog(log, t.events[p - 1].id)
    ensures t.events[p - 1].id in t.syncMap ==> InLog(log, t.events[p - 1].id)
  {
    hide UniqueEventIds;
    var id, u := t.events[p - 1].id, Unknown(log, t.events, p - 1);
    StillUnsent(log, t.events, p - 1, p - 1);
    assert HasId(log + u, id) <==> InLog(log + u, id);
  }

  lemma {:induction false} CountUnknown(log: seq<Row>, events: seq<Row>, agg: Agg, n: nat)
    requires n <= |events|
    ensures var u := Unknown(log, events, n); Count(u, agg, |u|) == Unsent(log, events, agg, n)
  {
    if n > 0 {
      CountUnknown(log, events, agg, n - 1);
      var front := Unknown(log, events, n - 1);
      assert front + [] == front;
      if !InLog(log, events[n - 1].id) {
        CountExtends(front, [events[n - 1]], agg, |front|);
      }
    }
  }

  lemma {:induction false} CountConcat(a: seq<Row>, b: seq<Row>, agg: Agg, n: nat)
    requires n <= |b|
    ensures Count(a + b, agg, |a| + n) == Count(a, agg, |a|) + Count(b, agg, n)
  {
    if n == 0 {
      CountExtends(a, b, agg, |a|);
    } else {
      CountConcat(a, b, agg, n - 1);
    }
  }

  /** The q-th row, if unknown to the log, is the entry after the unknown rows before it. */
  lemma {:induction false} UnknownAt(log: seq<Row>, events: seq<Row>, p: nat, q: nat)
    requires q < p <= |events| && !InLog(log, events[q].id)
    ensures var u := Unknown(log, events, p);
            |Unknown(log, events, q)| < |u| && u[..|Unknown(log, events, q)|] == Unknown(log, events, q)
            && u[|Unknown(log, events, q)|] == events[q]
    decreases p
  {
    if q < p - 1 {
      UnknownAt(log, events, p - 1, q);
    }
  }

  /** Every entry of Unknown is one of those rows. */
  lemma {:induction false} UnknownFrom(log: seq<Row>, events: seq<Row>, p: nat, i: nat) returns (q: nat)
    requires p <= |events| && i < |Unknown(log, events, p)|
    ensures q < p && !InLog(log, events[q].id) && |Unknown(log, events, q)| == i
    ensures Unknown(log, events, p)[i] == events[q]
  {
    if i < |Unknown(log, events, p - 1)| {
      q := UnknownFrom(log, events, p - 1, i);
    } else {
      q := p - 1;
    }
  }

  /** The version the log order gives to the entry pushed from row q. */
  lemma PushedCount(log: seq<Row>, events: seq<Row>, p: nat, q: nat)
    requires q < p <= |events| && !InLog(log, events[q].id)
    ensures var u := Unknown(log, events, p); var i := |log| + |Unknown(log, events, q)|;
            i < |log + u| && (log + u)[i] == events[q]
            && Count(log + u, events[q].agg, i)
               == Count(log, events[q].agg, |log|) + Unsent(log, events, events[q].agg, q)
  {
    var u, v, agg := Unknown(log, events, p), Unknown(log, events, q), events[q].agg;
    UnknownAt(log, events, p, q);
    CountConcat(log, u, agg, |v|);
    CountUnknown(log, events, agg, q);
    CountExtends(v, u[|v|..], agg, |v|);
    assert v + u[|v|..] == u;
  }

  lemma UnknownIdsUnique(log: seq<Row>, events: seq<Row>, p: nat)
    requires UniqueEventIds(log) && UniqueEventIds(events) && p <= |events|
    ensures UniqueEventIds(log + Unknown(log, events, p))
  {
    var u := Unknown(log, events, p);
    forall i, j | 0 <= i < j < |log + u| ensures (log + u)[i].id != (log + u)[j].id {
      if j >= |log| {
        var b := UnknownFrom(log, events, p, j - |log|);
        if i >= |log| {
          var a := UnknownFrom(log, events, p, i - |log|);
        }
      }
    }
  }

  ghost predicate NothingMissing(log: seq<Row>, events: seq<Row>, base: Agg -> nat, p: nat)
    requires p <= |events|
  {
    forall q :: 0 <= q < p && !InLog(log, events[q].id) ==> base(events[q].agg) == Count(log, events[q].agg, |log|)
  }

  lemma PushedEntry(log: seq<Row>, vault: Keyring, keys: Keyring, t: Tables, mapped: nat, held: nat,
                    base: Agg -> nat, p: nat, q: nat)
    requires Follows(log, vault, keys, t, mapped, held, base)
    requires q < p <= |t.events| && !InLog(log, t.events[q].id)
    ensures var after := log + Unknown(log, t.events, p); var i := |log| + |Unknown(log, t.events, q)|;
            i < |after| && after[i] == t.events[q]
            && (after[i].version == Count(after, after[i].agg, i) + 1
                <==> base(t.events[q].agg) == Count(log, t.events[q].agg, |log|))
  {
    hide Follows, Unknown, Count, InLog;
    PushedCount(log, t.events, p, q);
    UnsentVersion(log, vault, keys, t, mapped, held, base, q);
  }

  /** The log stays well formed exactly when every pushed aggregate's base is the server's count: when nothing
      of that aggregate is still missing below the client's own events. */
  lemma PushedLogOk(log: seq<Row>, vault: Keyring, keys: Keyring, t: Tables, mapped: nat, held: nat,
                    base: Agg -> nat, p: nat)
    requires LogOk(log) && Follows(log, vault, keys, t, mapped, held, base) && p <= |t.events|
    requires UniqueEventIds(t.events)
    ensures LogOk(log + Unknown(log, t.events, p)) <==> NothingMissing(log, t.events, base, p)
  {
    hide Follows, Unknown, Count, InLog, UniqueEventIds;
    var u, after := Unknown(log, t.events, p), log + Unknown(log, t.events, p);
    UnknownIdsUnique(log, t.events, p);
    if NothingMissing(log, t.events, base, p) {
      forall i: nat | i < |after| ensures after[i].version == Count(after, after[i].agg, i) + 1 {
        if i < |log| {
          CountExtends(log, u, after[i].agg, i);
        } else {
          var q := UnknownFrom(log, t.events, p, i - |log|);
          PushedEntry(log, vault, keys, t, mapped, held, base, p, q);
        }
      }
    } else {
      var q :| 0 <= q < p && !InLog(log, t.events[q].id)
               && base(t.events[q].agg) != Count(log, t.events[q].agg, |log|);
      PushedEntry(log, vault, keys, t, mapped, held, base, p, q);
    }
  }

  lemma {:induction false} CountSteady(log: seq<Row>, agg: Agg, i: nat, j: nat)
    requires i <= j <= |log|
    ensures Count(log, agg, i) == Count(log, agg, j) <==> forall k :: i <= k < j ==> log[k].agg != agg
    decreases j - i
  {
    if i < j {
      CountSteady(log, agg, i, j - 1);
      CountMono(log, agg, i, j - 1);
      if Count(log, agg, i) == Count(log, agg, j - 1) && log[j - 1].agg != agg {
        assert forall k :: i <= k < j ==> log[k].agg != agg;
      }
    }
  }

  /** A push that the server accepts because it was sent with the server's head keeps the log well formed if and
      only if no pushed aggregate has an event in the log that the client does not hold yet. */
  lemma AcceptedPushIff(log: seq<Row>, vault: Keyring, keys: Keyring, t: Tables, mapped: nat, held: nat,
                        base: Agg -> nat)
    requires LogOk(log) && Follows(log, vault, keys, t, mapped, held, base)
    requires forall a :: base(a) == Count(log, a, held)
    ensures var batch := LoadPending(t, PUSH_BATCH_SIZE);
            LogOk(PushOutcome(log, |log|, batch).0) <==>
              forall b, k :: 0 <= b < |batch| && held <= k < |log| && !InLog(log, batch[b].id)
                ==> log[k].agg != batch[b].agg
  {
    hide LogOk, Unknown, Unsent;
    var batch := LoadPending(t, PUSH_BATCH_SIZE);
    var p := BatchIsPending(t, PUSH_BATCH_SIZE);
    AppendedPending(log, t, mapped, p);
    PushedLogOk(log, vault, keys, t, mapped, held, base, p);
    assert batch == [] ==> Appended(log, batch) == log;
    MissingIff(log, t, mapped, held, base, p);
  }

  lemma {:induction false} PendingMember(t: Tables, p: nat, r: Row)
    requires p <= |t.events|
    ensures r in Pending(t, p) <==> exists q :: 0 <= q < p && t.events[q] == r && r.id !in t.syncMap
  {
    if p > 0 {
      PendingMember(t, p - 1, r);
    }
  }

  lemma MissingIff(log: seq<Row>, t: Tables, mapped: nat, held: nat, base: Agg -> nat, p: nat)
    requires mapped <= held <= |log| && MapsPrefix(log, t.syncMap, mapped) && p <= |t.events|
    requires forall a :: base(a) == Count(log, a, held)
    ensures var batch := Pending(t, p);
            NothingMissing(log, t.events, base, p) <==>
              forall b, k :: 0 <= b < |batch| && held <= k < |log| && !InLog(log, batch[b].id)
                ==> log[k].agg != batch[b].agg
  {
    hide MapsPrefix, Count;
    var batch := Pending(t, p);
    if NothingMissing(log, t.events, base, p) {
      forall b, k | 0 <= b < |batch| && held <= k < |log| && !InLog(log, batch[b].id)
        ensures log[k].agg != batch[b].agg
      {
        PendingMember(t, p, batch[b]);
        CountSteady(log, batch[b].agg, held, |log|);
      }
    } else {
      var q :| 0 <= q < p && !InLog(log, t.events[q].id)
               && base(t.events[q].agg) != Count(log, t.events[q].agg, |log|);
      CountSteady(log, t.events[q].agg, held, |log|);
      OutsideMap(log, t, mapped, q);
      PendingMember(t, p, t.events[q]);
      var b :| 0 <= b < |batch| && batch[b] == t.events[q];
    }
  }

  lemma OutsideMap(log: seq<Row>, t: Tables, mapped: nat, q: nat)
    requires mapped <= |log| && MapsPrefix(log, t.syncMap, mapped)
    requires q < |t.events| && !InLog(log, t.events[q].id)
    ensures t.events[q].id !in t.syncMap
  {
  }

  // What the push leaves behind

  lemma {:induction false} UnsentExtends(log: seq<Row>, more: seq<Row>, events: seq<Row>, agg: Agg, n: nat)
    requires n <= |events|
    requires forall j :: 0 <= j < n ==> !InLog(more, events[j].id)
    ensures Unsent(log + more, events, agg, n) == Unsent(log, events, agg, n)
  {
    if n > 0 {
      UnsentExtends(log, more, events, agg, n - 1);
      InLogConcat(log, more, events[n - 1].id);
    }
  }

  lemma InLogConcat(log: seq<Row>, more: seq<Row>, id: Id)
    ensures InLog(log + more, id) <==> InLog(log, id) || InLog(more, id)
  {
    if i :| 0 <= i < |log| && log[i].id == id { assert (log + more)[i].id == id; }
    if i :| 0 <= i < |more| && more[i].id == id { assert (log + more)[|log| + i].id == id; }
  }

  ghost predicate HoldsNone(events: seq<Row>, more: seq<Row>) {
    forall j :: 0 <= j < |events| ==> !InLog(more, events[j].id)
  }

  lemma OthersHold(log: seq<Row>, more: seq<Row>, events: seq<Row>, held: nat)
    requires held <= |log| && HoldsPrefix(log, events, held) && HoldsNone(events, more)
    ensures HoldsPrefix(log + more, events, held)
  {
    hide InLog;
    var after := log + more;
    assert forall i :: 0 <= i < held ==> after[i] == log[i];
    forall j | 0 <= j < |events| && InLog(after, events[j].id) ensures exists i :: 0 <= i < held && after[i] == events[j]
    {
      InLogConcat(log, more, events[j].id);
      var i :| 0 <= i < held && log[i] == events[j];
      assert after[i] == events[j];
    }
  }

  lemma OthersAbove(log: seq<Row>, more: seq<Row>, events: seq<Row>, base: Agg -> nat)
    requires UnsentAbove(log, events, base) && HoldsNone(events, more)
    ensures UnsentAbove(log + more, events, base)
  {
    hide InLog;
    forall j | 0 <= j < |events| && !InLog(log + more, events[j].id)
      ensures events[j].version == base(events[j].agg) + Unsent(log + more, events, events[j].agg, j) + 1
    {
      InLogConcat(log, more, events[j].id);
      UnsentExtends(log, more, events, events[j].agg, j);
    }
  }

  lemma OthersBetween(log: seq<Row>, more: seq<Row>, base: Agg -> nat, held: nat)
    requires held <= |log| && BaseBetween(log, base, held)
    ensures BaseBetween(log + more, base, held)
  {
    forall a ensures Count(log + more, a, held) <= base(a) <= Count(log + more, a, |log + more|) {
      CountExtends(log, more, a, held);
      CountExtends(log, more, a, |log|);
      CountMono(log + more, a, |log|, |log + more|);
    }
  }

  lemma OthersMap(log: seq<Row>, more: seq<Row>, m: map<Id, nat>, mapped: nat)
    requires mapped <= |log| && MapsPrefix(log, m, mapped)
    ensures MapsPrefix(log + more, m, mapped)
  {
    assert forall i :: 0 <= i < mapped ==> (log + more)[i] == log[i];
  }

  /** A client that holds none of the new events follows the longer log as it followed the shorter. */
  lemma OthersFollow(log: seq<Row>, more: seq<Row>, vault: Keyring, keys: Keyring, t: Tables, mapped: nat,
                     held: nat, base: Agg -> nat)
    requires Follows(log, vault, keys, t, mapped, held, base) && HoldsNone(t.events, more)
    ensures Follows(log + more, vault, keys, t, mapped, held, base)
  {
    hide HoldsPrefix, MapsPrefix, UnsentAbove, BaseBetween, KeysFrom, UniqueEventIds, HoldsNone;
    OthersHold(log, more, t.events, held);
    OthersAbove(log, more, t.events, base);
    OthersBetween(log, more, base, held);
    OthersMap(log, more, t.syncMap, mapped);
  }

  // The pusher itself, when its cursor was the head

  lemma {:induction false} UnsentAfterPush(log: seq<Row>, events: seq<Row>, agg: Agg, p: nat, n: nat)
    requires p <= n <= |events| && UniqueEventIds(events)
    ensures var after := log + Unknown(log, events, p);
            Unsent(after, events, agg, p) == 0
            && Unsent(after, events, agg, n) + Unsent(log, events, agg, p) == Unsent(log, events, agg, n)
    decreases n
  {
    var u := Unknown(log, events, p);
    if n > p {
      UnsentAfterPush(log, events, agg, p, n - 1);
      StillUnsent(log, events, p, n - 1);
    } else if p > 0 {
      PushedAreIn(log, events, p);
      NoneUnsent(log + u, events, agg, p);
    }
  }

  lemma {:induction false} NoneUnsent(log: seq<Row>, events: seq<Row>, agg: Agg, n: nat)
    requires n <= |events| && forall j :: 0 <= j < n ==> InLog(log, events[j].id)
    ensures Unsent(log, events, agg, n) == 0
  {
    if n > 0 {
      NoneUnsent(log, events, agg, n - 1);
    }
  }

  lemma PushedAreIn(log: seq<Row>, events: seq<Row>, p: nat)
    requires p <= |events|
    ensures forall j :: 0 <= j < p ==> InLog(log + Unknown(log, events, p), events[j].id)
  {
    var u := Unknown(log, events, p);
    forall j: nat | j < p ensures InLog(log + u, events[j].id) {
      InLogConcat(log, u, events[j].id);
      if !InLog(log, events[j].id) {
        UnknownAt(log, events, p, j);
        assert u[|Unknown(log, events, j)|].id == events[j].id;
      }
    }
  }

  lemma StillUnsent(log: seq<Row>, events: seq<Row>, p: nat, j: nat)
    requires p <= j < |events| && UniqueEventIds(events)
    ensures InLog(log + Unknown(log, events, p), events[j].id) <==> InLog(log, events[j].id)
  {
    var u := Unknown(log, events, p);
    InLogConcat(log, u, events[j].id);
    if InLog(u, events[j].id) {
      var k :| 0 <= k < |u| && u[k].id == events[j].id;
      var q := UnknownFrom(log, events, p, k);
    }
  }

  function AllOf(log: seq<Row>): Agg -> nat {
    (a: Agg) => Count(log, a, |log|)
  }

  lemma SyncedIffInLog(log: seq<Row>, vault: Keyring, keys: Keyring, t: Tables, base: Agg -> nat, j: nat)
    requires Follows(log, vault, keys, t, |log|, |log|, base) && j < |t.events|
    ensures t.events[j].id in t.syncMap <==> InLog(log, t.events[j].id)
  {
    if i :| 0 <= i < |log| && log[i].id == t.events[j].id { assert log[i].id in t.syncMap; }
  }

  lemma {:induction false} PendingIsUnknown(log: seq<Row>, vault: Keyring, keys: Keyring, t: Tables,
                                            base: Agg -> nat, p: nat)
    requires Follows(log, vault, keys, t, |log|, |log|, base) && p <= |t.events|
    ensures Pending(t, p) == Unknown(log, t.events, p)
  {
    hide Follows, InLog;
    if p > 0 {
      PendingIsUnknown(log, vault, keys, t, base, p - 1);
      SyncedIffInLog(log, vault, keys, t, base, p - 1);
    }
  }

  lemma PushedHold(log: seq<Row>, events: seq<Row>, p: nat)
    requires p <= |events| && HoldsPrefix(log, events, |log|) && UniqueEventIds(events)
    ensures var after := log + Unknown(log, events, p); HoldsPrefix(after, events, |after|)
  {
    hide InLog, UniqueEventIds;
    var u, after := Unknown(log, events, p), log + Unknown(log, events, p);
    forall i | 0 <= i < |after| ensures after[i] in events {
      if i >= |log| {
        var q := UnknownFrom(log, events, p, i - |log|);
      } else {
        assert log[i] in events;
      }
    }
    forall j: nat | j < |events| && InLog(after, events[j].id) ensures exists i :: 0 <= i < |after| && after[i] == events[j]
    {
      if InLog(log, events[j].id) {
        var i :| 0 <= i < |log| && log[i] == events[j];
        assert after[i] == events[j];
      } else if j < p {
        UnknownAt(log, events, p, j);
        assert after[|log| + |Unknown(log, events, j)|] == events[j];
      } else {
        StillUnsent(log, events, p, j);
      }
    }
  }

  lemma PushedRowAbove(log: seq<Row>, events: seq<Row>, base: Agg -> nat, p: nat, j: nat)
    requires p <= |events| && j < |events| && UniqueEventIds(events)
    requires base(events[j].agg) == Count(log, events[j].agg, |log|)
    requires events[j].version == base(events[j].agg) + Unsent(log, events, events[j].agg, j) + 1
    requires !InLog(log + Unknown(log, events, p), events[j].id)
    ensures var after := log + Unknown(log, events, p);
            events[j].version == AllOf(after)(events[j].agg) + Unsent(after, events, events[j].agg, j) + 1
  {
    hide UniqueEventIds, InLog, Unknown, Unsent, Count;
    var u, agg := Unknown(log, events, p), events[j].agg;
    PushedAreIn(log, events, p);
    UnsentAfterPush(log, events, agg, p, j);
    CountConcat(log, u, agg, |u|);
    CountUnknown(log, events, agg, p);
  }

  lemma PushedAbove(log: seq<Row>, events: seq<Row>, base: Agg -> nat, p: nat)
    requires p <= |events| && UniqueEventIds(events) && UnsentAbove(log, events, base)
    requires forall a :: base(a) == Count(log, a, |log|)
    ensures var after := log + Unknown(log, events, p); UnsentAbove(after, events, AllOf(after))
  {
    hide UniqueEventIds, InLog, Unknown, Unsent, Count, AllOf;
    var u, after := Unknown(log, events, p), log + Unknown(log, events, p);
    forall j: nat | j < |events| && !InLog(after, events[j].id)
      ensures events[j].version == AllOf(after)(events[j].agg) + Unsent(after, events, events[j].agg, j) + 1
    {
      InLogConcat(log, u, events[j].id);
      PushedRowAbove(log, events, base, p, j);
    }
  }

  lemma BaseSqueezed(log: seq<Row>, vault: Keyring, keys: Keyring, t: Tables, mapped: nat, base: Agg -> nat)
    requires Follows(log, vault, keys, t, mapped, |log|, base)
    ensures forall a :: base(a) == Count(log, a, |log|)
  {
  }

  /** The server accepted, whether or not the client learns of it: its pushed rows are now held log events. */
  lemma PushedFollows(log: seq<Row>, vault: Keyring, keys: Keyring, t: Tables, base: Agg -> nat, p: nat)
    requires Follows(log, vault, keys, t, |log|, |log|, base) && p <= |t.events|
    ensures var after := log + Unknown(log, t.events, p);
            Follows(after, vault, keys, t, |log|, |after|, AllOf(after))
  {
    hide HoldsPrefix, MapsPrefix, UnsentAbove, KeysFrom, UniqueEventIds, Genuine;
    var u, after := Unknown(log, t.events, p), log + Unknown(log, t.events, p);
    BaseSqueezed(log, vault, keys, t, |log|, base);
    PushedHold(log, t.events, p);
    PushedAbove(log, t.events, base, p);
    OthersMap(log, u, t.syncMap, |log|);
  }

  // The acknowledgement

  /** INSERT OR IGNORE of one assignment into the sync map. */
  function Assign(t: Tables, a: Assignment): Tables {
    if a.eventId in t.syncMap || a.globalSeq in t.syncMap.Values then t
    else t.(syncMap := t.syncMap[a.eventId := a.globalSeq])
  }

  function AssignAll(t: Tables, assignments: seq<Assignment>): Tables {
    if assignments == [] then t
    else Assign(AssignAll(t, assignments[..|assignments| - 1]), assignments[|assignments| - 1])
  }

  lemma AssignFollows(log: seq<Row>, vault: Keyring, keys: Keyring, t: Tables, mapped: nat, held: nat,
                      base: Agg -> nat)
    requires UniqueEventIds(log) && mapped < held <= |log| && Follows(log, vault, keys, t, mapped, held, base)
    ensures Follows(log, vault, keys, Assign(t, Assignment(log[mapped].id, mapped + 1)), mapped + 1, held, base)
    ensures Assign(t, Assignment(log[mapped].id, mapped + 1)) ==
              t.(syncMap := t.syncMap[log[mapped].id := mapped + 1])
  {
    hide HoldsPrefix, MapsPrefix, UnsentAbove, BaseBetween, KeysFrom, UniqueEventIds, Genuine;
    MapsOneMore(log, t.syncMap, mapped);
  }

  ghost predicate NumbersFrom(log: seq<Row>, assignments: seq<Assignment>, from: nat) {
    && from + |assignments| <= |log|
    && forall i :: 0 <= i < |assignments| ==> assignments[i] == Assignment(log[from + i].id, from + i + 1)
  }

  lemma {:induction false} AssignAllFollows(log: seq<Row>, vault: Keyring, keys: Keyring, t: Tables, mapped: nat,
                                            held: nat, base: Agg -> nat, assignments: seq<Assignment>)
    requires UniqueEventIds(log) && mapped + |assignments| <= held <= |log|
    requires Follows(log, vault, keys, t, mapped, held, base) && NumbersFrom(log, assignments, mapped)
    ensures Follows(log, vault, keys, AssignAll(t, assignments), mapped + |assignments|, held, base)
    ensures AssignAll(t, assignments) == t.(syncMap := AssignAll(t, assignments).syncMap)
  {
    hide Follows, UniqueEventIds, Assign;
    if assignments != [] {
      var init, last := assignments[..|assignments| - 1], |assignments| - 1;
      AssignAllFollows(log, vault, keys, t, mapped, held, base, init);
      AssignFollows(log, vault, keys, AssignAll(t, init), mapped + last, held, base);
    }
  }
}
