/** The server's append-only event repository, the push outcome and the pull response. */
module SyncServer {
  import opened Wrappers
  import opened EventTables
  import opened RemoteApply
  import opened Replication

  const MISSING_LIMIT: nat := 1000

  datatype StoreKey = StoreKey(owner: string, store: string)
  datatype Stored = Stored(key: StoreKey, globalSeq: nat, record: Row)
  datatype Assignment = Assignment(eventId: Id, globalSeq: nat)

  datatype PushResult =
    | PushOk(head: nat, assignments: seq<Assignment>)
    | PushConflict(head: nat, serverBehind: bool, missing: seq<Incoming>)

  datatype PullResponse = PullResponse(head: nat, events: seq<Incoming>, hasMore: bool, nextSince: Option<nat>)

  // One store's log

  function PositionOf(log: seq<Row>, id: Id): (i: nat)
    requires HasId(log, id)
    ensures i < |log| && log[i].id == id
    ensures forall j :: 0 <= j < i ==> log[j].id != id
  {
    if log[0].id == id then 0 else
      assert HasId(log[1..], id) by {
        var k :| 0 <= k < |log| && log[k].id == id;
        assert log[1..][k - 1].id == id;
      }
      1 + PositionOf(log[1..], id)
  }

  /** An event the store already has keeps its sequence; any other takes the next one. */
  function Appended(log: seq<Row>, batch: seq<Row>): (log': seq<Row>)
    ensures log <= log'
  {
    if batch == [] then log else
      var before := Appended(log, batch[..|batch| - 1]);
      var r := batch[|batch| - 1];
      if HasId(before, r.id) then before else before + [r]
  }

  function Assigned(log: seq<Row>, batch: seq<Row>): seq<Assignment> {
    if batch == [] then [] else
      var init := batch[..|batch| - 1];
      var before := Appended(log, init);
      var r := batch[|batch| - 1];
      Assigned(log, init) +
      [Assignment(r.id, if HasId(before, r.id) then PositionOf(before, r.id) + 1 else |before| + 1)]
  }

  function Since(log: seq<Row>, since: nat, limit: nat): (page: seq<Incoming>) {
    if since >= |log| then [] else
      PageOf(log, since, if since + limit <= |log| then since + limit else |log|)
  }

  /** What a push does to the log and answers. */
  function PushOutcome(log: seq<Row>, expectedHead: nat, batch: seq<Row>): (seq<Row>, PushResult) {
    if batch == [] then (log, PushOk(|log|, []))
    else if |log| == expectedHead then
      (Appended(log, batch), PushOk(|Appended(log, batch)|, Assigned(log, batch)))
    else if |log| < expectedHead then (log, PushConflict(|log|, true, []))
    else (log, PushConflict(|log|, false, Since(log, expectedHead, MISSING_LIMIT)))
  }

  /** A non-empty page runs from since on without a gap and carries the sequence of its last event. */
  function PullOutcome(log: seq<Row>, since: nat, limit: nat): (r: PullResponse)
    ensures r.events != [] ==>
              r.nextSince.Some? && since < r.nextSince.value <= |log| && r.events == PageOf(log, since, r.nextSince.value)
    ensures r.hasMore <==> limit > 0 && since + limit < |log|
    ensures limit > 0 && !r.hasMore && since < |log| ==> r.nextSince == Some(|log|)
    ensures r.events == [] <==> limit == 0 || since >= |log|
  {
    var events := Since(log, since, limit);
    var last := if events == [] then None else Some(events[|events| - 1].globalSeq);
    PullResponse(|log|, events, events != [] && |events| == limit && |log| > last.value, last)
  }

  /** New, distinct events are appended in order and numbered from the head on. */
  lemma {:induction false} AppendedNew(log: seq<Row>, batch: seq<Row>)
    requires UniqueEventIds(batch) && forall i :: 0 <= i < |batch| ==> !HasId(log, batch[i].id)
    ensures Appended(log, batch) == log + batch
    ensures |Assigned(log, batch)| == |batch|
    ensures forall i :: 0 <= i < |batch| ==> Assigned(log, batch)[i] == Assignment(batch[i].id, |log| + i + 1)
  {
    if batch == [] {
      assert log + batch == log;
    } else {
      var init, last := batch[..|batch| - 1], |batch| - 1;
      AppendedNew(log, init);
      forall k | 0 <= k < |log + init| ensures (log + init)[k].id != batch[last].id {
        assert !HasId(log, batch[last].id);
        assert (log + init)[k] == if k < |log| then log[k] else batch[k - |log|];
      }
      assert log + batch == log + init + [batch[last]];
    }
  }

  // The array behind all stores

  function Of(events: seq<Stored>, key: StoreKey): (r: seq<Stored>) {
    if events == [] then [] else
      var last := events[|events| - 1];
      Of(events[..|events| - 1], key) + if last.key == key then [last] else []
  }

  lemma {:induction false} OfMember(events: seq<Stored>, key: StoreKey, e: Stored)
    ensures e in Of(events, key) <==> e in events && e.key == key
  {
    if events != [] {
      var init, last := events[..|events| - 1], events[|events| - 1];
      assert events == init + [last];
      OfMember(init, key, e);
    }
  }

  /** Array.sort by sequence: stable, so an element goes behind its equals. */
  function PlaceBySequence(sorted: seq<Stored>, e: Stored): seq<Stored> {
    if sorted == [] || sorted[|sorted| - 1].globalSeq <= e.globalSeq then sorted + [e]
    else PlaceBySequence(sorted[..|sorted| - 1], e) + [sorted[|sorted| - 1]]
  }

  function SortBySequence(events: seq<Stored>): seq<Stored> {
    if events == [] then [] else PlaceBySequence(SortBySequence(events[..|events| - 1]), events[|events| - 1])
  }

  lemma OfSnoc(events: seq<Stored>, e: Stored, key: StoreKey)
    ensures Of(events + [e], key) == Of(events, key) + if e.key == key then [e] else []
  {
    assert (events + [e])[..|events + [e]| - 1] == events;
  }

  ghost predicate NoneAfter(events: seq<Stored>, e: Stored) {
    forall x :: x in events && x.key == e.key ==> x.globalSeq <= e.globalSeq
  }

  lemma {:induction false} PlaceKeepsStores(sorted: seq<Stored>, e: Stored, key: StoreKey)
    requires NoneAfter(sorted, e)
    ensures Of(PlaceBySequence(sorted, e), key) == Of(sorted, key) + if e.key == key then [e] else []
  {
    if sorted == [] || sorted[|sorted| - 1].globalSeq <= e.globalSeq {
      OfSnoc(sorted, e, key);
    } else {
      var init, last := sorted[..|sorted| - 1], sorted[|sorted| - 1];
      assert last in sorted && last.key != e.key;
      assert sorted == init + [last];
      PlaceKeepsStores(init, e, key);
      OfSnoc(PlaceBySequence(init, e), last, key);
    }
  }

  ghost predicate Rising(events: seq<Stored>) {
    forall i, j :: 0 <= i < j < |events| ==> events[i].globalSeq < events[j].globalSeq
  }

  /** Sorting the shared array does not reorder any one store. */
  lemma {:induction false} SortKeepsStores(events: seq<Stored>, key: StoreKey)
    requires forall k :: Rising(Of(events, k))
    ensures Of(SortBySequence(events), key) == Of(events, key)
  {
    if events != [] {
      var init, last := events[..|events| - 1], events[|events| - 1];
      forall k ensures Rising(Of(init, k)) {
        var all, part := Of(events, k), Of(init, k);
        assert forall i :: 0 <= i < |part| ==> part[i] == all[i];
      }
      SortKeepsStores(init, key);
      SortKeepsStores(init, last.key);
      var all, part := Of(events, last.key), Of(init, last.key);
      assert all == part + [last];
      forall x | x in SortBySequence(init) && x.key == last.key ensures x.globalSeq <= last.globalSeq {
        OfMember(SortBySequence(init), last.key, x);
        var i :| 0 <= i < |part| && part[i] == x;
        assert all[i] == x && all[|part|] == last;
      }
      PlaceKeepsStores(SortBySequence(init), last, key);
    }
  }

  ghost predicate Numbered(events: seq<Stored>) {
    forall i :: 0 <= i < |events| ==> events[i].globalSeq == i + 1
  }

  function Records(events: seq<Stored>): (r: seq<Row>)
    ensures |r| == |events| && forall i :: 0 <= i < |r| ==> r[i] == events[i].record
  {
    seq(|events|, i requires 0 <= i < |events| => events[i].record)
  }

  /** The filter of loadSince, before it sorts. */
  function Newer(events: seq<Stored>, key: StoreKey, since: nat): seq<Stored> {
    if events == [] then [] else
      var last := events[|events| - 1];
      Newer(events[..|events| - 1], key, since) + if last.key == key && last.globalSeq > since then [last] else []
  }

  lemma {:induction false} NewerIsTail(events: seq<Stored>, key: StoreKey, since: nat)
    requires Numbered(Of(events, key))
    ensures var mine := Of(events, key);
            Newer(events, key, since) == if since >= |mine| then [] else mine[since..]
  {
    if events != [] {
      var init, all := events[..|events| - 1], Of(events, key);
      var part := Of(init, key);
      assert forall i :: 0 <= i < |part| ==> part[i] == all[i];
      NewerIsTail(init, key, since);
      if since <= |part| && |all| > |part| {
        assert all[|part|].globalSeq == |part| + 1 && all[since..] == part[since..] + [all[|part|]];
      }
    }
  }

  lemma {:induction false} SortOfRising(events: seq<Stored>)
    requires Rising(events)
    ensures SortBySequence(events) == events
  {
    if events != [] {
      SortOfRising(events[..|events| - 1]);
      assert events == events[..|events| - 1] + [events[|events| - 1]];
    }
  }

  lemma NewerInOrder(events: seq<Stored>, key: StoreKey, since: nat)
    requires Numbered(Of(events, key))
    ensures var mine := Of(events, key);
            SortBySequence(Newer(events, key, since)) == if since >= |mine| then [] else mine[since..]
  {
    NewerIsTail(events, key, since);
    SortOfRising(Newer(events, key, since));
  }

  function Without(events: seq<Stored>, key: StoreKey): seq<Stored> {
    if events == [] then [] else
      var last := events[|events| - 1];
      Without(events[..|events| - 1], key) + if last.key != key then [last] else []
  }

  lemma {:induction false} WithoutStore(events: seq<Stored>, key: StoreKey, k: StoreKey)
    ensures Of(Without(events, key), k) == if k == key then [] else Of(events, k)
  {
    if events != [] {
      var init, last := events[..|events| - 1], events[|events| - 1];
      WithoutStore(init, key, k);
      OfSnoc(Without(init, key), last, k);
      assert Without(init, key) + [] == Without(init, key);
    }
  }

  lemma RecordsSnoc(events: seq<Stored>, e: Stored)
    ensures Records(events + [e]) == Records(events) + [e.record]
  {
  }

  lemma AppendedOne(log: seq<Row>, batch: seq<Row>, k: nat)
    requires k < |batch|
    ensures var before := Appended(log, batch[..k]);
            Appended(log, batch[..k + 1]) == if HasId(before, batch[k].id) then before else before + [batch[k]]
    ensures var before := Appended(log, batch[..k]);
            Assigned(log, batch[..k + 1]) == Assigned(log, batch[..k]) +
              [Assignment(batch[k].id, if HasId(before, batch[k].id) then PositionOf(before, batch[k].id) + 1
                                       else |before| + 1)]
  {
    assert batch[..k + 1][..k] == batch[..k];
  }

  /** The shared array once the first k events of a batch for one store have been handled. */
  ghost predicate Appending(before: seq<Stored>, now: seq<Stored>, key: StoreKey, batch: seq<Row>, k: nat)
    requires k <= |batch|
  {
    && (forall other :: other != key ==> Of(now, other) == Of(before, other))
    && Numbered(Of(now, key))
    && Records(Of(now, key)) == Appended(Records(Of(before, key)), batch[..k])
    && UniqueEventIds(Records(Of(now, key)))
  }

  lemma NumberedSnoc(events: seq<Stored>, key: StoreKey, r: Row)
    requires Numbered(events)
    ensures Numbered(events + [Stored(key, |events| + 1, r)])
  {
  }

  lemma AppendingNext(before: seq<Stored>, now: seq<Stored>, key: StoreKey, batch: seq<Row>, k: nat)
    requires k < |batch| && Appending(before, now, key, batch, k)
    ensures var log, stored := Records(Of(now, key)), Stored(key, |Of(now, key)| + 1, batch[k]);
            Appending(before, if HasId(log, batch[k].id) then now else now + [stored], key, batch, k + 1)
    ensures Of(now + [Stored(key, |Of(now, key)| + 1, batch[k])], key)
         == Of(now, key) + [Stored(key, |Of(now, key)| + 1, batch[k])]
  {
    hide Of, Appended, Records, Numbered, UniqueEventIds, HasId;
    NumberedSnoc(Of(now, key), key, batch[k]);
    var stored := Stored(key, |Of(now, key)| + 1, batch[k]);
    var log := Records(Of(now, key));
    AppendedOne(Records(Of(before, key)), batch, k);
    OfSnoc(now, stored, key);
    RecordsSnoc(Of(now, key), stored);
    if !HasId(log, batch[k].id) {
      NewIdStaysUnique(log, batch[k]);
    }
    forall other | other != key ensures Of(now + [stored], other) == Of(now, other) {
      OfSnoc(now, stored, other);
    }
  }

  lemma AppendingStarts(before: seq<Stored>, key: StoreKey, batch: seq<Row>)
    requires Numbered(Of(before, key)) && UniqueEventIds(Records(Of(before, key)))
    ensures Appending(before, before, key, batch, 0)
    ensures Assigned(Records(Of(before, key)), batch[..0]) == []
  {
  }

  lemma AppendingFacts(before: seq<Stored>, now: seq<Stored>, key: StoreKey, batch: seq<Row>, k: nat)
    requires k <= |batch| && Appending(before, now, key, batch, k)
    ensures forall other :: other != key ==> Of(now, other) == Of(before, other)
    ensures Numbered(Of(now, key)) && UniqueEventIds(Records(Of(now, key)))
    ensures Records(Of(now, key)) == Appended(Records(Of(before, key)), batch[..k])
  {
  }

  ghost predicate AllNumbered(events: seq<Stored>) {
    forall k :: Numbered(Of(events, k))
  }

  lemma AppendingEnds(before: seq<Stored>, now: seq<Stored>, key: StoreKey, batch: seq<Row>, k: StoreKey)
    requires Appending(before, now, key, batch, |batch|) && AllNumbered(before)
    ensures Of(SortBySequence(now), k) == Of(now, k)
    ensures Records(Of(now, key)) == Appended(Records(Of(before, key)), batch)
  {
    assert batch[..|batch|] == batch;
    forall other ensures Rising(Of(now, other)) {
      assert Numbered(Of(before, other));
    }
    SortKeepsStores(now, k);
  }

  lemma TakenIsSince(mine: seq<Stored>, since: nat, limit: nat, page: seq<Incoming>)
    requires Numbered(mine)
    requires |page| == if since >= |mine| then 0 else if since + limit <= |mine| then limit else |mine| - since
    requires forall i :: 0 <= i < |page| ==> page[i] == Incoming(mine[since + i].globalSeq, mine[since + i].record)
    ensures page == Since(Records(mine), since, limit)
  {
  }

  class InMemoryRepository {
    var events: seq<Stored>
    var heads: map<StoreKey, nat>

    constructor ()
      ensures Valid() && forall k :: Log(k) == []
    {
      events, heads := [], map[];
    }

    function Head(key: StoreKey): nat
      reads this
    {
      if key in heads then heads[key] else 0
    }

    /** Every store's events, in array order, are numbered 1 .. head. */
    ghost predicate Valid()
      reads this
    {
      forall k :: Numbered(Of(events, k)) && |Of(events, k)| == Head(k) && UniqueEventIds(Log(k))
    }

    ghost function Log(key: StoreKey): seq<Row>
      reads this
    {
      Records(Of(events, key))
    }

    method FindStored(key: StoreKey, id: Id, ghost log: seq<Row>) returns (found: Option<nat>)
      requires Numbered(Of(events, key)) && log == Log(key) && UniqueEventIds(log)
      ensures found == if HasId(log, id) then Some(PositionOf(log, id) + 1) else None
    {
      for k := 0 to |events|
        invariant forall j :: 0 <= j < k ==> !(events[j].key == key && events[j].record.id == id)
      {
        if events[k].key == key && events[k].record.id == id {
          found := Some(events[k].globalSeq);
          OfMember(events, key, events[k]);
          var i :| 0 <= i < |Of(events, key)| && Of(events, key)[i] == events[k];
          assert log[i].id == id;
          return;
        }
      }
      if HasId(log, id) {
        var i :| 0 <= i < |log| && log[i].id == id;
        OfMember(events, key, Of(events, key)[i]);
      }
      return None;
    }

    /** The batch is taken only at the expected head; nothing happens to any other store. */
    method AppendBatch(key: StoreKey, expectedHead: nat, batch: seq<Row>)
      returns (r: Option<(nat, seq<Assignment>)>)
      requires Valid()
      modifies this
      ensures Valid() && forall k :: k != key ==> Log(k) == old(Log(k))
      ensures r == if |old(Log(key))| != expectedHead then None
                   else Some((|Appended(old(Log(key)), batch)|, Assigned(old(Log(key)), batch)))
      ensures Log(key) == if r.None? then old(Log(key)) else Appended(old(Log(key)), batch)
    {
      hide Appending, UniqueEventIds, Numbered, SortBySequence, Appended, Assigned, Of;
      var head := Head(key);
      if head != expectedHead {
        return None;
      }
      ghost var before, log := events, Log(key);
      AppendingStarts(before, key, batch);
      var currentHead, assignments := head, [];
      for k := 0 to |batch|
        invariant heads == old(heads)
        invariant Appending(before, events, key, batch, k) && |Of(events, key)| == currentHead
        invariant assignments == Assigned(log, batch[..k])
      {
        AppendedOne(log, batch, k);
        AppendingFacts(before, events, key, batch, k);
        AppendingNext(before, events, key, batch, k);
        var existing := FindStored(key, batch[k].id, Log(key));
        if existing.Some? {
          assignments := assignments + [Assignment(batch[k].id, existing.value)];
        } else {
          currentHead := currentHead + 1;
          events := events + [Stored(key, currentHead, batch[k])];
          assignments := assignments + [Assignment(batch[k].id, currentHead)];
        }
      }
      assert batch[..|batch|] == batch;
      AppendingFacts(before, events, key, batch, |batch|);
      forall k ensures Of(SortBySequence(events), k) == Of(events, k) {
        AppendingEnds(before, events, key, batch, k);
      }
      events := SortBySequence(events);
      heads := heads[key := currentHead];
      return Some((currentHead, assignments));
    }

    method LoadSince(key: StoreKey, since: nat, limit: nat) returns (page: seq<Incoming>)
      requires Valid()
      ensures page == Since(Log(key), since, limit)
    {
      hide Of, SortBySequence, Newer, UniqueEventIds, Records, Since;
      var newer := Newer(events, key, since);
      var mine := SortBySequence(newer);
      NewerInOrder(events, key, since);
      var taken := if |mine| <= limit then mine else mine[..limit];
      page := seq(|taken|, i requires 0 <= i < |taken| => Incoming(taken[i].globalSeq, taken[i].record));
      TakenIsSince(Of(events, key), since, limit, page);
    }

    method ResetStore(key: StoreKey)
      requires Valid()
      modifies this
      ensures Valid() && Log(key) == [] && forall k :: k != key ==> Log(k) == old(Log(k))
    {
      forall k ensures Of(Without(events, key), k) == if k == key then [] else Of(events, k) {
        WithoutStore(events, key, k);
      }
      events := Without(events, key);
      heads := heads[key := 0];
    }
  }

  // SyncService

  class SyncService {
    const repository: InMemoryRepository

    constructor (repository: InMemoryRepository)
      ensures this.repository == repository
    {
      this.repository := repository;
    }

    method PushEvents(key: StoreKey, expectedHead: nat, batch: seq<Row>) returns (r: PushResult)
      requires repository.Valid()
      modifies repository
      ensures repository.Valid() && forall k :: k != key ==> repository.Log(k) == old(repository.Log(k))
      ensures (repository.Log(key), r) == PushOutcome(old(repository.Log(key)), expectedHead, batch)
    {
      var head := repository.Head(key);
      if batch == [] {
        return PushOk(head, []);
      }
      var appended := repository.AppendBatch(key, expectedHead, batch);
      if appended.Some? {
        return PushOk(appended.value.0, appended.value.1);
      }
      var behind := head < expectedHead;
      var missing := [];
      if !behind {
        missing := repository.LoadSince(key, expectedHead, MISSING_LIMIT);
      }
      return PushConflict(head, behind, missing);
    }

    method PullEvents(key: StoreKey, since: nat, limit: nat) returns (r: PullResponse)
      requires repository.Valid()
      ensures r == PullOutcome(repository.Log(key), since, limit)
    {
      var events := repository.LoadSince(key, since, limit);
      var head := repository.Head(key);
      var last := if events == [] then None else Some(events[|events| - 1].globalSeq);
      r := PullResponse(head, events, events != [] && |events| == limit && head > last.value, last);
    }
  }
}
