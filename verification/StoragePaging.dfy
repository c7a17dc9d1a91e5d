/** The two storage adapters: listing a namespace page by page, and the writes that wait to be flushed. */
module StoragePaging {
  import opened Wrappers
  import opened Bytes

  /** Strings in byte order. */
  type Name = ByteString
  type Namespace = map<Name, ByteString>

  datatype Record = Record(key: Name, value: ByteString)

  // Listing

  ghost predicate Ascending(keys: seq<Name>) {
    forall i, j :: 0 <= i < j < |keys| ==> Less(keys[i], keys[j])
  }

  /** The keys of the namespace, sorted. */
  ghost predicate Listing(keys: seq<Name>, ns: Namespace) {
    Ascending(keys) && forall k :: k in keys <==> k in ns
  }

  function InsertKey(keys: seq<Name>, k: Name): (r: seq<Name>)
    ensures forall x :: x in r <==> x in keys || x == k
  {
    if keys == [] || Less(k, keys[0]) then [k] + keys else [keys[0]] + InsertKey(keys[1..], k)
  }

  lemma {:induction false} InsertAscends(keys: seq<Name>, k: Name)
    requires Ascending(keys) && k !in keys
    ensures Ascending(InsertKey(keys, k))
  {
    hide Less;
    if keys != [] {
      LessIsTotal(k, keys[0]);
      var r := InsertKey(keys, k);
      if Less(k, keys[0]) {
        forall j | 0 <= j < |keys| ensures Less(k, keys[j]) {
          if j > 0 { LessIsTransitive(k, keys[0], keys[j]); }
        }
      } else {
        InsertAscends(keys[1..], k);
        var rest := InsertKey(keys[1..], k);
        forall j | 0 <= j < |rest| ensures Less(keys[0], rest[j]) {
          assert rest[j] in rest;
          if rest[j] != k {
            var i :| 0 <= i < |keys[1..]| && keys[1..][i] == rest[j];
            assert keys[i + 1] == rest[j];
          }
        }
      }
    }
  }

  method SortedKeys(ns: Namespace) returns (keys: seq<Name>)
    ensures Listing(keys, ns)
  {
    hide Less, InsertKey;
    keys := [];
    var rest := ns.Keys;
    while rest != {}
      invariant Ascending(keys) && rest <= ns.Keys
      invariant forall k :: k in keys <==> k in ns && k !in rest
      decreases |rest|
    {
      var k :| k in rest;
      rest := rest - {k};
      InsertAscends(keys, k);
      keys := InsertKey(keys, k);
    }
  }

  /** The place of a key in the list, or its end. */
  function IndexOf(keys: seq<Name>, k: Name): (i: nat)
    ensures i <= |keys| && (i < |keys| <==> k in keys)
    ensures i < |keys| ==> keys[i] == k
    ensures forall j :: 0 <= j < i ==> keys[j] != k
  {
    if keys == [] then 0 else if keys[0] == k then 0 else 1 + IndexOf(keys[1..], k)
  }

  /** The first key after this one, or the end of the list. */
  function FirstAfter(keys: seq<Name>, k: Name): (i: nat)
    ensures i <= |keys| && (i < |keys| ==> Less(k, keys[i]))
    ensures forall j :: 0 <= j < i ==> !Less(k, keys[j])
  {
    if keys == [] then 0 else if Less(k, keys[0]) then 0 else 1 + FirstAfter(keys[1..], k)
  }

  /** Where the buffered adapter resumes: after the cursor's own key, or from the start if there is none. */
  function BufferedStart(keys: seq<Name>, cursor: Name): (s: nat)
    ensures s <= |keys|
  {
    if cursor == [] || cursor !in keys then 0 else IndexOf(keys, cursor) + 1
  }

  /** Where the browser adapter resumes: at the first key after the cursor. */
  function WasmStart(keys: seq<Name>, cursor: Name): (s: nat)
    ensures s <= |keys|
  {
    if cursor == [] then 0 else FirstAfter(keys, cursor)
  }

  function Min(a: nat, b: nat): nat { if a < b then a else b }

  function PageKeys(keys: seq<Name>, start: nat, limit: nat): seq<Name>
    requires start <= |keys|
  {
    keys[start..Min(start + limit, |keys|)]
  }

  function Records(keys: seq<Name>, ns: Namespace): (r: seq<Record>)
    requires forall k :: k in keys ==> k in ns
    ensures |r| == |keys| && forall i :: 0 <= i < |r| ==> r[i] == Record(keys[i], ns[keys[i]])
  {
    seq(|keys|, i requires 0 <= i < |keys| => Record(keys[i], ns[keys[i]]))
  }

  datatype Page = Page(records: seq<Record>, next: Name)

  /** A page from this position on, and the cursor to ask for the following one. */
  function PageFrom(keys: seq<Name>, ns: Namespace, start: nat, cursor: Name, limit: nat): Page
    requires start <= |keys| && forall k :: k in keys ==> k in ns
  {
    var page := PageKeys(keys, start, limit);
    Page(Records(page, ns), if page == [] then cursor else page[|page| - 1])
  }

  /** In a sorted list the keys after a present one are those behind it. */
  lemma AfterPresent(keys: seq<Name>, cursor: Name)
    requires Ascending(keys) && cursor in keys
    ensures FirstAfter(keys, cursor) == IndexOf(keys, cursor) + 1
  {
    hide Less;
    var i, f := IndexOf(keys, cursor), FirstAfter(keys, cursor);
    LessIsIrreflexive(cursor);
    if f <= i {
      assert Less(cursor, keys[f]);
      if f < i { LessIsTotal(keys[f], keys[i]); }
    }
  }

  /** The adapters give the same page exactly when the cursor is empty, or a present key, or before every key. */
  lemma AdaptersAgreeIff(keys: seq<Name>, cursor: Name)
    requires Ascending(keys)
    ensures BufferedStart(keys, cursor) == WasmStart(keys, cursor) <==>
              cursor == [] || cursor in keys || forall k :: k in keys ==> Less(cursor, k)
  {
    hide Less;
    if cursor != [] {
      if cursor in keys {
        AfterPresent(keys, cursor);
      } else {
        var f := FirstAfter(keys, cursor);
        if f == 0 {
          forall k | k in keys ensures Less(cursor, k) {
            var i :| 0 <= i < |keys| && keys[i] == k;
            if i > 0 { LessIsTransitive(cursor, keys[0], keys[i]); }
          }
        } else {
          assert keys[0] in keys && !Less(cursor, keys[0]);
        }
      }
    }
  }

  /** Asking on from a page's cursor continues right behind it, in either adapter, unless that cursor is the empty
      string. */
  lemma NextPageContinues(keys: seq<Name>, ns: Namespace, start: nat, cursor: Name, limit: nat)
    requires Listing(keys, ns) && start < |keys| && limit > 0
    ensures var end := Min(start + limit, |keys|);
            var next := PageFrom(keys, ns, start, cursor, limit).next;
            next == keys[end - 1] && (next != [] ==> BufferedStart(keys, next) == WasmStart(keys, next) == end)
  {
    hide Less;
    var end := Min(start + limit, |keys|);
    var next := keys[end - 1];
    assert PageKeys(keys, start, limit)[end - start - 1] == next;
    if next != [] {
      assert next in keys;
      AfterPresent(keys, next);
      var i := IndexOf(keys, next);
      if i < end - 1 { LessIsTotal(keys[i], keys[end - 1]); }
    }
  }

  /** The loop over the pages makes no headway exactly when the first page ends in the empty key. */
  lemma StuckIff(keys: seq<Name>, ns: Namespace, limit: nat)
    requires Listing(keys, ns) && keys != [] && limit > 0
    ensures PageFrom(keys, ns, 0, [], limit).next == [] <==> [] in keys && (limit == 1 || |keys| == 1)
  {
    var end := Min(limit, |keys|);
    assert PageKeys(keys, 0, limit)[end - 1] == keys[end - 1];
    forall i | 0 < i < |keys| ensures keys[i] != [] {
      assert Less(keys[0], keys[i]);
    }
  }

  /** Unless paging is stuck from the start, no page ends in the empty key. */
  lemma NextNotEmpty(keys: seq<Name>, ns: Namespace, start: nat, limit: nat)
    requires Listing(keys, ns) && start < |keys| && limit > 0
    requires !([] in ns && (limit == 1 || |ns| == 1))
    ensures keys[Min(start + limit, |keys|) - 1] != []
  {
    var end := Min(start + limit, |keys|);
    assert end > 1 ==> Less(keys[0], keys[end - 1]);
    assert keys[0] in ns;
    if end == 1 && limit > 1 {
      assert ns.Keys == {keys[0]};
    }
  }

  // Pending writes

  datatype Write = Write(namespace: Name, key: Name, value: ByteString)

  type Durable = map<(Name, Name), ByteString>

  /** Writes put into durable storage, in this order. */
  function Flushed(base: Durable, writes: seq<Write>): Durable {
    if writes == [] then base else
      var w := writes[|writes| - 1];
      Flushed(base, writes[..|writes| - 1])[(w.namespace, w.key) := w.value]
  }

  const COLON: Byte := 58

  function PendingKey(namespace: Name, key: Name): Name { namespace + [COLON] + key }

  /** The browser adapter keeps one pending write per joined name. */
  function PendingMap(writes: seq<Write>): map<Name, Write> {
    if writes == [] then map[] else
      var w := writes[|writes| - 1];
      PendingMap(writes[..|writes| - 1])[PendingKey(w.namespace, w.key) := w]
  }

  ghost predicate Drains(drained: seq<Write>, pending: map<Name, Write>) {
    && (forall w :: w in drained <==> w in pending.Values)
    && forall i, j :: 0 <= i < j < |drained| ==> drained[i] != drained[j]
  }

  /** Two names are joined to the same string exactly when one namespace is the other with a colon and the beginning of
      the key. */
  lemma JoinedAlikeIff(n: Name, k: Name, n': Name, k': Name)
    ensures PendingKey(n, k) == PendingKey(n', k') && (n, k) != (n', k') <==>
              (exists x: Name :: n' == n + [COLON] + x && k == x + [COLON] + k')
              || (exists x: Name :: n == n' + [COLON] + x && k' == x + [COLON] + k)
  {
    if PendingKey(n, k) == PendingKey(n', k') {
      if |n| < |n'| {
        LongerNamespace(n, k, n', k');
      } else if |n'| < |n| {
        LongerNamespace(n', k', n, k);
      } else {
        assert n == PendingKey(n, k)[..|n|] == PendingKey(n', k')[..|n|] == n';
        assert k == PendingKey(n, k)[|n| + 1..] == k';
      }
    }
    if x: Name :| n' == n + [COLON] + x && k == x + [COLON] + k' {
      assert n + [COLON] + (x + [COLON] + k') == n + [COLON] + x + [COLON] + k';
    }
    if x: Name :| n == n' + [COLON] + x && k' == x + [COLON] + k {
      assert n' + [COLON] + (x + [COLON] + k) == n' + [COLON] + x + [COLON] + k;
    }
  }

  lemma LongerNamespace(n: Name, k: Name, n': Name, k': Name)
    requires |n| < |n'| && PendingKey(n, k) == PendingKey(n', k')
    ensures exists x: Name :: n' == n + [COLON] + x && k == x + [COLON] + k'
  {
    var p := PendingKey(n, k);
    var x := n'[|n| + 1..];
    assert n' == p[..|n'|] && n == p[..|n|] && p[|n|] == COLON;
    assert n' == n + [COLON] + x;
    assert k == p[|n| + 1..] == x + [COLON] + k';
  }

  /** No two different names among the writes are joined to the same string. */
  ghost predicate Unambiguous(writes: seq<Write>) {
    forall i, j :: 0 <= i < |writes| && 0 <= j < |writes|
      && PendingKey(writes[i].namespace, writes[i].key) == PendingKey(writes[j].namespace, writes[j].key)
      ==> writes[i].namespace == writes[j].namespace && writes[i].key == writes[j].key
  }

  lemma {:induction false} PendingIsLast(writes: seq<Write>, base: Durable, n: Name, k: Name)
    requires Unambiguous(writes)
    requires forall i :: 0 <= i < |writes| && PendingKey(writes[i].namespace, writes[i].key) == PendingKey(n, k) ==>
               writes[i].namespace == n && writes[i].key == k
    ensures var p, pending := PendingKey(n, k), PendingMap(writes);
            && (p in pending ==> pending[p].namespace == n && pending[p].key == k
                                 && (n, k) in Flushed(base, writes) && Flushed(base, writes)[(n, k)] == pending[p].value)
            && (p !in pending ==> ((n, k) in Flushed(base, writes) <==> (n, k) in base)
                                  && ((n, k) in base ==> Flushed(base, writes)[(n, k)] == base[(n, k)]))
  {
    hide PendingKey;
    if writes != [] {
      PendingIsLast(writes[..|writes| - 1], base, n, k);
    }
  }

  lemma {:induction false} PendingComesFrom(writes: seq<Write>, p: Name)
    requires p in PendingMap(writes)
    ensures PendingMap(writes)[p] in writes
    ensures var w := PendingMap(writes)[p]; PendingKey(w.namespace, w.key) == p
  {
    hide PendingKey;
    if writes != [] {
      var w := writes[|writes| - 1];
      if PendingKey(w.namespace, w.key) != p {
        PendingComesFrom(writes[..|writes| - 1], p);
      }
    }
  }

  /** What a flush leaves under a name: the one write for it, or what was there. */
  lemma {:induction false} FlushedOnce(drained: seq<Write>, base: Durable, n: Name, k: Name)
    requires forall i, j :: 0 <= i < j < |drained| ==>
               drained[i].namespace != drained[j].namespace || drained[i].key != drained[j].key
    ensures forall w :: w in drained && w.namespace == n && w.key == k ==>
              (n, k) in Flushed(base, drained) && Flushed(base, drained)[(n, k)] == w.value
    ensures (forall w :: w in drained ==> w.namespace != n || w.key != k) ==>
              ((n, k) in Flushed(base, drained) <==> (n, k) in base)
              && ((n, k) in base ==> Flushed(base, drained)[(n, k)] == base[(n, k)])
  {
    if drained != [] {
      var init, last := drained[..|drained| - 1], drained[|drained| - 1];
      assert drained == init + [last];
      FlushedOnce(init, base, n, k);
    }
  }

  /** Flushing the browser adapter's pending writes in any order leaves what flushing every buffered write in order
      leaves, as long as no two names are joined alike. */
  lemma FlushesAgree(writes: seq<Write>, drained: seq<Write>, base: Durable)
    requires Unambiguous(writes) && Drains(drained, PendingMap(writes))
    ensures Flushed(base, drained) == Flushed(base, writes)
  {
    hide PendingKey, Flushed, PendingMap;
    var pending := PendingMap(writes);
    forall i, j | 0 <= i < j < |drained|
      ensures drained[i].namespace != drained[j].namespace || drained[i].key != drained[j].key
    {
      DrainedFrom(writes, drained, i);
      DrainedFrom(writes, drained, j);
    }
    var d, e := Flushed(base, drained), Flushed(base, writes);
    forall p: (Name, Name) ensures (p in d <==> p in e) && (p in d ==> d[p] == e[p]) {
      SameUnderName(writes, drained, base, p.0, p.1);
      assert p == (p.0, p.1);
    }
  }

  lemma DrainedFrom(writes: seq<Write>, drained: seq<Write>, i: nat)
    requires Drains(drained, PendingMap(writes)) && i < |drained|
    ensures var p := PendingKey(drained[i].namespace, drained[i].key);
            p in PendingMap(writes) && PendingMap(writes)[p] == drained[i] && drained[i] in writes
  {
    hide PendingKey, PendingMap;
    var pending := PendingMap(writes);
    assert drained[i] in drained;
    var p :| p in pending && pending[p] == drained[i];
    PendingComesFrom(writes, p);
  }

  lemma SameUnderName(writes: seq<Write>, drained: seq<Write>, base: Durable, n: Name, k: Name)
    requires Unambiguous(writes) && Drains(drained, PendingMap(writes))
    requires forall i, j :: 0 <= i < j < |drained| ==>
               drained[i].namespace != drained[j].namespace || drained[i].key != drained[j].key
    ensures (n, k) in Flushed(base, drained) <==> (n, k) in Flushed(base, writes)
    ensures (n, k) in Flushed(base, drained) ==> Flushed(base, drained)[(n, k)] == Flushed(base, writes)[(n, k)]
  {
    hide PendingKey, Flushed, PendingMap;
    FlushedOnce(drained, base, n, k);
    if i :| 0 <= i < |writes| && writes[i].namespace == n && writes[i].key == k {
      PendingIsLast(writes, base, n, k);
      var p, pending := PendingKey(n, k), PendingMap(writes);
      WrittenIsPending(writes, i);
      assert pending[p] in drained;
    } else {
      NeverWritten(writes, base, n, k);
      forall w | w in drained ensures w.namespace != n || w.key != k {
        var j :| 0 <= j < |drained| && drained[j] == w;
        DrainedFrom(writes, drained, j);
        var m :| 0 <= m < |writes| && writes[m] == w;
      }
    }
  }

  lemma {:induction false} WrittenIsPending(writes: seq<Write>, i: nat)
    requires i < |writes|
    ensures PendingKey(writes[i].namespace, writes[i].key) in PendingMap(writes)
  {
    if i < |writes| - 1 {
      WrittenIsPending(writes[..|writes| - 1], i);
    }
  }

  lemma {:induction false} NeverWritten(writes: seq<Write>, base: Durable, n: Name, k: Name)
    requires forall i :: 0 <= i < |writes| ==> writes[i].namespace != n || writes[i].key != k
    ensures (n, k) in Flushed(base, writes) <==> (n, k) in base
    ensures (n, k) in base ==> Flushed(base, writes)[(n, k)] == base[(n, k)]
  {
    if writes != [] {
      NeverWritten(writes[..|writes| - 1], base, n, k);
    }
  }

  /** Into empty storage the two flushes agree exactly when no two names are joined alike; otherwise a write is lost. */
  lemma FlushesAgreeIff(writes: seq<Write>, drained: seq<Write>)
    requires Drains(drained, PendingMap(writes))
    ensures Flushed(map[], drained) == Flushed(map[], writes) <==> Unambiguous(writes)
    ensures !Unambiguous(writes) ==>
              exists i :: 0 <= i < |writes| && (writes[i].namespace, writes[i].key) !in Flushed(map[], drained)
  {
    hide PendingKey, Flushed, PendingMap;
    if Unambiguous(writes) {
      FlushesAgree(writes, drained, map[]);
    } else {
      var i, j :| 0 <= i < |writes| && 0 <= j < |writes|
        && PendingKey(writes[i].namespace, writes[i].key) == PendingKey(writes[j].namespace, writes[j].key)
        && (writes[i].namespace != writes[j].namespace || writes[i].key != writes[j].key);
      WriteSurvives(writes, i);
      WriteSurvives(writes, j);
      OnlyDrained(writes, drained, writes[i].namespace, writes[i].key);
      OnlyDrained(writes, drained, writes[j].namespace, writes[j].key);
    }
  }

  /** Write i is the last one under that name. */
  ghost predicate LastWriteAt(writes: seq<Write>, n: Name, k: Name, i: nat) {
    i < |writes| && (writes[i].namespace, writes[i].key) == (n, k)
    && forall j :: i < j < |writes| ==> (writes[j].namespace, writes[j].key) != (n, k)
  }

  ghost predicate Written(writes: seq<Write>, n: Name, k: Name) {
    exists i :: 0 <= i < |writes| && (writes[i].namespace, writes[i].key) == (n, k)
  }

  /** After a flush a name holds the value of the last write under it, or what it held if there was none. */
  lemma {:induction false} FlushedIs(writes: seq<Write>, base: Durable, n: Name, k: Name)
    ensures forall i: nat :: LastWriteAt(writes, n, k, i) ==>
              (n, k) in Flushed(base, writes) && Flushed(base, writes)[(n, k)] == writes[i].value
    ensures !Written(writes, n, k) ==>
              ((n, k) in Flushed(base, writes) <==> (n, k) in base)
              && ((n, k) in base ==> Flushed(base, writes)[(n, k)] == base[(n, k)])
  {
    if writes != [] {
      var init, last := writes[..|writes| - 1], |writes| - 1;
      FlushedIs(init, base, n, k);
      forall i: nat | LastWriteAt(writes, n, k, i)
        ensures (n, k) in Flushed(base, writes) && Flushed(base, writes)[(n, k)] == writes[i].value
      {
        if i < last { assert LastWriteAt(init, n, k, i); }
      }
      if !Written(writes, n, k) {
        forall i | 0 <= i < |init| ensures (init[i].namespace, init[i].key) != (n, k) { assert init[i] == writes[i]; }
      }
    }
  }

  /** What has been written is there after a flush of all writes. */
  lemma WriteSurvives(writes: seq<Write>, i: nat)
    requires i < |writes|
    ensures (writes[i].namespace, writes[i].key) in Flushed(map[], writes)
  {
    if i < |writes| - 1 {
      WriteSurvives(writes[..|writes| - 1], i);
    }
  }

  /** A name that is there after the browser adapter's flush is that of the write pending under its joined name. */
  lemma OnlyDrained(writes: seq<Write>, drained: seq<Write>, n: Name, k: Name)
    requires Drains(drained, PendingMap(writes))
    ensures (n, k) in Flushed(map[], drained) ==>
              var p, pending := PendingKey(n, k), PendingMap(writes);
              p in pending && pending[p].namespace == n && pending[p].key == k
  {
    hide PendingKey, Flushed, PendingMap;
    if i :| 0 <= i < |drained| && drained[i].namespace == n && drained[i].key == k {
      DrainedFrom(writes, drained, i);
    } else {
      NeverWritten(drained, map[], n, k);
    }
  }

  /** Two such writes: the browser adapter forgets the first. */
  lemma JoinedAlikeLosesWrite()
    ensures var a, b := Write([97], [98, COLON, 99], [1]), Write([97, COLON, 98], [99], [2]);
            && Drains([b], PendingMap([a, b]))
            && ([97], [98, COLON, 99]) in Flushed(map[], [a, b]) && ([97], [98, COLON, 99]) !in Flushed(map[], [b])
  {
    var a, b := Write([97], [98, COLON, 99], [1]), Write([97, COLON, 98], [99], [2]);
    var writes := [a, b];
    assert writes[..1] == [a] && writes[..1][..0] == [] && [b][..0] == [];
    assert PendingKey(a.namespace, a.key) == [97, COLON, 98, COLON, 99] == PendingKey(b.namespace, b.key);
    assert PendingMap([a]) == map[PendingKey(a.namespace, a.key) := a];
    var pending := PendingMap(writes);
    assert pending == map[PendingKey(b.namespace, b.key) := b];
    assert PendingKey(b.namespace, b.key) in pending;
    assert pending.Values == {b};
    assert Flushed(map[], writes) == Flushed(map[], [a])[(b.namespace, b.key) := b.value];
    assert Flushed(map[], [a]) == map[([97], [98, COLON, 99]) := [1]];
    assert Flushed(map[], [b]) == map[([97, COLON, 98], [99]) := [2]];
  }

  // The adapters as objects

  class BufferedStorage {
    var values: map<Name, Namespace>
    var pending: seq<Write>

    constructor ()
      ensures values == map[] && pending == []
    {
      values, pending := map[], [];
    }

    function Space(namespace: Name): Namespace
      reads this
    {
      if namespace in values then values[namespace] else map[]
    }

    method Put(namespace: Name, key: Name, value: ByteString)
      modifies this
      ensures values == old(values)[namespace := old(Space(namespace))[key := value]]
      ensures pending == old(pending) + [Write(namespace, key, value)]
    {
      values := values[namespace := Space(namespace)[key := value]];
      pending := pending + [Write(namespace, key, value)];
    }

    method DrainPending() returns (drained: seq<Write>)
      modifies this`pending
      ensures drained == old(pending) && pending == []
    {
      drained := pending;
      pending := [];
    }

    method ListSince(namespace: Name, cursor: Name, limit: nat) returns (page: Page)
      ensures var ns := Space(namespace); var keys := KeysOf(ns);
              page == PageFrom(keys, ns, BufferedStart(keys, cursor), cursor, limit)
    {
      hide Less;
      var ns := Space(namespace);
      var sorted := SortedKeys(ns);
      ListingIsUnique(sorted, KeysOf(ns), ns);
      var start := BufferedStart(sorted, cursor);
      var shown := PageKeys(sorted, start, limit);
      page := Page(Records(shown, ns), if shown == [] then cursor else shown[|shown| - 1]);
    }

    /** Reading a namespace to its end: every key once, in order, with its value. */
    method LoadNamespaceEntries(namespace: Name, limit: nat) returns (entries: seq<Record>)
      requires limit > 0 && !([] in Space(namespace) && (limit == 1 || |Space(namespace)| == 1))
      ensures var ns := Space(namespace); entries == Records(KeysOf(ns), ns)
    {
      hide Less, BufferedStart, WasmStart, Listing, Records, PageFrom, PageKeys, KeysOf;
      var cursor: Name := [];
      entries := [];
      var ns := Space(namespace);
      ghost var all := KeysOf(ns);
      ghost var at := 0;
      KeysThere(all, ns);
      assert BufferedStart(all, cursor) == at by { StartsAtZero(all); }
      while true
        invariant at <= |all| && entries == Records(all[..at], ns) && BufferedStart(all, cursor) == at
        decreases |all| - at
      {
        var page := ListSince(namespace, cursor, limit);
        assert page == PageFrom(all, ns, at, cursor, limit);
        PageExtends(all, ns, at, cursor, limit);
        if page.records == [] {
          assert all[..at] == all;
          return;
        }
        NextPageContinues(all, ns, at, cursor, limit);
        NextNotEmpty(all, ns, at, limit);
        ghost var end := Min(at + limit, |all|);
        entries := entries + page.records;
        cursor := page.next;
        at := end;
      }
    }
  }

  lemma KeysThere(keys: seq<Name>, ns: Namespace)
    requires Listing(keys, ns)
    ensures forall k :: k in keys ==> k in ns
    ensures Records(keys[..0], ns) == []
  {
  }

  /** The records up to a page and those of the page are the records up to its end. */
  lemma PageExtends(keys: seq<Name>, ns: Namespace, start: nat, cursor: Name, limit: nat)
    requires start <= |keys| && limit > 0 && forall k :: k in keys ==> k in ns
    ensures var page, end := PageFrom(keys, ns, start, cursor, limit).records, Min(start + limit, |keys|);
            Records(keys[..end], ns) == Records(keys[..start], ns) + page && (page == [] <==> start == |keys|)
  {
    hide PageFrom, PageKeys, Records;
    var end := Min(start + limit, |keys|);
    PageIs(keys, ns, start, end, cursor, limit);
    RecordsSplit(keys, ns, start, end);
  }

  lemma RecordsSplit(keys: seq<Name>, ns: Namespace, start: nat, end: nat)
    requires start <= end <= |keys| && forall k :: k in keys ==> k in ns
    ensures Records(keys[..end], ns) == Records(keys[..start], ns) + Records(keys[start..end], ns)
    ensures Records(keys[start..end], ns) == [] <==> start == end
  {
    var a, b := Records(keys[..start], ns), Records(keys[start..end], ns);
    forall i | 0 <= i < end ensures Records(keys[..end], ns)[i] == (a + b)[i] {
      assert keys[..end][i] == if i < start then keys[..start][i] else keys[start..end][i - start];
    }
  }

  lemma PageIs(keys: seq<Name>, ns: Namespace, start: nat, end: nat, cursor: Name, limit: nat)
    requires start <= end <= |keys| && end - start <= limit && (end == |keys| || end - start == limit)
    requires forall k :: k in keys ==> k in ns
    ensures PageFrom(keys, ns, start, cursor, limit)
         == Page(Records(keys[start..end], ns), if end == start then cursor else keys[end - 1])
  {
    assert PageKeys(keys, start, limit) == keys[start..end];
  }

  lemma NothingListed(cursor: Name, limit: nat)
    ensures PageFrom(KeysOf(map[]), map[], WasmStart(KeysOf(map[]), cursor), cursor, limit) == Page([], cursor)
  {
    assert KeysOf(map[]) == [];
  }

  lemma StartsAtZero(keys: seq<Name>)
    ensures BufferedStart(keys, []) == 0 == WasmStart(keys, [])
  {
  }

  /** The keys of a namespace in order. */
  ghost function KeysOf(ns: Namespace): (keys: seq<Name>)
    ensures Listing(keys, ns)
    decreases |ns|
  {
    if ns == map[] then [] else
      var k :| k in ns;
      var rest := ns - {k};
      assert rest.Keys == ns.Keys - {k};
      InsertedListing(KeysOf(rest), ns, k);
      InsertKey(KeysOf(rest), k)
  }

  lemma InsertedListing(keys: seq<Name>, ns: Namespace, k: Name)
    requires k in ns && Listing(keys, ns - {k})
    ensures Listing(InsertKey(keys, k), ns)
  {
    hide Less, InsertKey;
    InsertAscends(keys, k);
  }

  lemma {:induction false} ListingIsUnique(a: seq<Name>, b: seq<Name>, ns: Namespace)
    requires Listing(a, ns) && Listing(b, ns)
    ensures a == b
    decreases |a|
  {
    hide Less;
    assert a != [] ==> a[0] in b;
    assert b != [] ==> b[0] in a;
    if a != [] {
      var x, y := a[|a| - 1], b[|b| - 1];
      assert x in b && y in a;
      LessIsTotal(x, y);
      var i :| 0 <= i < |b| && b[i] == x;
      var j :| 0 <= j < |a| && a[j] == y;
      assert x == y;
      DropLast(a, ns);
      DropLast(b, ns);
      ListingIsUnique(a[..|a| - 1], b[..|b| - 1], ns - {x});
      assert a == a[..|a| - 1] + [x] && b == b[..|b| - 1] + [x];
    }
  }

  lemma DropLast(keys: seq<Name>, ns: Namespace)
    requires Listing(keys, ns) && keys != []
    ensures Listing(keys[..|keys| - 1], ns - {keys[|keys| - 1]})
  {
    hide Less;
    var init, last := keys[..|keys| - 1], keys[|keys| - 1];
    assert keys == init + [last];
    assert last !in init by {
      forall i | 0 <= i < |init| ensures init[i] != last {
        LessIsTotal(keys[i], last);
      }
    }
  }

  class WasmStorage {
    var values: map<Name, Namespace>
    var pending: map<Name, Write>
    /** Every write since the last drain. */
    ghost var writes: seq<Write>

    constructor ()
      ensures values == map[] && Valid() && writes == []
    {
      values, pending, writes := map[], map[], [];
    }

    ghost predicate Valid()
      reads this
    {
      pending == PendingMap(writes)
    }

    function Space(namespace: Name): Namespace
      reads this
    {
      if namespace in values then values[namespace] else map[]
    }

    method Put(namespace: Name, key: Name, value: ByteString)
      requires Valid()
      modifies this
      ensures Valid() && writes == old(writes) + [Write(namespace, key, value)]
      ensures values == old(values)[namespace := old(Space(namespace))[key := value]]
    {
      values := values[namespace := Space(namespace)[key := value]];
      pending := pending[PendingKey(namespace, key) := Write(namespace, key, value)];
      writes := writes + [Write(namespace, key, value)];
    }

    /** The pending writes, in no particular order. */
    method DrainPending() returns (drained: seq<Write>)
      requires Valid()
      modifies this`pending, this`writes
      ensures Valid() && writes == [] && pending == map[] && Drains(drained, old(pending))
    {
      drained := [];
      var rest := pending.Keys;
      while rest != {}
        invariant rest <= pending.Keys && unchanged(this)
        invariant forall w :: w in drained <==> exists p :: p in pending && p !in rest && pending[p] == w
        invariant forall i, j :: 0 <= i < j < |drained| ==> drained[i] != drained[j]
        decreases |rest|
      {
        var p :| p in rest;
        PendingComesFrom(writes, p);
        forall q | q in pending && q !in rest ensures pending[q] != pending[p] {
          PendingComesFrom(writes, q);
        }
        ghost var before, left := drained, rest;
        assert pending[p] !in before;
        rest := rest - {p};
        drained := drained + [pending[p]];
        forall w ensures w in drained <==> exists q :: q in pending && q !in rest && pending[q] == w {
          if w in before {
            var q :| q in pending && q !in left && pending[q] == w;
            assert q !in rest;
          }
          if q :| q in pending && q !in rest && pending[q] == w {
            assert q == p || q !in left;
          }
        }
      }
      pending, writes := map[], [];
    }

    /** An unknown namespace gives an empty page and the cursor back. */
    method ListSince(namespace: Name, cursor: Name, limit: nat) returns (page: Page)
      ensures var ns := Space(namespace); var keys := KeysOf(ns);
              page == PageFrom(keys, ns, WasmStart(keys, cursor), cursor, limit)
    {
      hide Less, WasmStart, FirstAfter, Ascending, KeysOf, Listing, PageFrom, PageKeys;
      if namespace !in values {
        NothingListed(cursor, limit);
        return Page([], cursor);
      }
      var ns := values[namespace];
      var sorted := SortedKeys(ns);
      KeysThere(sorted, ns);
      ListingIsUnique(sorted, KeysOf(ns), ns);
      var i := WasmStart(sorted, cursor);
      ghost var start := i;
      var records: seq<Record> := [];
      var next := cursor;
      while i < |sorted| && |records| < limit
        invariant start <= i <= |sorted| && |records| == i - start <= limit
        invariant records == Records(sorted[start..i], ns)
        invariant next == if i == start then cursor else sorted[i - 1]
      {
        assert sorted[start..i + 1] == sorted[start..i] + [sorted[i]];
        assert sorted[i] in sorted;
        records := records + [Record(sorted[i], ns[sorted[i]])];
        next := sorted[i];
        i := i + 1;
      }
      PageIs(sorted, ns, start, i, cursor, limit);
      page := Page(records, next);
    }
  }
}
