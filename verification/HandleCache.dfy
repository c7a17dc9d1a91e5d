/** The key handles of a session: a map and a queue that together are a least-recently-used cache. */
module HandleCache {
  import opened Wrappers

  type Handle = string

  datatype HandleEntry = ScopeKey(scopeId: string, scopeEpoch: nat, key: seq<nat>)
                       | ResourceKey(resourceId: string, resourceKeyId: string, key: seq<nat>)

  // The ideal cache: entries from least to most recently used

  datatype Slot = Slot(id: Handle, entry: HandleEntry)
  type Cache = seq<Slot>

  predicate Holds(c: Cache, id: Handle) {
    exists i :: 0 <= i < |c| && c[i].id == id
  }

  function Without(c: Cache, id: Handle): (r: Cache)
    ensures |r| <= |c| && forall s :: s in r <==> s in c && s.id != id
  {
    if c == [] then [] else
      Without(c[..|c| - 1], id) + if c[|c| - 1].id == id then [] else [c[|c| - 1]]
  }

  function EntryOf(c: Cache, id: Handle): Option<HandleEntry> {
    if c == [] then None else if c[|c| - 1].id == id then Some(c[|c| - 1].entry) else EntryOf(c[..|c| - 1], id)
  }

  /** Dropping the least recently used until there is room for one more. */
  function Evict(c: Cache, max: nat): (r: Cache)
    ensures |r| < max || r == []
    ensures |r| <= |c| && r == c[|c| - |r|..]
  {
    if |c| >= max && c != [] then Evict(c[1..], max) else c
  }

  function Inserted(c: Cache, max: nat, id: Handle, e: HandleEntry): Cache {
    Without(Evict(c, max), id) + [Slot(id, e)]
  }

  function Used(c: Cache, id: Handle): Cache {
    match EntryOf(c, id)
    case None => c
    case Some(e) => Without(c, id) + [Slot(id, e)]
  }

  // The session's table

  ghost predicate NoRepeats(order: seq<Handle>) {
    forall i, j :: 0 <= i < j < |order| ==> order[i] != order[j]
  }

  /** The queue lists exactly the live handles, each once. */
  ghost predicate Lists(order: seq<Handle>, handles: map<Handle, HandleEntry>) {
    NoRepeats(order) && forall id :: id in order <==> id in handles
  }

  function Paired(order: seq<Handle>, handles: map<Handle, HandleEntry>): (c: Cache)
    requires forall id :: id in order ==> id in handles
    ensures |c| == |order| && forall i :: 0 <= i < |c| ==> c[i] == Slot(order[i], handles[order[i]])
  {
    seq(|order|, i requires 0 <= i < |order| => Slot(order[i], handles[order[i]]))
  }

  function Retain(order: seq<Handle>, id: Handle): (r: seq<Handle>)
    ensures forall x :: x in r <==> x in order && x != id
    ensures NoRepeats(order) ==> NoRepeats(r)
    ensures |r| <= |order|
  {
    if order == [] then [] else
      var init, last := order[..|order| - 1], order[|order| - 1];
      assert order == init + [last];
      assert NoRepeats(order) ==> NoRepeats(init) && last !in init;
      Retain(init, id) + if last == id then [] else [last]
  }

  lemma {:induction false} PairedWithout(order: seq<Handle>, handles: map<Handle, HandleEntry>, id: Handle)
    requires forall x :: x in order ==> x in handles
    ensures Paired(Retain(order, id), handles) == Without(Paired(order, handles), id)
  {
    hide NoRepeats;
    var c := Paired(order, handles);
    if order != [] {
      var init, last := order[..|order| - 1], order[|order| - 1];
      assert order == init + [last];
      PairedWithout(init, handles, id);
      assert c[..|c| - 1] == Paired(init, handles) && c[|c| - 1] == Slot(last, handles[last]);
      PairedSnoc(Retain(init, id), last, handles, last == id);
      assert last == id ==> Retain(order, id) == Retain(init, id) && Without(c, id) == Without(c[..|c| - 1], id);
    }
  }

  lemma PairedSame(order: seq<Handle>, h: map<Handle, HandleEntry>, h': map<Handle, HandleEntry>)
    requires forall x :: x in order ==> x in h && x in h' && h[x] == h'[x]
    ensures Paired(order, h) == Paired(order, h')
  {
  }

  lemma PairedSnoc(order: seq<Handle>, last: Handle, h: map<Handle, HandleEntry>, dropped: bool)
    requires forall x :: x in order ==> x in h
    requires !dropped ==> last in h
    ensures Paired(if dropped then order else order + [last], h)
         == Paired(order, h) + if dropped then [] else [Slot(last, h[last])]
  {
  }

  lemma {:induction false} EntryOfPaired(order: seq<Handle>, handles: map<Handle, HandleEntry>, id: Handle)
    requires forall x :: x in order ==> x in handles
    ensures EntryOf(Paired(order, handles), id) == if id in order then Some(handles[id]) else None
  {
    if order != [] {
      var init, c := order[..|order| - 1], Paired(order, handles);
      assert order == init + [order[|order| - 1]];
      EntryOfPaired(init, handles, id);
      assert c[..|c| - 1] == Paired(init, handles);
    }
  }

  lemma DistinctCount(order: seq<Handle>, handles: map<Handle, HandleEntry>)
    requires Lists(order, handles)
    ensures |handles| == |order|
  {
    DistinctSet(order);
    assert handles.Keys == set x | x in order;
  }

  lemma {:induction false} DistinctSet(order: seq<Handle>)
    requires NoRepeats(order)
    ensures |set x | x in order| == |order|
  {
    if order != [] {
      var init, last := order[..|order| - 1], order[|order| - 1];
      DistinctSet(init);
      assert order == init + [last];
      assert (set x | x in order) == (set x | x in init) + {last};
    }
  }

  lemma DropFirst(order: seq<Handle>, handles: map<Handle, HandleEntry>)
    requires Lists(order, handles) && order != []
    ensures Lists(order[1..], handles - {order[0]})
    ensures Paired(order[1..], handles - {order[0]}) == Paired(order, handles)[1..]
  {
    assert order == [order[0]] + order[1..];
  }

  lemma InsertedLists(order: seq<Handle>, handles: map<Handle, HandleEntry>, id: Handle, entry: HandleEntry)
    requires Lists(order, handles)
    ensures Lists(Retain(order, id) + [id], handles[id := entry])
    ensures Paired(Retain(order, id) + [id], handles[id := entry])
         == Without(Paired(order, handles), id) + [Slot(id, entry)]
  {
    hide NoRepeats;
    PairedWithout(order, handles, id);
    PairedSame(Retain(order, id), handles, handles[id := entry]);
    PairedSnoc(Retain(order, id), id, handles[id := entry], false);
    SnocLists(Retain(order, id), id);
  }

  lemma SnocLists(order: seq<Handle>, id: Handle)
    requires NoRepeats(order) && id !in order
    ensures NoRepeats(order + [id])
  {
  }

  lemma EvictStep(c: Cache, max: nat)
    ensures Evict(c, max) == if |c| >= max && c != [] then Evict(c[1..], max) else c
  {
  }

  class Session {
    const maxHandles: nat
    var handles: map<Handle, HandleEntry>
    var handleOrder: seq<Handle>

    constructor (maxHandles: nat)
      ensures this.maxHandles == maxHandles && Valid() && View() == []
    {
      this.maxHandles := maxHandles;
      handles, handleOrder := map[], [];
    }

    ghost predicate Valid()
      reads this
    {
      Lists(handleOrder, handles)
    }

    ghost function View(): Cache
      reads this
      requires Valid()
    {
      Paired(handleOrder, handles)
    }

    /** The position of a handle in the queue, or its end. */
    method Position(id: Handle) returns (i: nat)
      ensures i <= |handleOrder| && (i < |handleOrder| ==> handleOrder[i] == id)
      ensures i == |handleOrder| <==> id !in handleOrder
    {
      i := 0;
      while i < |handleOrder| && handleOrder[i] != id
        invariant i <= |handleOrder| && forall k :: 0 <= k < i ==> handleOrder[k] != id
      {
        i := i + 1;
      }
    }

    /** To the back of the queue. */
    method TouchHandle(id: Handle)
      requires NoRepeats(handleOrder)
      modifies this`handleOrder
      ensures handleOrder == Retain(old(handleOrder), id) + [id]
    {
      var i := Position(id);
      if i < |handleOrder| {
        RetainAt(handleOrder, i);
        handleOrder := handleOrder[..i] + handleOrder[i + 1..];
      } else {
        RetainAll(handleOrder, id);
      }
      handleOrder := handleOrder + [id];
    }

    /** Old handles go until there is room. */
    method MakeRoom()
      requires Valid()
      modifies this
      ensures Valid() && View() == Evict(old(View()), maxHandles)
    {
      hide NoRepeats, Evict, Paired;
      ghost var start := View();
      DistinctCount(handleOrder, handles);
      while |handles| >= maxHandles
        invariant Valid() && |handles| == |handleOrder|
        invariant Evict(View(), maxHandles) == Evict(start, maxHandles)
        decreases |handleOrder|
      {
        EvictStep(View(), maxHandles);
        if handleOrder == [] {
          break;
        }
        DropFirst(handleOrder, handles);
        var oldest := handleOrder[0];
        handleOrder := handleOrder[1..];
        handles := handles - {oldest};
        DistinctCount(handleOrder, handles);
      }
      EvictStep(View(), maxHandles);
    }

    /** The new handle is the most recently used. */
    method InsertHandle(id: Handle, entry: HandleEntry)
      requires Valid()
      modifies this
      ensures Valid() && View() == Inserted(old(View()), maxHandles, id, entry)
    {
      hide NoRepeats, Evict, Retain, Without;
      MakeRoom();
      InsertedLists(handleOrder, handles, id, entry);
      handles := handles[id := entry];
      TouchHandle(id);
    }

    method GetHandle(id: Handle) returns (entry: Option<HandleEntry>)
      requires Valid()
      modifies this`handleOrder
      ensures Valid() && View() == Used(old(View()), id)
      ensures entry == EntryOf(old(View()), id)
    {
      EntryOfPaired(handleOrder, handles, id);
      PairedWithout(handleOrder, handles, id);
      ghost var before := handleOrder;
      if id in handles {
        TouchHandle(id);
        PairedSnoc(Retain(before, id), id, handles, false);
        SnocLists(Retain(before, id), id);
      }
      entry := if id in handles then Some(handles[id]) else None;
    }

    method RemoveHandle(id: Handle)
      requires Valid()
      modifies this
      ensures Valid() && View() == Without(old(View()), id)
    {
      PairedWithout(handleOrder, handles, id);
      handles := handles - {id};
      handleOrder := Retain(handleOrder, id);
    }
  }

  lemma {:induction false} RetainAll(order: seq<Handle>, id: Handle)
    requires id !in order
    ensures Retain(order, id) == order
  {
    if order != [] {
      var init, last := order[..|order| - 1], order[|order| - 1];
      assert order == init + [last];
      RetainAll(init, id);
    }
  }

  lemma InitNoRepeats(order: seq<Handle>)
    requires NoRepeats(order) && order != []
    ensures NoRepeats(order[..|order| - 1]) && order[|order| - 1] !in order[..|order| - 1]
  {
  }

  lemma {:induction false} RetainAt(order: seq<Handle>, i: nat)
    requires i < |order| && NoRepeats(order)
    ensures Retain(order, order[i]) == order[..i] + order[i + 1..]
  {
    hide NoRepeats;
    var init, last := order[..|order| - 1], order[|order| - 1];
    assert order == init + [last];
    InitNoRepeats(order);
    if i == |order| - 1 {
      RetainAll(init, last);
    } else {
      RetainAt(init, i);
      assert order[i + 1..] == init[i + 1..] + [last];
    }
  }

  // Use over time

  datatype Op = Insert(id: Handle, entry: HandleEntry) | Get(id: Handle) | Remove(id: Handle)

  function Apply(c: Cache, max: nat, op: Op): Cache {
    match op
    case Insert(id, e) => Inserted(c, max, id, e)
    case Get(id) => Used(c, id)
    case Remove(id) => Without(c, id)
  }

  function ApplyAll(max: nat, ops: seq<Op>): Cache {
    if ops == [] then [] else Apply(ApplyAll(max, ops[..|ops| - 1]), max, ops[|ops| - 1])
  }

  /** When a handle was last inserted or looked up; 0 if never. */
  function LastUse(ops: seq<Op>, id: Handle): (t: nat)
    ensures t <= |ops|
  {
    if ops == [] then 0
    else if !ops[|ops| - 1].Remove? && ops[|ops| - 1].id == id then |ops|
    else LastUse(ops[..|ops| - 1], id)
  }

  ghost predicate ByLastUse(ops: seq<Op>, c: Cache) {
    && (forall i :: 0 <= i < |c| ==> LastUse(ops, c[i].id) > 0)
    && forall i, j :: 0 <= i < j < |c| ==> LastUse(ops, c[i].id) < LastUse(ops, c[j].id)
  }

  lemma {:induction false} WithoutKeepsOrder(ops: seq<Op>, c: Cache, id: Handle)
    requires ByLastUse(ops, c)
    ensures ByLastUse(ops, Without(c, id))
  {
    hide LastUse, ByLastUse;
    if c != [] {
      var init, last := c[..|c| - 1], c[|c| - 1];
      InitByLastUse(ops, c);
      WithoutKeepsOrder(ops, init, id);
      if last.id != id {
        SnocByLastUse(ops, Without(init, id), last);
      } else {
        assert Without(c, id) == Without(init, id);
      }
    }
  }

  lemma InitByLastUse(ops: seq<Op>, c: Cache)
    requires ByLastUse(ops, c) && c != []
    ensures var init, last := c[..|c| - 1], c[|c| - 1];
            && ByLastUse(ops, init) && LastUse(ops, last.id) > 0
            && forall s :: s in init ==> LastUse(ops, s.id) < LastUse(ops, last.id)
  {
    hide LastUse;
  }

  lemma SnocByLastUse(ops: seq<Op>, c: Cache, last: Slot)
    requires ByLastUse(ops, c) && LastUse(ops, last.id) > 0
    requires forall s :: s in c ==> LastUse(ops, s.id) < LastUse(ops, last.id)
    ensures ByLastUse(ops, c + [last])
  {
    hide LastUse;
  }

  /** A handle just used goes after all the others. */
  lemma UsedLast(ops: seq<Op>, op: Op, c: Cache, e: HandleEntry)
    requires ByLastUse(ops, c) && !op.Remove?
    ensures ByLastUse(ops + [op], Without(c, op.id) + [Slot(op.id, e)])
  {
    hide ByLastUse;
    var after, rest := ops + [op], Without(c, op.id);
    assert after[..|after| - 1] == ops;
    WithoutKeepsOrder(ops, c, op.id);
    assert !Holds(rest, op.id) by {
      forall i | 0 <= i < |rest| ensures rest[i].id != op.id { assert rest[i] in rest; }
    }
    OthersKeepUse(ops, op, rest);
    SnocByLastUse(after, rest, Slot(op.id, e));
  }

  lemma OthersKeepUse(ops: seq<Op>, op: Op, c: Cache)
    requires ByLastUse(ops, c) && (op.Remove? || !Holds(c, op.id))
    ensures ByLastUse(ops + [op], c)
  {
    var after := ops + [op];
    assert after[..|after| - 1] == ops;
    forall i | 0 <= i < |c| ensures LastUse(after, c[i].id) == LastUse(ops, c[i].id) {
    }
  }

  lemma {:induction false} EntryOfNone(c: Cache, id: Handle)
    requires EntryOf(c, id) == None
    ensures !Holds(c, id)
  {
    if c != [] {
      EntryOfNone(c[..|c| - 1], id);
      forall i | 0 <= i < |c| ensures c[i].id != id {
        if i < |c| - 1 { assert c[..|c| - 1][i] == c[i]; }
      }
    }
  }

  lemma EvictKeepsOrder(ops: seq<Op>, c: Cache, max: nat)
    requires ByLastUse(ops, c)
    ensures ByLastUse(ops, Evict(c, max))
  {
  }

  /** After any operations the cache holds its handles by last use, and no more than its bound (one, if the bound is
      zero). */
  lemma {:induction false} AlwaysByLastUse(max: nat, ops: seq<Op>)
    ensures ByLastUse(ops, ApplyAll(max, ops))
    ensures |ApplyAll(max, ops)| <= if max == 0 then 1 else max
  {
    hide ByLastUse, LastUse, Evict, Without, EntryOf, Holds;
    if ops == [] {
      assert ByLastUse([], []) by { NothingUsed(); }
    } else {
      var init, op := ops[..|ops| - 1], ops[|ops| - 1];
      var c := ApplyAll(max, init);
      AlwaysByLastUse(max, init);
      assert ops == init + [op];
      match op
      case Insert(id, e) =>
        EvictKeepsOrder(init, c, max);
        UsedLast(init, op, Evict(c, max), e);
      case Get(id) =>
        if EntryOf(c, id).None? {
          EntryOfNone(c, id);
          OthersKeepUse(init, op, c);
        } else {
          UsedLast(init, op, c, EntryOf(c, id).value);
          UsedSize(c, id);
        }
      case Remove(id) =>
        WithoutKeepsOrder(init, c, id);
        OthersKeepUse(init, op, Without(c, id));
    }
  }

  /** With a bound of zero an insertion still leaves its one handle. */
  lemma ZeroBoundKeepsOne(ops: seq<Op>, id: Handle, entry: HandleEntry)
    ensures ApplyAll(0, ops + [Insert(id, entry)]) == [Slot(id, entry)]
  {
    var all := ops + [Insert(id, entry)];
    assert all[..|all| - 1] == ops;
  }

  lemma NothingUsed()
    ensures ByLastUse([], [])
  {
  }

  lemma {:induction false} UsedSize(c: Cache, id: Handle)
    requires EntryOf(c, id).Some?
    ensures |Without(c, id)| < |c|
  {
    if c[|c| - 1].id != id {
      UsedSize(c[..|c| - 1], id);
    }
  }

  lemma LaterUse(ops: seq<Op>, c: Cache, i: nat, j: nat)
    requires ByLastUse(ops, c) && i < j < |c|
    ensures LastUse(ops, c[i].id) < LastUse(ops, c[j].id)
  {
  }

  /** What an insertion drops was used less recently than everything it keeps. */
  lemma EvictsLeastRecent(max: nat, ops: seq<Op>, dropped: Slot, kept: Slot)
    requires dropped in ApplyAll(max, ops) && dropped !in Evict(ApplyAll(max, ops), max)
    requires kept in Evict(ApplyAll(max, ops), max)
    ensures LastUse(ops, dropped.id) < LastUse(ops, kept.id)
  {
    hide ApplyAll, Evict, LastUse, ByLastUse;
    AlwaysByLastUse(max, ops);
    var c, r := ApplyAll(max, ops), Evict(ApplyAll(max, ops), max);
    var i :| 0 <= i < |c| && c[i] == dropped;
    var j :| 0 <= j < |r| && r[j] == kept;
    forall k | |c| - |r| <= k < |c| ensures c[k] != dropped {
      assert c[k] == r[k - (|c| - |r|)];
    }
    assert c[|c| - |r| + j] == kept;
    LaterUse(ops, c, i, |c| - |r| + j);
  }

  // What a cache holds

  lemma {:induction false} EvictSize(c: Cache, max: nat)
    ensures |Evict(c, max)| == if |c| < max then |c| else if max == 0 then 0 else max - 1
  {
    if |c| >= max && c != [] {
      EvictSize(c[1..], max);
    }
  }

  /** The slots an insertion leaves room beside: all when there is room, otherwise the max - 1 most recent. */
  function Spared(c: Cache, max: nat): Cache {
    if |c| < max then c else if max == 0 then [] else c[|c| - (max - 1)..]
  }

  lemma DistinctIds(ops: seq<Op>, c: Cache)
    requires ByLastUse(ops, c)
    ensures forall i, j :: 0 <= i < j < |c| ==> c[i].id != c[j].id
  {
  }

  lemma {:induction false} EntryIs(c: Cache, s: Slot)
    requires s in c && forall i, j :: 0 <= i < j < |c| ==> c[i].id != c[j].id
    ensures EntryOf(c, s.id) == Some(s.entry)
  {
    var k :| 0 <= k < |c| && c[k] == s;
    if k < |c| - 1 {
      assert c[..|c| - 1][k] == s;
      EntryIs(c[..|c| - 1], s);
    }
  }

  /** One operation more: an insertion adds its handle beside those spared, a lookup drops nothing, a removal drops that
      handle alone. */
  lemma OneMore(max: nat, ops: seq<Op>, op: Op, s: Slot)
    ensures var before, after := ApplyAll(max, ops), ApplyAll(max, ops + [op]);
            s in after <==>
              match op
              case Insert(id, e) => s == Slot(id, e) || (s.id != id && s in Spared(before, max))
              case Get(_) => s in before
              case Remove(id) => s.id != id && s in before
  {
    hide ByLastUse, LastUse;
    var c := ApplyAll(max, ops);
    AlwaysByLastUse(max, ops);
    DistinctIds(ops, c);
    EvictSize(c, max);
    assert (ops + [op])[..|ops + [op]| - 1] == ops;
    if op.Get? {
      forall x | x in c ensures EntryOf(c, x.id) == Some(x.entry) { EntryIs(c, x); }
      if EntryOf(c, op.id).Some? { EntryHeld(c, op.id); }
    }
  }

  lemma {:induction false} EntryHeld(c: Cache, id: Handle)
    requires EntryOf(c, id).Some?
    ensures Slot(id, EntryOf(c, id).value) in c
  {
    if c[|c| - 1].id != id {
      EntryHeld(c[..|c| - 1], id);
    }
  }

  predicate Touches(op: Op, id: Handle) {
    !op.Get? && op.id == id
  }

  /** Operation i put the slot in, and nothing since inserted or removed its handle. */
  ghost predicate PutAt(ops: seq<Op>, s: Slot, i: nat) {
    i < |ops| && ops[i] == Insert(s.id, s.entry) && forall j :: i < j < |ops| ==> !Touches(ops[j], s.id)
  }

  /** A live handle has the key material of its last insertion, and was not removed since. */
  lemma {:induction false} HeldIsLastPut(max: nat, ops: seq<Op>, s: Slot) returns (i: nat)
    requires s in ApplyAll(max, ops)
    ensures PutAt(ops, s, i)
  {
    hide Apply;
    var n := |ops| - 1;
    var init, op := ops[..n], ops[n];
    assert ops == init + [op];
    OneMore(max, init, op, s);
    if op == Insert(s.id, s.entry) {
      i := n;
    } else {
      i := HeldIsLastPut(max, init, s);
      assert ops[i] == init[i];
      assert forall j :: i < j < n ==> ops[j] == init[j];
    }
  }
}
