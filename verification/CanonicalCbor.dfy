/** The canonical form of a CBOR value: maps ordered by their encoded keys, each key once (RFC 8949, section 4.2.1). */
module CanonicalCbor {
  import opened Wrappers
  import opened Bytes
  import opened Cbor

  // The ordered map that gathers the entries

  /** An entry under the bytes that order it. */
  datatype Slot = Slot(bytes: ByteString, entry: Entry)

  ghost predicate Ascending(slots: seq<Slot>) {
    forall i, j :: 0 <= i < j < |slots| ==> Less(slots[i].bytes, slots[j].bytes)
  }

  /** BTreeMap::insert: an equal key is replaced. */
  function Insert(ordered: seq<Slot>, s: Slot): (r: seq<Slot>)
    ensures |r| <= |ordered| + 1
    ensures forall m :: m in r ==> m == s || m in ordered
  {
    if ordered == [] then [s] else
      var last := |ordered| - 1;
      if ordered[last].bytes == s.bytes then ordered[..last] + [s]
      else if Less(ordered[last].bytes, s.bytes) then ordered + [s]
      else Insert(ordered[..last], s) + [ordered[last]]
  }

  function Collect(slots: seq<Slot>): (r: seq<Slot>)
    ensures |r| <= |slots|
    ensures forall m :: m in r ==> m in slots
  {
    if slots == [] then [] else Insert(Collect(slots[..|slots| - 1]), slots[|slots| - 1])
  }

  lemma {:induction false} InsertIntoAscending(ordered: seq<Slot>, s: Slot)
    requires Ascending(ordered)
    ensures Ascending(Insert(ordered, s))
    ensures forall m :: m in Insert(ordered, s) <==> m == s || (m in ordered && m.bytes != s.bytes)
  {
    hide Less, Insert;
    InsertCases(ordered, s);
    var r := Insert(ordered, s);
    if ordered != [] {
      var init, last := ordered[..|ordered| - 1], ordered[|ordered| - 1];
      InsertIntoAscending(init, s);
      BelowLast(ordered, s);
      forall i, j | 0 <= i < j < |r| ensures Less(r[i].bytes, r[j].bytes) {
        if last.bytes != s.bytes && !Less(last.bytes, s.bytes) && j == |r| - 1 {
          assert r[i] in Insert(init, s);
        }
      }
      assert ordered == init + [last];
    }
  }

  lemma InsertCases(ordered: seq<Slot>, s: Slot)
    ensures ordered == [] ==> Insert(ordered, s) == [s]
    ensures ordered != [] ==>
              var init, last := ordered[..|ordered| - 1], ordered[|ordered| - 1];
              Insert(ordered, s) == if last.bytes == s.bytes then init + [s]
                                    else if Less(last.bytes, s.bytes) then ordered + [s] else Insert(init, s) + [last]
  {
  }

  lemma BelowLast(ordered: seq<Slot>, s: Slot)
    requires Ascending(ordered) && ordered != []
    ensures var last := ordered[|ordered| - 1];
            && (forall m :: m in ordered[..|ordered| - 1] ==> m.bytes != last.bytes && Less(m.bytes, last.bytes))
            && (last.bytes != s.bytes && !Less(last.bytes, s.bytes) ==> Less(s.bytes, last.bytes))
            && (Less(last.bytes, s.bytes) ==> forall m :: m in ordered ==> m.bytes != s.bytes && Less(m.bytes, s.bytes))
  {
    hide Less;
    var last := ordered[|ordered| - 1];
    LessIsTotal(last.bytes, s.bytes);
    forall m | m in ordered[..|ordered| - 1] ensures m.bytes != last.bytes && Less(m.bytes, last.bytes) {
      LessIsTotal(m.bytes, last.bytes);
    }
    if Less(last.bytes, s.bytes) {
      forall m | m in ordered ensures m.bytes != s.bytes && Less(m.bytes, s.bytes) {
        if m != last {
          assert m in ordered[..|ordered| - 1];
          LessIsTransitive(m.bytes, last.bytes, s.bytes);
        }
        LessIsTotal(m.bytes, s.bytes);
      }
    }
  }

  /** The slot is there and no later one has its bytes. */
  ghost predicate Survives(slots: seq<Slot>, m: Slot) {
    exists i :: 0 <= i < |slots| && slots[i] == m && forall j :: i < j < |slots| ==> slots[j].bytes != m.bytes
  }

  lemma SurvivesSnoc(slots: seq<Slot>, m: Slot)
    requires slots != []
    ensures var init, last := slots[..|slots| - 1], slots[|slots| - 1];
            Survives(slots, m) <==> m == last || (Survives(init, m) && m.bytes != last.bytes)
  {
    var init, last := slots[..|slots| - 1], slots[|slots| - 1];
    if m == last {
      assert slots[|slots| - 1] == m;
    } else if Survives(slots, m) {
      var i :| 0 <= i < |slots| && slots[i] == m && forall j :: i < j < |slots| ==> slots[j].bytes != m.bytes;
      assert init[i] == m;
    } else if i :| 0 <= i < |init| && init[i] == m && forall j :: i < j < |init| ==> init[j].bytes != m.bytes {
      assert slots[i] == m;
    }
  }

  /** What is gathered is in order, and of entries with equal keys the last one. */
  lemma {:induction false} CollectKeepsLast(slots: seq<Slot>)
    ensures Ascending(Collect(slots))
    ensures forall m :: m in Collect(slots) <==> Survives(slots, m)
  {
    hide Insert, Ascending, Survives;
    if slots == [] {
      assert Ascending([]) && forall m :: !Survives([], m) by { NothingSurvives(); }
    } else {
      CollectKeepsLast(slots[..|slots| - 1]);
      InsertIntoAscending(Collect(slots[..|slots| - 1]), slots[|slots| - 1]);
      forall m ensures m in Collect(slots) <==> Survives(slots, m) {
        SurvivesSnoc(slots, m);
      }
    }
  }

  lemma NothingSurvives()
    ensures Ascending([]) && forall m :: !Survives([], m)
  {
  }

  lemma {:induction false} CollectOfAscending(slots: seq<Slot>)
    requires Ascending(slots)
    ensures Collect(slots) == slots
  {
    if slots != [] {
      var init, last := slots[..|slots| - 1], slots[|slots| - 1];
      CollectOfAscending(init);
      assert slots == init + [last];
      if init != [] {
        LessIsTotal(init[|init| - 1].bytes, last.bytes);
      }
    }
  }

  lemma SameTop(a: seq<Slot>, b: seq<Slot>)
    requires Ascending(a) && Ascending(b) && a != [] && b != [] && forall m :: m in a <==> m in b
    ensures a[|a| - 1] == b[|b| - 1]
  {
    hide Less, Ascending;
    var x, y := a[|a| - 1], b[|b| - 1];
    BelowLast(a, y);
    BelowLast(b, x);
    LessIsTotal(x.bytes, y.bytes);
    assert x in b && y in a && a == a[..|a| - 1] + [x] && b == b[..|b| - 1] + [y];
  }

  /** Without its last slot, an ascending list has the other members. */
  lemma WithoutTop(a: seq<Slot>)
    requires Ascending(a) && a != []
    ensures Ascending(a[..|a| - 1])
    ensures forall m :: m in a[..|a| - 1] <==> m in a && m != a[|a| - 1]
  {
    hide Less;
    BelowLast(a, a[|a| - 1]);
    assert a == a[..|a| - 1] + [a[|a| - 1]];
  }

  /** An ascending list is determined by its members. */
  lemma {:induction false} AscendingIsUnique(a: seq<Slot>, b: seq<Slot>)
    requires Ascending(a) && Ascending(b) && forall m :: m in a <==> m in b
    ensures a == b
    decreases |a|
  {
    hide Less, Ascending;
    assert a != [] ==> a[0] in b;
    assert b != [] ==> b[0] in a;
    if a != [] {
      SameTop(a, b);
      WithoutTop(a);
      WithoutTop(b);
      var p, q := a[..|a| - 1], b[..|b| - 1];
      forall m ensures m in p <==> m in q {
        assert m in p <==> m in a && m != a[|a| - 1];
      }
      AscendingIsUnique(p, q);
      assert a == a[..|a| - 1] + [a[|a| - 1]] && b == b[..|b| - 1] + [b[|b| - 1]];
    }
  }

  // Sizes, on which canonicalization terminates

  ghost function Size(v: Value): (n: nat)
    ensures n > 0
    decreases v
  {
    match v
    case Array(items) => 1 + SizeAll(items)
    case Map(entries) => 1 + SizeEntries(entries)
    case _ => 1
  }

  ghost function SizeAll(items: seq<Value>): nat
    decreases items
  {
    if items == [] then 0 else SizeAll(items[..|items| - 1]) + Size(items[|items| - 1])
  }

  ghost function SizeEntries(entries: seq<Entry>): nat
    decreases entries
  {
    if entries == [] then 0 else SizeEntries(entries[..|entries| - 1]) + SizeEntry(entries[|entries| - 1])
  }

  ghost function SizeEntry(e: Entry): (n: nat)
    ensures n > 0
    decreases e
  {
    1 + Size(e.key) + Size(e.value)
  }

  function EntriesOf(slots: seq<Slot>): (r: seq<Entry>)
    ensures |r| == |slots| && forall i :: 0 <= i < |r| ==> r[i] == slots[i].entry
  {
    seq(|slots|, i requires 0 <= i < |slots| => slots[i].entry)
  }

  lemma EntriesOfSnoc(slots: seq<Slot>, s: Slot)
    ensures EntriesOf(slots + [s]) == EntriesOf(slots) + [s.entry]
    ensures SizeEntries(EntriesOf(slots + [s])) == SizeEntries(EntriesOf(slots)) + SizeEntry(s.entry)
  {
    var e := EntriesOf(slots + [s]);
    assert e[..|e| - 1] == EntriesOf(slots);
  }

  lemma {:induction false} InsertSize(ordered: seq<Slot>, s: Slot)
    ensures SizeEntries(EntriesOf(Insert(ordered, s))) <= SizeEntries(EntriesOf(ordered)) + SizeEntry(s.entry)
  {
    hide SizeEntries, SizeEntry, Less;
    if ordered == [] {
      EntriesOfSnoc([], s);
      assert [] + [s] == [s];
    } else {
      var init, last := ordered[..|ordered| - 1], ordered[|ordered| - 1];
      assert ordered == init + [last];
      InsertSize(init, s);
      EntriesOfSnoc(init, last);
      EntriesOfSnoc(init, s);
      EntriesOfSnoc(ordered, s);
      EntriesOfSnoc(Insert(init, s), last);
    }
  }

  lemma {:induction false} CollectSize(slots: seq<Slot>)
    ensures SizeEntries(EntriesOf(Collect(slots))) <= SizeEntries(EntriesOf(slots))
  {
    hide SizeEntries, SizeEntry, Insert;
    if slots != [] {
      var init, last := slots[..|slots| - 1], slots[|slots| - 1];
      CollectSize(init);
      InsertSize(Collect(init), last);
      assert slots == init + [last];
      EntriesOfSnoc(init, last);
    }
  }

  // The canonical form

  /** Keys and values first; a key is encoded, which canonicalizes it once more, to place its entry. */
  function Canon(v: Value): (r: Value)
    requires Fits(v)
    ensures Fits(r) && Size(r) <= Size(v)
    decreases Size(v), 0
  {
    match v
    case Array(items) => Array(CanonAll(items))
    case Map(entries) =>
      var slots := Slots(entries);
      CollectSize(slots);
      GatheredFit(slots);
      Map(EntriesOf(Collect(slots)))
    case _ => v
  }

  function CanonAll(items: seq<Value>): (r: seq<Value>)
    requires AllFit(items)
    ensures |r| == |items| && AllFit(r) && SizeAll(r) <= SizeAll(items)
    decreases SizeAll(items), 1
  {
    if items == [] then [] else
      var last := |items| - 1;
      var r := CanonAll(items[..last]) + [Canon(items[last])];
      assert r[..last] == CanonAll(items[..last]);
      r
  }

  function Slots(entries: seq<Entry>): (r: seq<Slot>)
    requires EntriesFit(entries)
    ensures |r| == |entries| && EntriesFit(EntriesOf(r)) && SizeEntries(EntriesOf(r)) <= SizeEntries(entries)
    decreases SizeEntries(entries), 2
  {
    if entries == [] then [] else
      var last := |entries| - 1;
      var front := Slots(entries[..last]);
      var s := SlotOf(entries[last]);
      EntriesOfSnoc(front, s);
      front + [s]
  }

  function SlotOf(e: Entry): (s: Slot)
    requires Fits(e.key) && Fits(e.value)
    ensures Fits(s.entry.key) && Fits(s.entry.value) && SizeEntry(s.entry) <= SizeEntry(e)
    decreases SizeEntry(e), 1
  {
    var key := Canon(e.key);
    Slot(Encode(Canon(key)), Entry(key, Canon(e.value)))
  }

  lemma GatheredFit(slots: seq<Slot>)
    requires EntriesFit(EntriesOf(slots))
    ensures EntriesFit(EntriesOf(Collect(slots)))
  {
    var r := Collect(slots);
    forall i | 0 <= i < |r| ensures Fits(r[i].entry.key) && Fits(r[i].entry.value) {
      assert r[i] in slots;
      var k :| 0 <= k < |slots| && slots[k] == r[i];
      assert EntriesOf(slots)[k] == r[i].entry;
    }
  }

  function EncodeCanonical(v: Value): ByteString
    requires Fits(v)
  {
    Encode(Canon(v))
  }

  // Canonical values

  /** Every map inside has its keys in ascending order of their encodings, each once. */
  ghost predicate IsCanonical(v: Value)
    requires Fits(v)
    decreases v
  {
    match v
    case Array(items) => forall i :: 0 <= i < |items| ==> IsCanonical(items[i])
    case Map(entries) =>
      && (forall i :: 0 <= i < |entries| ==> IsCanonical(entries[i].key) && IsCanonical(entries[i].value))
      && KeysAscend(entries)
    case _ => true
  }

  ghost predicate KeysAscend(entries: seq<Entry>)
    requires EntriesFit(entries)
  {
    forall i, j :: 0 <= i < j < |entries| ==> Less(Encode(entries[i].key), Encode(entries[j].key))
  }

  lemma {:induction false} SlotsAt(entries: seq<Entry>)
    requires EntriesFit(entries)
    ensures forall i :: 0 <= i < |entries| ==> Slots(entries)[i] == SlotOf(entries[i])
  {
    hide SlotOf, Fits;
    if entries != [] {
      SlotsAt(entries[..|entries| - 1]);
    }
  }

  lemma {:induction false} CanonAllAt(items: seq<Value>)
    requires AllFit(items)
    ensures forall i :: 0 <= i < |items| ==> CanonAll(items)[i] == Canon(items[i])
  {
    hide Canon, Fits;
    if items != [] {
      CanonAllAt(items[..|items| - 1]);
    }
  }

  /** A canonical value is its own canonical form. */
  lemma {:induction false} CanonicalFixed(v: Value)
    requires Fits(v) && IsCanonical(v)
    ensures Canon(v) == v
    decreases v
  {
    hide Less, Collect;
    match v
    case Array(items) =>
      forall i | 0 <= i < |items| ensures Canon(items[i]) == items[i] {
        CanonicalFixed(items[i]);
      }
      CanonAllAt(items);
    case Map(entries) =>
      forall i | 0 <= i < |entries| ensures SlotOf(entries[i]) == Slot(Encode(entries[i].key), entries[i]) {
        EntryFixed(entries[i]);
      }
      SlotsAt(entries);
      CollectOfAscending(Slots(entries));
    case _ =>
  }

  lemma {:induction false} EntryFixed(e: Entry)
    requires Fits(e.key) && Fits(e.value) && IsCanonical(e.key) && IsCanonical(e.value)
    ensures SlotOf(e) == Slot(Encode(e.key), e)
    decreases e
  {
    CanonicalFixed(e.key);
    CanonicalFixed(e.value);
  }

  lemma {:induction false} CanonIsCanonical(v: Value)
    requires Fits(v)
    ensures IsCanonical(Canon(v))
    decreases v
  {
    match v
    case Array(items) =>
      CanonAllAt(items);
      forall i | 0 <= i < |items| ensures IsCanonical(Canon(items[i])) {
        CanonIsCanonical(items[i]);
      }
    case Map(entries) =>
      forall i | 0 <= i < |entries| ensures SlotCanonical(SlotOf(entries[i])) {
        EntryIsCanonical(entries[i]);
      }
      SlotsAt(entries);
      CollectKeepsLast(Slots(entries));
      GatheredCanonical(Slots(entries));
    case _ =>
  }

  ghost predicate SlotCanonical(s: Slot) {
    && Fits(s.entry.key) && Fits(s.entry.value) && IsCanonical(s.entry.key) && IsCanonical(s.entry.value)
    && s.bytes == Encode(s.entry.key)
  }

  lemma GatheredCanonical(slots: seq<Slot>)
    requires forall i :: 0 <= i < |slots| ==> SlotCanonical(slots[i])
    requires Ascending(Collect(slots)) && |slots| < U64_LIMIT
    ensures var v := Map(EntriesOf(Collect(slots))); Fits(v) && IsCanonical(v)
  {
    hide *;
    var r := Collect(slots);
    forall i | 0 <= i < |r| ensures SlotCanonical(r[i]) {
      assert r[i] in slots;
    }
    AscendingIsCanonical(r);
  }

  lemma AscendingIsCanonical(slots: seq<Slot>)
    requires forall i :: 0 <= i < |slots| ==> SlotCanonical(slots[i])
    requires Ascending(slots) && |slots| < U64_LIMIT
    ensures var v := Map(EntriesOf(slots)); Fits(v) && IsCanonical(v)
  {
    hide Less, Encode;
    var entries := EntriesOf(slots);
    forall i | 0 <= i < |entries|
      ensures Fits(entries[i].key) && Fits(entries[i].value) && IsCanonical(entries[i].key) && IsCanonical(entries[i].value)
    {
      assert SlotCanonical(slots[i]);
    }
    forall i, j | 0 <= i < j < |entries| ensures Less(Encode(entries[i].key), Encode(entries[j].key)) {
      assert Less(slots[i].bytes, slots[j].bytes);
    }
  }

  /** An entry is placed by the encoding of its canonical key. */
  lemma {:induction false} EntryIsCanonical(e: Entry)
    requires Fits(e.key) && Fits(e.value)
    ensures SlotCanonical(SlotOf(e))
    decreases e
  {
    CanonIsCanonical(e.key);
    CanonIsCanonical(e.value);
    CanonicalFixed(Canon(e.key));
  }

  lemma CanonIsIdempotent(v: Value)
    requires Fits(v)
    ensures Canon(Canon(v)) == Canon(v)
  {
    CanonIsCanonical(v);
    CanonicalFixed(Canon(v));
  }

  // Duplicate keys and order

  ghost predicate SameKey(a: Entry, b: Entry)
    requires Fits(a.key) && Fits(b.key)
  {
    EncodeCanonical(a.key) == EncodeCanonical(b.key)
  }

  lemma PlacedByKey(e: Entry)
    requires Fits(e.key) && Fits(e.value)
    ensures SlotOf(e) == Slot(EncodeCanonical(e.key), Entry(Canon(e.key), Canon(e.value)))
  {
    EntryIsCanonical(e);
  }

  /** The canonical map holds, in canonical form, exactly those entries that no later entry with the same key
      overrides. */
  lemma LastKeyWins(entries: seq<Entry>, m: Entry)
    requires Fits(Map(entries))
    ensures m in Canon(Map(entries)).entries <==>
              exists i :: 0 <= i < |entries| && m == Entry(Canon(entries[i].key), Canon(entries[i].value))
                       && forall j :: i < j < |entries| ==> !SameKey(entries[i], entries[j])
  {
    hide Canon, Slots, SlotOf, Collect, EncodeCanonical, Survives;
    var slots := Slots(entries);
    CanonOfMap(entries);
    SlotsAt(entries);
    CollectKeepsLast(slots);
    forall i | 0 <= i < |entries|
      ensures slots[i] == Slot(EncodeCanonical(entries[i].key), Entry(Canon(entries[i].key), Canon(entries[i].value)))
    {
      PlacedByKey(entries[i]);
    }
    if m in EntriesOf(Collect(slots)) {
      var i := SurvivorOf(slots, m);
      assert forall j :: i < j < |entries| ==> slots[j].bytes != slots[i].bytes;
    }
    if i :| 0 <= i < |entries| && m == Entry(Canon(entries[i].key), Canon(entries[i].value))
            && forall j :: i < j < |entries| ==> !SameKey(entries[i], entries[j]) {
      IsSurvivor(slots, i);
    }
  }

  lemma SurvivorOf(slots: seq<Slot>, m: Entry) returns (i: nat)
    requires m in EntriesOf(Collect(slots)) && forall s :: s in Collect(slots) <==> Survives(slots, s)
    ensures i < |slots| && slots[i].entry == m && forall j :: i < j < |slots| ==> slots[j].bytes != slots[i].bytes
  {
    hide Collect;
    var r := Collect(slots);
    var k :| 0 <= k < |r| && r[k].entry == m;
    assert r[k] in r;
    i :| 0 <= i < |slots| && slots[i] == r[k] && forall j :: i < j < |slots| ==> slots[j].bytes != r[k].bytes;
  }

  lemma IsSurvivor(slots: seq<Slot>, i: nat)
    requires i < |slots| && forall j :: i < j < |slots| ==> slots[j].bytes != slots[i].bytes
    requires forall s :: s in Collect(slots) <==> Survives(slots, s)
    ensures slots[i].entry in EntriesOf(Collect(slots))
  {
    hide Collect;
    assert Survives(slots, slots[i]);
    var r := Collect(slots);
    var k :| 0 <= k < |r| && r[k] == slots[i];
    assert EntriesOf(r)[k] == slots[i].entry;
  }

  lemma CanonOfMap(entries: seq<Entry>)
    requires Fits(Map(entries))
    ensures Canon(Map(entries)) == Map(EntriesOf(Collect(Slots(entries))))
  {
  }

  ghost predicate KeysDiffer(entries: seq<Entry>)
    requires EntriesFit(entries)
  {
    forall i, j :: 0 <= i < j < |entries| ==> !SameKey(entries[i], entries[j])
  }

  ghost predicate IsPermutation(p: seq<nat>, n: nat) {
    && |p| == n && (forall i :: 0 <= i < n ==> p[i] < n)
    && (forall i, j :: 0 <= i < j < n ==> p[i] != p[j])
    && (forall k: nat :: k < n ==> k in p)
  }

  /** The same value up to the order of map entries, at any depth, where the keys of a map differ. */
  ghost predicate Reordered(v: Value, w: Value)
    requires Fits(v) && Fits(w)
    decreases v
  {
    match v
    case Array(items) =>
      w.Array? && |items| == |w.items| && forall i :: 0 <= i < |items| ==> Reordered(items[i], w.items[i])
    case Map(entries) =>
      w.Map? && KeysDiffer(entries) && exists p :: Rearranged(entries, w.entries, p)
    case _ => v == w
  }

  ghost predicate Rearranged(a: seq<Entry>, b: seq<Entry>, p: seq<nat>)
    requires EntriesFit(a) && EntriesFit(b)
    decreases a
  {
    && |a| == |b| && IsPermutation(p, |a|)
    && forall i :: 0 <= i < |a| ==> EntryReordered(a[i], b[p[i]])
  }

  ghost predicate EntryReordered(a: Entry, b: Entry)
    requires Fits(a.key) && Fits(a.value) && Fits(b.key) && Fits(b.value)
    decreases a
  {
    Reordered(a.key, b.key) && Reordered(a.value, b.value)
  }

  /** Reordering the entries of maps with distinct keys, at any depth, does not change the canonical form. */
  lemma {:induction false} ReorderedCanon(v: Value, w: Value)
    requires Fits(v) && Fits(w) && Reordered(v, w)
    ensures Canon(v) == Canon(w)
    decreases v
  {
    match v
    case Array(items) =>
      forall i | 0 <= i < |items| ensures Canon(items[i]) == Canon(w.items[i]) {
        ReorderedCanon(items[i], w.items[i]);
      }
      CanonAllAt(items);
      CanonAllAt(w.items);
      assert CanonAll(items) == CanonAll(w.items);
    case Map(entries) =>
      var p :| Rearranged(entries, w.entries, p);
      forall i | 0 <= i < |entries| ensures SlotOf(entries[i]) == SlotOf(w.entries[p[i]]) {
        EntryReorderedSlot(entries[i], w.entries[p[i]]);
      }
      RearrangedCanon(entries, w.entries, p);
    case _ =>
  }

  lemma {:induction false} EntryReorderedSlot(a: Entry, b: Entry)
    requires Fits(a.key) && Fits(a.value) && Fits(b.key) && Fits(b.value) && EntryReordered(a, b)
    ensures SlotOf(a) == SlotOf(b)
    decreases a
  {
    ReorderedCanon(a.key, b.key);
    ReorderedCanon(a.value, b.value);
  }

  lemma RearrangedCanon(a: seq<Entry>, b: seq<Entry>, p: seq<nat>)
    requires Fits(Map(a)) && Fits(Map(b)) && |a| == |b| && IsPermutation(p, |a|) && KeysDiffer(a)
    requires forall i :: 0 <= i < |a| ==> SlotOf(a[i]) == SlotOf(b[p[i]])
    ensures Canon(Map(a)) == Canon(Map(b))
  {
    hide Canon, Slots, SlotOf, Collect, SameKey, IsPermutation;
    CanonOfMap(a);
    CanonOfMap(b);
    SlotsAt(a);
    SlotsAt(b);
    DistinctSlots(a);
    ImagesInRange(p, |a|);
    RearrangedSlots(Slots(a), Slots(b), p);
  }

  lemma DistinctSlots(a: seq<Entry>)
    requires EntriesFit(a) && KeysDiffer(a)
    ensures forall i, j :: 0 <= i < j < |a| ==> Slots(a)[i].bytes != Slots(a)[j].bytes
  {
    hide Canon, Slots, SlotOf, EncodeCanonical;
    SlotsAt(a);
    forall i | 0 <= i < |a| ensures Slots(a)[i].bytes == EncodeCanonical(a[i].key) {
      PlacedByKey(a[i]);
    }
  }

  lemma RearrangedSlots(a: seq<Slot>, b: seq<Slot>, p: seq<nat>)
    requires |a| == |b| && IsPermutation(p, |a|)
    requires forall i :: 0 <= i < |a| ==> a[i] == b[p[i]]
    requires forall i, j :: 0 <= i < j < |a| ==> a[i].bytes != a[j].bytes
    ensures Collect(a) == Collect(b)
  {
    hide Collect, Ascending, Survives, IsPermutation;
    CollectKeepsLast(a);
    CollectKeepsLast(b);
    RearrangedMembers(a, b, p);
    DistinctSurvive(a);
    DistinctSurvive(b);
    AscendingIsUnique(Collect(a), Collect(b));
  }

  lemma RearrangedMembers(a: seq<Slot>, b: seq<Slot>, p: seq<nat>)
    requires |a| == |b| && IsPermutation(p, |a|)
    requires forall i :: 0 <= i < |a| ==> a[i] == b[p[i]]
    requires forall i, j :: 0 <= i < j < |a| ==> a[i].bytes != a[j].bytes
    ensures forall m :: m in a <==> m in b
    ensures forall i, j :: 0 <= i < j < |b| ==> b[i].bytes != b[j].bytes
  {
    hide IsPermutation;
    forall i, j | 0 <= i < j < |b| ensures b[i].bytes != b[j].bytes {
      var x := Preimage(p, |a|, i);
      var y := Preimage(p, |a|, j);
    }
    forall m | m in b ensures m in a {
      var k :| 0 <= k < |b| && b[k] == m;
      var x := Preimage(p, |a|, k);
    }
    forall m | m in a ensures m in b {
      var k :| 0 <= k < |a| && a[k] == m;
      ImagesInRange(p, |a|);
    }
  }

  lemma Preimage(p: seq<nat>, n: nat, k: nat) returns (x: nat)
    requires IsPermutation(p, n) && k < n
    ensures x < n == |p| && p[x] == k
  {
    assert k in p;
    x :| 0 <= x < |p| && p[x] == k;
  }

  lemma ImagesInRange(p: seq<nat>, n: nat)
    requires IsPermutation(p, n)
    ensures |p| == n && forall i :: 0 <= i < n ==> p[i] < n
  {
  }

  lemma DistinctSurvive(slots: seq<Slot>)
    requires forall i, j :: 0 <= i < j < |slots| ==> slots[i].bytes != slots[j].bytes
    ensures forall m :: Survives(slots, m) <==> m in slots
  {
    forall m | m in slots ensures Survives(slots, m) {
      var i :| 0 <= i < |slots| && slots[i] == m;
      assert forall j :: i < j < |slots| ==> slots[j].bytes != m.bytes;
    }
  }
}
