/** Decoding under limits: exactly the canonical encodings are accepted. */
module CborDecoding {
  import opened Wrappers
  import opened Bytes
  import opened Cbor
  import opened CanonicalCbor

  datatype Limits = Limits(maxBytes: nat, maxDepth: nat, maxItems: nat, maxTextBytes: nat)

  const DEFAULT_LIMITS: Limits := Limits(0x10_0000, 64, 4096, 0x1_0000)

  /** The first limit broken, in the order the value is walked. */
  function CheckLimits(v: Value, limits: Limits, depth: nat): (error: Option<CborError>)
    ensures error == None <==> InLimits(v, limits, depth)
    decreases v
  {
    if depth > limits.maxDepth then Some(DepthExceeded) else
      match v
      case Array(items) => if |items| > limits.maxItems then Some(TooManyItems) else CheckItems(items, limits, depth + 1)
      case Map(entries) =>
        if |entries| > limits.maxItems then Some(TooManyItems) else CheckEntries(entries, limits, depth + 1)
      case Text(text) => if |text| > limits.maxTextBytes then Some(TooLarge) else None
      case _ => None
  }

  function CheckItems(items: seq<Value>, limits: Limits, depth: nat): (error: Option<CborError>)
    ensures error == None <==> forall i :: 0 <= i < |items| ==> InLimits(items[i], limits, depth)
    decreases items
  {
    if items == [] then None else
      var first := CheckLimits(items[0], limits, depth);
      if first.Some? then first else
        assert items == [items[0]] + items[1..];
        CheckItems(items[1..], limits, depth)
  }

  function CheckEntries(entries: seq<Entry>, limits: Limits, depth: nat): (error: Option<CborError>)
    ensures error == None <==> forall i :: 0 <= i < |entries| ==>
              InLimits(entries[i].key, limits, depth) && InLimits(entries[i].value, limits, depth)
    decreases entries
  {
    if entries == [] then None else
      var first := CheckEntry(entries[0], limits, depth);
      if first.Some? then first else
        assert entries == [entries[0]] + entries[1..];
        CheckEntries(entries[1..], limits, depth)
  }

  function CheckEntry(e: Entry, limits: Limits, depth: nat): (error: Option<CborError>)
    ensures error == None <==> InLimits(e.key, limits, depth) && InLimits(e.value, limits, depth)
    decreases e
  {
    var first := CheckLimits(e.key, limits, depth);
    if first.Some? then first else CheckLimits(e.value, limits, depth)
  }

  ghost predicate InLimits(v: Value, limits: Limits, depth: nat)
    decreases v
  {
    && depth <= limits.maxDepth
    && match v
       case Array(items) =>
         |items| <= limits.maxItems && forall i :: 0 <= i < |items| ==> InLimits(items[i], limits, depth + 1)
       case Map(entries) =>
         && |entries| <= limits.maxItems
         && forall i :: 0 <= i < |entries| ==>
              InLimits(entries[i].key, limits, depth + 1) && InLimits(entries[i].value, limits, depth + 1)
       case Text(text) => |text| <= limits.maxTextBytes
       case _ => true
  }

  function DecodeCanonical(b: ByteString, limits: Limits): (r: Result<Value, CborError>)
    ensures r.Ok? ==> Fits(r.value) && InLimits(r.value, limits, 0)
  {
    if |b| > limits.maxBytes then Err(TooLarge) else
      match Parse(b)
      case Err(e) => Err(e)
      case Ok(Parsed(v, _)) =>
        match CheckLimits(v, limits, 0)
        case Some(e) => Err(e)
        case None => if EncodeCanonical(v) != b then Err(NonCanonical) else Ok(v)
  }

  /** Canonicalizing breaks no limit. */
  lemma {:induction false} LimitsKept(v: Value, limits: Limits, depth: nat)
    requires Fits(v) && InLimits(v, limits, depth)
    ensures InLimits(Canon(v), limits, depth)
    decreases v
  {
    hide Collect, Slots, Canon, CanonAll, Encode, SlotOf;
    CanonCases(v);
    match v
    case Array(items) =>
      CanonAllAt(items);
      forall i | 0 <= i < |items| ensures InLimits(CanonAll(items)[i], limits, depth + 1) {
        LimitsKept(items[i], limits, depth + 1);
      }
    case Map(entries) =>
      SlotsAt(entries);
      forall i | 0 <= i < |entries| ensures EntryInLimits(Slots(entries)[i].entry, limits, depth + 1) {
        EntryLimitsKept(entries[i], limits, depth + 1);
      }
      CollectedInLimits(Slots(entries), limits, depth);
    case _ =>
  }

  lemma CollectedInLimits(slots: seq<Slot>, limits: Limits, depth: nat)
    requires forall i :: 0 <= i < |slots| ==> EntryInLimits(slots[i].entry, limits, depth + 1)
    requires |slots| <= limits.maxItems && depth <= limits.maxDepth
    ensures InLimits(Map(EntriesOf(Collect(slots))), limits, depth)
  {
    hide Collect;
    var r := Collect(slots);
    forall i | 0 <= i < |r| ensures EntryInLimits(r[i].entry, limits, depth + 1) {
      assert r[i] in slots;
    }
  }

  ghost predicate EntryInLimits(e: Entry, limits: Limits, depth: nat) {
    InLimits(e.key, limits, depth) && InLimits(e.value, limits, depth)
  }

  lemma {:induction false} EntryLimitsKept(e: Entry, limits: Limits, depth: nat)
    requires Fits(e.key) && Fits(e.value) && EntryInLimits(e, limits, depth)
    ensures EntryInLimits(SlotOf(e).entry, limits, depth)
    decreases e
  {
    LimitsKept(e.key, limits, depth);
    LimitsKept(e.value, limits, depth);
  }

  /** What is accepted, and as what: the canonical values within the limits, each in its one encoding. */
  lemma AcceptedIff(b: ByteString, limits: Limits, v: Value)
    ensures DecodeCanonical(b, limits) == Ok(v) <==>
              Fits(v) && IsCanonical(v) && InLimits(v, limits, 0) && |b| <= limits.maxBytes && b == Encode(v)
  {
    hide Parse, Encode, Canon, IsCanonical, CheckLimits, InLimits, Fits;
    if DecodeCanonical(b, limits) == Ok(v) {
      CanonIsCanonical(v);
      ParseOfEncode(Canon(v), []);
      assert Encode(Canon(v)) + [] == b;
      assert v == Canon(v);
    }
    if Fits(v) && IsCanonical(v) && InLimits(v, limits, 0) && |b| <= limits.maxBytes && b == Encode(v) {
      CanonicalFixed(v);
      ParseOfEncode(v, []);
      assert Encode(v) + [] == b;
    }
  }

  /** Decoding the canonical encoding of any value within the limits gives its canonical form. */
  lemma DecodeOfEncode(v: Value, limits: Limits)
    requires Fits(v) && InLimits(v, limits, 0) && |EncodeCanonical(v)| <= limits.maxBytes
    ensures DecodeCanonical(EncodeCanonical(v), limits) == Ok(Canon(v))
  {
    hide DecodeCanonical, Encode, Canon, IsCanonical, InLimits;
    LimitsKept(v, limits, 0);
    CanonIsCanonical(v);
    AcceptedIff(EncodeCanonical(v), limits, Canon(v));
  }

  /** No two accepted byte strings decode to the same value. */
  lemma DecodingIsInjective(a: ByteString, b: ByteString, limits: Limits, limits': Limits)
    requires DecodeCanonical(a, limits).Ok? && DecodeCanonical(a, limits) == DecodeCanonical(b, limits')
    ensures a == b
  {
    hide DecodeCanonical, Encode, IsCanonical, InLimits;
    AcceptedIff(a, limits, DecodeCanonical(a, limits).value);
    AcceptedIff(b, limits', DecodeCanonical(a, limits).value);
  }

  // The canonicalizing loop

  method CanonicalizeValue(v: Value) returns (r: Value)
    requires Fits(v)
    ensures r == Canon(v)
    decreases Size(v), 1
  {
    hide Collect, Insert, Encode, Slots, CanonAll, Canon, Less, Size, SizeEntries, SizeEntry, SizeAll;
    CanonCases(v);
    match v {
      case Map(entries) =>
        var ordered: seq<Slot> := [];
        SlotsAt(entries);
        assert Collect([]) == [] by { CollectSteps([]); }
        ghost var slots := Slots(entries);
        for k := 0 to |entries|
          invariant ordered == Collect(slots[..k])
        {
          PartsSmaller(entries, k);
          var key := CanonicalizeValue(entries[k].key);
          var placed := CanonicalizeValue(key);
          var value := CanonicalizeValue(entries[k].value);
          assert slots[..k + 1][..k] == slots[..k] && SlotOf(entries[k]) == slots[k];
          CollectSteps(slots[..k + 1]);
          ordered := Insert(ordered, Slot(Encode(placed), Entry(key, value)));
        }
        assert slots[..|entries|] == slots;
        return Map(EntriesOf(ordered));
      case Array(items) =>
        var out: seq<Value> := [];
        CanonAllAt(items);
        for k := 0 to |items|
          invariant out == CanonAll(items)[..k]
        {
          ItemsSmaller(items, k);
          var item := CanonicalizeValue(items[k]);
          out := out + [item];
        }
        return Array(out);
      case _ => return v;
    }
  }

  lemma PartsSmaller(entries: seq<Entry>, k: nat)
    requires k < |entries|
    ensures Size(entries[k].key) < Size(Map(entries)) && Size(entries[k].value) < Size(Map(entries))
  {
    EntrySmaller(entries, k);
  }

  lemma ItemsSmaller(items: seq<Value>, k: nat)
    requires k < |items|
    ensures Size(items[k]) < Size(Array(items))
  {
    ItemSmaller(items, k);
  }

  lemma CanonCases(v: Value)
    requires Fits(v)
    ensures v.Map? ==> Canon(v) == Map(EntriesOf(Collect(Slots(v.entries))))
    ensures v.Array? ==> Canon(v) == Array(CanonAll(v.items))
    ensures !v.Map? && !v.Array? ==> Canon(v) == v
  {
  }

  lemma CollectSteps(slots: seq<Slot>)
    ensures Collect(slots) == if slots == [] then [] else Insert(Collect(slots[..|slots| - 1]), slots[|slots| - 1])
  {
  }

  lemma {:induction false} EntrySmaller(entries: seq<Entry>, k: nat)
    requires k < |entries|
    ensures SizeEntry(entries[k]) <= SizeEntries(entries)
  {
    if k < |entries| - 1 {
      EntrySmaller(entries[..|entries| - 1], k);
    }
  }

  lemma {:induction false} ItemSmaller(items: seq<Value>, k: nat)
    requires k < |items|
    ensures Size(items[k]) <= SizeAll(items)
  {
    if k < |items| - 1 {
      ItemSmaller(items[..|items| - 1], k);
    }
  }
}
