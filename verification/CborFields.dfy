/** Records as maps with small integer keys: building them, looking fields up, and what survives encoding. */
module CborFields {
  import opened Wrappers
  import opened Bytes
  import opened Cbor
  import opened CanonicalCbor
  import opened CborDecoding

  type U64 = n: nat | n < U64_LIMIT

  datatype FormatError =
    | Codec(error: CborError) | ExpectedMap | ExpectedArray | Missing(key: nat) | ExpectedText(key: nat)
    | ExpectedBytes(key: nat) | ExpectedUint(key: nat) | WrongLength | UnknownId

  const KEY_LIMIT: nat := 24

  /** Keys that encode as one byte. */
  type SmallKey = k: nat | k < 24

  datatype Field = Field(key: SmallKey, value: Value)

  /** Keys rise; values can be encoded. */
  ghost predicate Rising(fields: seq<Field>) {
    && |fields| <= KEY_LIMIT
    && (forall i :: 0 <= i < |fields| ==> Fits(fields[i].value))
    && (forall i, j :: 0 <= i < j < |fields| ==> fields[i].key < fields[j].key)
  }

  function MapOf(fields: seq<Field>): (v: Value)
    ensures v.Map? && |v.entries| == |fields|
    ensures forall i :: 0 <= i < |fields| ==> v.entries[i] == Entry(Int(fields[i].key), fields[i].value)
  {
    Map(seq(|fields|, i requires 0 <= i < |fields| => Entry(Int(fields[i].key), fields[i].value)))
  }

  function Canonized(fields: seq<Field>): (r: seq<Field>)
    requires forall i :: 0 <= i < |fields| ==> Fits(fields[i].value)
    ensures |r| == |fields|
    ensures forall i :: 0 <= i < |fields| ==> r[i] == Field(fields[i].key, Canon(fields[i].value))
  {
    seq(|fields|, i requires 0 <= i < |fields| => Field(fields[i].key, Canon(fields[i].value)))
  }

  // Lookups

  /** The value of the first integer key equal to this one; negative and other keys are skipped. */
  function MapGetOpt(entries: seq<Entry>, key: nat): (r: Option<Value>)
    ensures r.Some? && EntriesFit(entries) ==> Fits(r.value)
  {
    if entries == [] then None
    else if entries[0].key.Int? && entries[0].key.n == key then Some(entries[0].value)
    else MapGetOpt(entries[1..], key)
  }

  function AsMap(v: Value): Result<seq<Entry>, FormatError> {
    if v.Map? then Ok(v.entries) else Err(ExpectedMap)
  }

  function AsArray(v: Value): Result<seq<Value>, FormatError> {
    if v.Array? then Ok(v.items) else Err(ExpectedArray)
  }

  function MapGet(entries: seq<Entry>, key: nat): (r: Result<Value, FormatError>)
    ensures r.Ok? && EntriesFit(entries) ==> Fits(r.value)
  {
    match MapGetOpt(entries, key)
    case None => Err(Missing(key))
    case Some(v) => Ok(v)
  }

  function ReqText(entries: seq<Entry>, key: nat): Result<Utf8, FormatError> {
    var v :- MapGet(entries, key);
    if v.Text? then Ok(v.text) else Err(ExpectedText(key))
  }

  function ReqBytes(entries: seq<Entry>, key: nat): Result<Blob, FormatError> {
    var v :- MapGet(entries, key);
    if v.Bin? then Ok(v.bytes) else Err(ExpectedBytes(key))
  }

  /** Bytes of a fixed length. */
  function ReqSized(entries: seq<Entry>, key: nat, length: nat): Result<Blob, FormatError> {
    var b :- ReqBytes(entries, key);
    if |b| == length then Ok(b) else Err(WrongLength)
  }

  function ReqUint(entries: seq<Entry>, key: nat): Result<U64, FormatError> {
    var v :- MapGet(entries, key);
    if v.Int? && v.n >= 0 then Ok(v.n) else Err(ExpectedUint(key))
  }

  function OptBytes(entries: seq<Entry>, key: nat): Result<Option<Blob>, FormatError> {
    match MapGetOpt(entries, key)
    case None => Ok(None)
    case Some(v) => if v.Bin? then Ok(Some(v.bytes)) else Err(ExpectedBytes(key))
  }

  /** A text that must be the one known name. */
  function ReqName(entries: seq<Entry>, key: nat, name: Utf8): Result<Utf8, FormatError> {
    var t :- ReqText(entries, key);
    if t == name then Ok(t) else Err(UnknownId)
  }

  function FromCbor<T>(r: Result<T, CborError>): Result<T, FormatError> {
    match r
    case Ok(v) => Ok(v)
    case Err(e) => Err(Codec(e))
  }

  lemma {:induction false} LookupFrom(fields: seq<Field>, from: nat, key: nat)
    requires Rising(fields) && from <= |fields|
    ensures forall i :: from <= i < |fields| && fields[i].key == key ==>
              MapGetOpt(MapOf(fields).entries[from..], key) == Some(fields[i].value)
    ensures (forall i :: from <= i < |fields| ==> fields[i].key != key) ==>
              MapGetOpt(MapOf(fields).entries[from..], key) == None
    decreases |fields| - from
  {
    hide IsUtf8, Fits;
    if from < |fields| {
      var entries := MapOf(fields).entries;
      assert entries[from..][1..] == entries[from + 1..];
      LookupFrom(fields, from + 1, key);
    }
  }

  /** Every field is found under its key, and no other key is. */
  lemma Lookup(fields: seq<Field>, key: nat)
    requires Rising(fields)
    ensures forall i :: 0 <= i < |fields| && fields[i].key == key ==>
              MapGetOpt(MapOf(fields).entries, key) == Some(fields[i].value)
    ensures (forall i :: 0 <= i < |fields| ==> fields[i].key != key) ==>
              MapGetOpt(MapOf(fields).entries, key) == None
  {
    LookupFrom(fields, 0, key);
    assert MapOf(fields).entries[0..] == MapOf(fields).entries;
  }

  lemma FieldAt(fields: seq<Field>, i: nat)
    requires Rising(fields) && i < |fields|
    ensures MapGetOpt(MapOf(fields).entries, fields[i].key) == Some(fields[i].value)
  {
    Lookup(fields, fields[i].key);
  }

  lemma FieldMissing(fields: seq<Field>, key: nat)
    requires Rising(fields) && forall i :: 0 <= i < |fields| ==> fields[i].key != key
    ensures MapGetOpt(MapOf(fields).entries, key) == None
  {
    Lookup(fields, key);
  }

  // Encoding

  lemma RisingFits(fields: seq<Field>)
    requires Rising(fields)
    ensures Fits(MapOf(fields))
  {
  }

  lemma SmallKeys(a: nat, b: nat)
    requires a < KEY_LIMIT && b < KEY_LIMIT
    ensures Encode(Int(a)) == [a] && (Less([a], [b]) <==> a < b)
  {
  }

  lemma CanonizedRises(fields: seq<Field>)
    requires Rising(fields)
    ensures Rising(Canonized(fields))
  {
    hide IsUtf8, Fits;
  }

  lemma RisingIsCanonical(fields: seq<Field>)
    requires Rising(fields) && forall i :: 0 <= i < |fields| ==> IsCanonical(fields[i].value)
    ensures Fits(MapOf(fields)) && IsCanonical(MapOf(fields))
  {
    hide IsUtf8, Encode, Less;
    RisingFits(fields);
    var entries := MapOf(fields).entries;
    forall i, j | 0 <= i < j < |entries| ensures Less(Encode(entries[i].key), Encode(entries[j].key)) {
      SmallKeys(fields[i].key, fields[j].key);
      SmallKeys(fields[j].key, fields[i].key);
    }
  }

  /** A record keeps its keys and gets its values in canonical form. */
  lemma CanonOfFields(fields: seq<Field>)
    requires Rising(fields)
    ensures Rising(Canonized(fields)) && Fits(MapOf(fields)) && Fits(MapOf(Canonized(fields)))
    ensures Canon(MapOf(fields)) == MapOf(Canonized(fields))
  {
    hide IsUtf8, Canon, Slots, SlotOf, Collect, EncodeCanonical, Fits;
    RisingFits(fields);
    CanonizedRises(fields);
    RisingFits(Canonized(fields));
    var entries := MapOf(fields).entries;
    CanonOfMap(entries);
    SlotsAt(entries);
    var slots := Slots(entries);
    forall i | 0 <= i < |fields|
      ensures slots[i] == Slot([fields[i].key], Entry(Int(fields[i].key), Canon(fields[i].value)))
    {
      PlacedByKey(entries[i]);
      SmallKeys(fields[i].key, 0);
      LeafIsCanonical(Int(fields[i].key));
    }
    forall i, j | 0 <= i < j < |slots| ensures Less(slots[i].bytes, slots[j].bytes) {
      SmallKeys(fields[i].key, fields[j].key);
    }
    CollectOfAscending(slots);
  }

  lemma LeafIsCanonical(v: Value)
    requires v.Int? || v.Bin? || v.Text?
    ensures Fits(v) && IsCanonical(v) && Canon(v) == v && EncodeCanonical(v) == Encode(v)
  {
  }

  /** What may be written under the default limits. */
  ghost predicate Encodable(v: Value) {
    Fits(v) && InLimits(v, DEFAULT_LIMITS, 0) && |EncodeCanonical(v)| <= DEFAULT_LIMITS.maxBytes
  }

  // Records of plain fields around one part that may be any value, or absent

  predicate IsLeaf(v: Value) { v.Int? || v.Bin? || v.Text? }

  predicate AllLeaves(values: seq<Value>) {
    forall i :: 0 <= i < |values| ==> IsLeaf(values[i])
  }

  /** Fields 0, 1, ... hold low, the next one the part, and those from `from` on hold high. */
  function AroundPart(low: seq<Value>, part: Option<Value>, from: nat, high: seq<Value>): seq<Field>
    requires |low| < from && from + |high| <= KEY_LIMIT
  {
    Numbered(0, low) + (if part.Some? then [Field(|low|, part.value)] else []) + Numbered(from, high)
  }

  lemma PartFields(low: seq<Value>, part: Option<Value>, from: nat, high: seq<Value>)
    requires |low| < from && from + |high| <= KEY_LIMIT
    ensures var r, n := AroundPart(low, part, from, high), if part.Some? then |low| + 1 else |low|;
            && |r| == n + |high|
            && (forall i :: 0 <= i < |low| ==> r[i] == Field(i, low[i]))
            && (part.Some? ==> r[|low|] == Field(|low|, part.value))
            && (forall i :: n <= i < |r| ==> r[i] == Field(from + i - n, high[i - n]))
  {
    hide IsUtf8;
  }

  function Numbered(from: nat, values: seq<Value>): (r: seq<Field>)
    requires from + |values| <= KEY_LIMIT
    ensures |r| == |values| && forall i :: 0 <= i < |r| ==> r[i] == Field(from + i, values[i])
  {
    seq(|values|, i requires 0 <= i < |values| => Field(from + i, values[i]))
  }

  ghost predicate PartFits(low: seq<Value>, part: Option<Value>, from: nat, high: seq<Value>) {
    && |low| < from && from + |high| <= KEY_LIMIT && AllLeaves(low) && AllLeaves(high)
    && (part.Some? ==> Fits(part.value))
  }

  lemma PartRises(low: seq<Value>, part: Option<Value>, from: nat, high: seq<Value>)
    requires PartFits(low, part, from, high)
    ensures var r := AroundPart(low, part, from, high);
            Rising(r) && Fits(MapOf(r))
  {
    hide IsUtf8, AroundPart, Fits;
    PartFields(low, part, from, high);
    var r, n := AroundPart(low, part, from, high), if part.Some? then |low| + 1 else |low|;
    forall i: nat | i < |low| ensures Fits(low[i]) { CanonOfLeaf(low[i]); }
    forall i: nat | i < |high| ensures Fits(high[i]) { CanonOfLeaf(high[i]); }
    forall i | 0 <= i < |r| ensures Fits(r[i].value)
                                 && r[i].key == if i < n then i else from + i - n
    {
    }
    RisingFits(r);
  }

  lemma PartLookup(low: seq<Value>, part: Option<Value>, from: nat, high: seq<Value>)
    requires PartFits(low, part, from, high)
    ensures Rising(AroundPart(low, part, from, high))
    ensures var m := MapOf(AroundPart(low, part, from, high)).entries;
            && (forall i :: 0 <= i < |low| ==> MapGetOpt(m, i) == Some(low[i]))
            && MapGetOpt(m, |low|) == part
            && (forall i :: 0 <= i < |high| ==> MapGetOpt(m, from + i) == Some(high[i]))
  {
    hide IsUtf8, MapGetOpt, Rising, MapOf, AroundPart, Fits, AllLeaves;
    PartRises(low, part, from, high);
    PartFields(low, part, from, high);
    var r, n := AroundPart(low, part, from, high), if part.Some? then |low| + 1 else |low|;
    forall i | 0 <= i < |low| ensures MapGetOpt(MapOf(r).entries, i) == Some(low[i]) {
      FieldAt(r, i);
    }
    forall i | 0 <= i < |high| ensures MapGetOpt(MapOf(r).entries, from + i) == Some(high[i]) {
      FieldAt(r, n + i);
      assert high[n + i - n] == high[i];
    }
    if part.Some? {
      FieldAt(r, |low|);
    } else {
      FieldMissing(r, |low|);
    }
  }

  function CanonPart(part: Option<Value>): Option<Value>
    requires part.Some? ==> Fits(part.value)
  {
    if part.Some? then Some(Canon(part.value)) else None
  }

  /** Only the part changes when the record is brought into canonical form. */
  lemma PartCanon(low: seq<Value>, part: Option<Value>, from: nat, high: seq<Value>)
    requires PartFits(low, part, from, high)
    ensures Fits(MapOf(AroundPart(low, part, from, high))) && PartFits(low, CanonPart(part), from, high)
    ensures Rising(AroundPart(low, CanonPart(part), from, high))
    ensures Canon(MapOf(AroundPart(low, part, from, high))) == MapOf(AroundPart(low, CanonPart(part), from, high))
  {
    hide IsUtf8, Canon, AroundPart, MapOf, Rising, IsLeaf, Fits;
    PartRises(low, part, from, high);
    CanonPartFits(part);
    PartRises(low, CanonPart(part), from, high);
    CanonOfFields(AroundPart(low, part, from, high));
    PartCanonized(low, part, from, high);
  }

  lemma CanonPartFits(part: Option<Value>)
    requires part.Some? ==> Fits(part.value)
    ensures CanonPart(part).Some? ==> Fits(CanonPart(part).value)
  {
  }

  lemma PartCanonized(low: seq<Value>, part: Option<Value>, from: nat, high: seq<Value>)
    requires PartFits(low, part, from, high)
    requires Rising(AroundPart(low, part, from, high))
    ensures Canonized(AroundPart(low, part, from, high)) == AroundPart(low, CanonPart(part), from, high)
  {
    hide IsUtf8, Canon, AroundPart, Fits;
    PartFields(low, part, from, high);
    PartFields(low, CanonPart(part), from, high);
    var r, c, n := AroundPart(low, part, from, high), AroundPart(low, CanonPart(part), from, high),
                   if part.Some? then |low| + 1 else |low|;
    forall i | 0 <= i < |r| ensures Canonized(r)[i] == c[i] {
      if i < |low| {
        CanonOfLeaf(low[i]);
      } else if i >= n {
        CanonOfLeaf(high[i - n]);
      }
    }
  }

  lemma CanonOfLeaf(v: Value)
    requires IsLeaf(v)
    ensures Fits(v) && Canon(v) == v
  {
  }

  /** Writing such a record and reading it back. */
  lemma PartSurvives(low: seq<Value>, part: Option<Value>, from: nat, high: seq<Value>)
    requires PartFits(low, part, from, high) && Encodable(MapOf(AroundPart(low, part, from, high)))
    ensures PartFits(low, CanonPart(part), from, high) && Rising(AroundPart(low, CanonPart(part), from, high))
    ensures DecodeCanonical(EncodeCanonical(MapOf(AroundPart(low, part, from, high))), DEFAULT_LIMITS)
         == Ok(MapOf(AroundPart(low, CanonPart(part), from, high)))
    ensures part.Some? && IsCanonical(part.value) ==> CanonPart(part) == part
  {
    hide IsUtf8, Canon, EncodeCanonical, DecodeCanonical, IsCanonical, InLimits, MapOf, Fits;
    PartCanon(low, part, from, high);
    DecodeOfEncode(MapOf(AroundPart(low, part, from, high)), DEFAULT_LIMITS);
    if part.Some? && IsCanonical(part.value) { CanonicalFixed(part.value); }
  }
}
