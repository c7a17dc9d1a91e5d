/** The vault as it lies in storage: header, record index and one entry per record; reading it back, and adding to
    it. */
module VaultStorage {
  import opened Wrappers
  import opened Bytes
  import opened Cbor
  import opened CanonicalCbor
  import opened CborDecoding
  import opened CborFields
  import opened Formats
  import opened KeyVault
  import opened KeyVaultReplay

  /** The names in the vault's namespace; records are named by their ids. */
  datatype StorageKey = HeaderKey | IndexKey | RecordKey(id: Utf8)
  type Storage = map<StorageKey, ByteString>

  datatype ServiceError =
    | MissingHeader | InvalidCbor(error: FormatError) | InvalidIndex | InvalidFormat(cause: VaultError) | CryptoError
    | SessionInvalid | StepUpRequired | NotLoaded

  function Invalid<T>(r: Result<T, FormatError>): Result<T, ServiceError> {
    match r
    case Ok(v) => Ok(v)
    case Err(e) => Err(InvalidCbor(e))
  }

  function LoadHeader(storage: Storage): (r: Result<Header, ServiceError>)
    ensures r.Ok? ==> WellFormedHeader(r.value)
  {
    if HeaderKey !in storage then Err(MissingHeader) else Invalid(DecodeHeader(storage[HeaderKey]))
  }

  function IndexItems(storage: Storage): (r: Result<seq<Value>, ServiceError>)
    ensures r.Ok? ==> |r.value| <= DEFAULT_LIMITS.maxItems
  {
    if IndexKey !in storage || storage[IndexKey] == [] then Ok([]) else
      var value :- Invalid(FromCbor(DecodeCanonical(storage[IndexKey], DEFAULT_LIMITS)));
      Invalid(AsArray(value))
  }

  function TextsIn(items: seq<Value>): (r: Result<seq<Utf8>, ServiceError>)
    ensures r.Ok? ==> |r.value| == |items|
  {
    if items == [] then Ok([]) else
      var front :- TextsIn(items[..|items| - 1]);
      if items[|items| - 1].Text? then Ok(front + [items[|items| - 1].text]) else Err(InvalidIndex)
  }

  function LoadIndex(storage: Storage): (r: Result<seq<Utf8>, ServiceError>)
    ensures r.Ok? ==> |r.value| <= DEFAULT_LIMITS.maxItems
  {
    var items :- IndexItems(storage);
    TextsIn(items)
  }

  /** The records of the index, in its order; an id without a record is passed over. */
  function RecordsIn(storage: Storage, items: seq<Value>): (r: Result<seq<RecordContainer>, ServiceError>)
    ensures r.Ok? ==> |r.value| <= |items| && forall c :: c in r.value ==> WellFormedContainer(c)
  {
    if items == [] then Ok([]) else
      var front :- RecordsIn(storage, items[..|items| - 1]);
      var last := items[|items| - 1];
      if !last.Text? then Err(InvalidIndex)
      else if RecordKey(last.text) !in storage then Ok(front)
      else
        var c :- Invalid(DecodeContainer(storage[RecordKey(last.text)]));
        Ok(front + [c])
  }

  predicate Present(storage: Storage, item: Value) {
    item.Text? && RecordKey(item.text) in storage
  }

  /** How many of the first n ids of the index have a record. */
  function PresentAmong(storage: Storage, items: seq<Value>, n: nat): (c: nat)
    requires n <= |items|
    ensures c <= n
  {
    if n == 0 then 0 else PresentAmong(storage, items, n - 1) + if Present(storage, items[n - 1]) then 1 else 0
  }

  lemma {:induction false} PresentSame(storage: Storage, items: seq<Value>, m: nat, n: nat)
    requires n <= m <= |items|
    ensures PresentAmong(storage, items[..m], n) == PresentAmong(storage, items, n)
  {
    hide Present;
    if n > 0 {
      PresentSame(storage, items, m, n - 1);
    }
  }

  ghost predicate Listed(storage: Storage, items: seq<Value>, records: seq<RecordContainer>) {
    && |records| == PresentAmong(storage, items, |items|)
    && forall i :: 0 <= i < |items| && Present(storage, items[i]) ==>
         var k := PresentAmong(storage, items, i);
         k < |records| && DecodeContainer(storage[RecordKey(items[i].text)]) == Ok(records[k])
  }

  predicate Readable(storage: Storage, item: Value) {
    item.Text? && (Present(storage, item) ==> DecodeContainer(storage[RecordKey(item.text)]).Ok?)
  }

  lemma ListedSnoc(storage: Storage, items: seq<Value>, last: Value, records: seq<RecordContainer>, after: seq<RecordContainer>)
    requires Listed(storage, items, records)
    requires if Present(storage, last) then |after| == |records| + 1 && after[..|records|] == records
                                         && DecodeContainer(storage[RecordKey(last.text)]) == Ok(after[|records|])
             else after == records
    ensures Listed(storage, items + [last], after)
  {
    hide IsUtf8, DecodeContainer;
    var all, n := items + [last], |items|;
    assert all[..n] == items;
    PresentSame(storage, all, n, n);
    forall i | 0 <= i < |all| && Present(storage, all[i])
      ensures var k := PresentAmong(storage, all, i);
              k < |after| && DecodeContainer(storage[RecordKey(all[i].text)]) == Ok(after[k])
    {
      if i < n {
        PresentSame(storage, all, n, i);
        assert after[PresentAmong(storage, items, i)] == records[PresentAmong(storage, items, i)];
      }
    }
  }

  /** The records load exactly when every entry of the index is a text and every record that is there can be read; they
      are then the records that are there, each in its place, and nothing else. */
  lemma {:induction false} RecordsInIff(storage: Storage, items: seq<Value>)
    ensures RecordsIn(storage, items).Ok? <==> forall i :: 0 <= i < |items| ==> Readable(storage, items[i])
    ensures RecordsIn(storage, items).Ok? ==> Listed(storage, items, RecordsIn(storage, items).value)
  {
    hide IsUtf8, DecodeContainer, Listed;
    if items == [] {
      assert Listed(storage, [], []) by { NothingListed(storage); }
    } else {
      var n := |items| - 1;
      var init := items[..n];
      RecordsInIff(storage, init);
      assert items == init + [items[n]];
      if RecordsIn(storage, items).Ok? {
        ListedSnoc(storage, init, items[n], RecordsIn(storage, init).value, RecordsIn(storage, items).value);
      }
    }
  }

  lemma NothingListed(storage: Storage)
    ensures Listed(storage, [], [])
  {
  }

  function LoadContainers(storage: Storage): (r: Result<seq<RecordContainer>, ServiceError>)
    ensures r.Ok? ==> |r.value| < U64_LIMIT && forall c :: c in r.value ==> WellFormedContainer(c)
  {
    var items :- IndexItems(storage);
    var records :- RecordsIn(storage, items);
    Ok(SortBySequence(records))
  }

  function LoadState(suite: Suite, storage: Storage, header: Header, key: ByteString)
    : Result<(Vault, KeyMaps), ServiceError>
  {
    var records :- LoadContainers(storage);
    match Apply(suite, header, key, records)
    case Err(e) => Err(InvalidFormat(e))
    case Ok(p) => Ok(p)
  }

  // The index

  function IndexValue(ids: seq<Utf8>): Value { Array(TextValues(ids)) }

  lemma IndexIsCanonical(ids: seq<Utf8>)
    requires |ids| < U64_LIMIT
    ensures Fits(IndexValue(ids)) && IsCanonical(IndexValue(ids)) && Canon(IndexValue(ids)) == IndexValue(ids)
  {
    hide IsUtf8, Canon;
    CanonicalFixed(IndexValue(ids));
  }

  function IndexBytes(ids: seq<Utf8>): ByteString
    requires |ids| < U64_LIMIT
  {
    IndexIsCanonical(ids);
    EncodeCanonical(IndexValue(ids))
  }

  /** What can be read back of an index that is written without any check. */
  predicate IndexFits(ids: seq<Utf8>) {
    && |ids| <= DEFAULT_LIMITS.maxItems
    && (forall i :: 0 <= i < |ids| ==> |ids[i]| <= DEFAULT_LIMITS.maxTextBytes)
    && |IndexBytes(ids)| <= DEFAULT_LIMITS.maxBytes
  }

  lemma {:induction false} TextsOfValues(ids: seq<Utf8>)
    ensures TextsIn(TextValues(ids)) == Ok(ids)
  {
    hide IsUtf8;
    var values := TextValues(ids);
    if ids == [] {
      assert values == [];
    } else {
      var init := ids[..|ids| - 1];
      TextsOfValues(init);
      assert values[..|values| - 1] == TextValues(init) && ids == init + [ids[|ids| - 1]];
    }
  }

  lemma IndexInLimits(ids: seq<Utf8>)
    ensures InLimits(IndexValue(ids), DEFAULT_LIMITS, 0) <==>
              |ids| <= DEFAULT_LIMITS.maxItems && forall i :: 0 <= i < |ids| ==> |ids[i]| <= DEFAULT_LIMITS.maxTextBytes
  {
    hide IsUtf8;
    var values := TextValues(ids);
    forall i | 0 <= i < |ids|
      ensures InLimits(values[i], DEFAULT_LIMITS, 1) <==> |ids[i]| <= DEFAULT_LIMITS.maxTextBytes
    {
    }
  }

  /** The index can be read back exactly when it fits the limits. */
  lemma IndexDecodesIff(ids: seq<Utf8>)
    requires |ids| < U64_LIMIT
    ensures DecodeCanonical(IndexBytes(ids), DEFAULT_LIMITS).Ok? <==> IndexFits(ids)
    ensures IndexFits(ids) ==> DecodeCanonical(IndexBytes(ids), DEFAULT_LIMITS) == Ok(IndexValue(ids))
  {
    hide IsUtf8, Canon, Encode, DecodeCanonical, IsCanonical, TextValues, InLimits, Fits, IndexValue;
    IndexIsCanonical(ids);
    IndexInLimits(ids);
    var b, index := IndexBytes(ids), IndexValue(ids);
    AcceptedIff(b, DEFAULT_LIMITS, index);
    if DecodeCanonical(b, DEFAULT_LIMITS).Ok? {
      var v := DecodeCanonical(b, DEFAULT_LIMITS).value;
      AcceptedIff(b, DEFAULT_LIMITS, v);
      EncodeIsInjective(v, index, [], []);
    }
  }

  lemma LoadIndexIff(storage: Storage, ids: seq<Utf8>)
    requires |ids| < U64_LIMIT && IndexKey in storage && storage[IndexKey] == IndexBytes(ids)
    ensures LoadIndex(storage).Ok? <==> IndexFits(ids)
    ensures LoadIndex(storage).Err? ==> LoadContainers(storage).Err?
    ensures IndexFits(ids) ==> LoadIndex(storage) == Ok(ids) && IndexItems(storage) == Ok(TextValues(ids))
  {
    hide IsUtf8, EncodeCanonical, DecodeCanonical, TextValues, IndexFits, RecordsIn, SortBySequence, Fits;
    IndexDecodesIff(ids);
    TextsOfValues(ids);
    IndexNotEmpty(ids);
  }

  lemma IndexNotEmpty(ids: seq<Utf8>)
    requires |ids| < U64_LIMIT
    ensures IndexBytes(ids) != []
  {
    hide IsUtf8, Encode, Canon;
  }

  /** Record ids as the service makes them: 36 characters. */
  const ID_LENGTH: nat := 36

  ghost predicate AllUuids(ids: seq<Utf8>) {
    forall i :: 0 <= i < |ids| ==> |ids[i]| == ID_LENGTH
  }

  lemma {:induction false} TextsLength(ids: seq<Utf8>)
    requires AllUuids(ids) && AllFit(TextValues(ids))
    ensures |EncodeAll(TextValues(ids))| == 38 * |ids|
    decreases |ids|
  {
    hide IsUtf8;
    var values := TextValues(ids);
    if ids != [] {
      assert values[1..] == TextValues(ids[1..]);
      TextsLength(ids[1..]);
      assert |Encode(values[0])| == 38 by {
        assert BigEndian(36, 1) == [36] by { assert BigEndian(0, 0) == []; }
      }
    }
  }

  /** With such ids, exactly the indexes of at most 4096 records can be read back. */
  lemma UuidIndexFitsIff(ids: seq<Utf8>)
    requires AllUuids(ids)
    ensures IndexFits(ids) <==> |ids| <= 4096
  {
    hide IsUtf8, Canon, EncodeAll, TextValues;
    if |ids| <= 4096 {
      IndexIsCanonical(ids);
      assert AllFit(TextValues(ids)) by { TextsAllFit(ids); }
      TextsLength(ids);
      assert IndexBytes(ids) == Head(4, |ids|) + EncodeAll(TextValues(ids));
    }
  }

  lemma TextsAllFit(ids: seq<Utf8>)
    ensures AllFit(TextValues(ids))
  {
    hide IsUtf8;
  }

  // Storage in order

  /** The index lists ids, and under each lies the container of that id, readable. */
  ghost predicate Tidy(storage: Storage, ids: seq<Utf8>, containers: seq<RecordContainer>) {
    && |ids| == |containers| <= DEFAULT_LIMITS.maxItems
    && LoadIndex(storage) == Ok(ids) && IndexItems(storage) == Ok(TextValues(ids))
    && forall i :: 0 <= i < |ids| ==> Filed(storage, ids[i], containers[i])
  }

  ghost predicate Filed(storage: Storage, id: Utf8, c: RecordContainer) {
    && c.recordId == id && RecordKey(id) in storage && storage[RecordKey(id)] == EncodeContainer(c)
    && WellFormedContainer(c) && DecodeContainer(EncodeContainer(c)) == Ok(c)
  }

  lemma {:induction false} RecordsOfTidy(storage: Storage, ids: seq<Utf8>, containers: seq<RecordContainer>)
    requires |ids| == |containers| && forall i :: 0 <= i < |ids| ==> Filed(storage, ids[i], containers[i])
    ensures RecordsIn(storage, TextValues(ids)) == Ok(containers)
  {
    hide IsUtf8, DecodeContainer, EncodeContainer;
    var values := TextValues(ids);
    if ids == [] {
      assert values == [];
    } else {
      var last := |ids| - 1;
      RecordsOfTidy(storage, ids[..last], containers[..last]);
      assert values[..|values| - 1] == TextValues(ids[..last]) && values[last] == Text(ids[last]);
      assert Filed(storage, ids[last], containers[last]);
      assert containers == containers[..last] + [containers[last]];
    }
  }

  lemma TidyLoads(storage: Storage, ids: seq<Utf8>, containers: seq<RecordContainer>)
    requires Tidy(storage, ids, containers)
    ensures LoadContainers(storage) == Ok(SortBySequence(containers))
  {
    hide IsUtf8, RecordsIn, Filed, SortBySequence, IndexItems, TextsIn;
    RecordsOfTidy(storage, ids, containers);
  }

  /** Writing a record and then the index. */
  function Put(storage: Storage, c: RecordContainer): (Storage, Option<ServiceError>) {
    var filed := storage[RecordKey(c.recordId) := EncodeContainer(c)];
    match LoadIndex(filed)
    case Err(e) => (filed, Some(e))
    case Ok(ids) =>
      var ids' := if c.recordId in ids then ids else ids + [c.recordId];
      (filed[IndexKey := IndexBytes(ids')], None)
  }

  lemma OtherKeyKeepsIndex(storage: Storage, id: Utf8, b: ByteString)
    ensures LoadIndex(storage[RecordKey(id) := b]) == LoadIndex(storage)
    ensures IndexItems(storage[RecordKey(id) := b]) == IndexItems(storage)
    ensures LoadHeader(storage[RecordKey(id) := b]) == LoadHeader(storage)
  {
    hide TextsIn, DecodeHeader, DecodeCanonical;
  }

  /** A new record leaves the storage in order as long as the longer index can be read back; otherwise nothing can
      be loaded any more. */
  lemma PutIsTidyIff(storage: Storage, ids: seq<Utf8>, containers: seq<RecordContainer>, c: RecordContainer)
    requires Tidy(storage, ids, containers) && c.recordId !in ids
    requires WellFormedContainer(c) && Encodable(ContainerValue(c))
    ensures Put(storage, c).1 == None && LoadHeader(Put(storage, c).0) == LoadHeader(storage)
    ensures IndexFits(ids + [c.recordId]) ==> Tidy(Put(storage, c).0, ids + [c.recordId], containers + [c])
    ensures !IndexFits(ids + [c.recordId]) ==> LoadContainers(Put(storage, c).0).Err?
  {
    hide IsUtf8, LoadIndex, IndexFits, Encodable, EncodeContainer, DecodeContainer, Filed, IndexItems, IndexBytes,
         LoadContainers, DecodeHeader, TextValues;
    OtherKeyKeepsIndex(storage, c.recordId, EncodeContainer(c));
    var ids', containers', after := ids + [c.recordId], containers + [c], Put(storage, c).0;
    LoadIndexIff(after, ids');
    ContainerRoundTrip(c);
    if IndexFits(ids') {
      FitsMeansFew(ids');
      assert RecordKey(c.recordId) in after && after[RecordKey(c.recordId)] == EncodeContainer(c);
      forall i | 0 <= i < |ids'| ensures Filed(after, ids'[i], containers'[i]) {
        if i < |ids| {
          assert ids[i] != c.recordId && Filed(storage, ids[i], containers[i]);
          FiledThere(storage, ids[i], containers[i]);
          StillFiled(storage, after, ids[i], containers[i]);
        } else {
          NowFiled(after, c);
        }
      }
    }
  }

  lemma FitsMeansFew(ids: seq<Utf8>)
    requires IndexFits(ids)
    ensures |ids| <= DEFAULT_LIMITS.maxItems
  {
  }

  lemma FiledThere(storage: Storage, id: Utf8, c: RecordContainer)
    requires Filed(storage, id, c)
    ensures RecordKey(id) in storage && c.recordId == id
  {
  }

  lemma StillFiled(before: Storage, after: Storage, id: Utf8, c: RecordContainer)
    requires Filed(before, id, c) && RecordKey(id) in after
    requires RecordKey(id) in before ==> after[RecordKey(id)] == before[RecordKey(id)]
    ensures Filed(after, id, c)
  {
    hide EncodeContainer, DecodeContainer;
  }

  lemma NowFiled(after: Storage, c: RecordContainer)
    requires RecordKey(c.recordId) in after && after[RecordKey(c.recordId)] == EncodeContainer(c)
    requires WellFormedContainer(c) && DecodeContainer(EncodeContainer(c)) == Ok(c)
    ensures Filed(after, c.recordId, c)
  {
  }

  // Room in a container

  /** The most a plain record may take so that its container can be read back. */
  const MAX_PLAIN: nat := 0x10_0000 - 512

  ghost predicate SmallRecord(plain: RecordPlain) {
    Fits(plain.payload) && |plain.recordId| == ID_LENGTH && Encodable(PlainValue(plain))
    && |EncodePlain(plain)| <= MAX_PLAIN
  }

  lemma HeadLength(major: nat, arg: nat)
    requires major < 8 && arg < U64_LIMIT
    ensures |Head(major, arg)| <= 9
  {
  }

  lemma EntryLength(key: SmallKey, v: Value, body: nat)
    requires IsLeaf(v) && (v.Int? ==> v.n >= 0)
    requires v.Bin? ==> |v.bytes| <= body
    requires v.Text? ==> |v.text| <= body
    ensures Fits(v) && |EncodeEntry(Entry(Int(key), v))| <= 10 + body
  {
    hide IsUtf8, Head;
    SmallKeys(key, 0);
    match v
    case Int(n) => HeadLength(0, n);
    case Bin(b) => HeadLength(2, |b|);
    case Text(t) => HeadLength(3, |t|);
  }

  lemma {:induction false} EntriesLength(entries: seq<Entry>, big: nat)
    requires entries != [] && EntriesFit(entries)
    requires forall i :: 0 <= i < |entries| - 1 ==> |EncodeEntry(entries[i])| <= 46
    requires |EncodeEntry(entries[|entries| - 1])| <= big
    ensures |EncodeEntries(entries)| <= 46 * (|entries| - 1) + big
    decreases |entries|
  {
    hide EncodeEntry, Fits;
    if |entries| == 1 {
      assert entries[1..] == [];
    } else {
      EntriesLength(entries[1..], big);
    }
  }

  /** A container made from a small record can always be read back. */
  lemma SmallContainerEncodable(c: RecordContainer)
    requires WellFormedContainer(c) && |c.recordId| == ID_LENGTH && |c.ct| <= MAX_PLAIN + TAG_LENGTH
    ensures Encodable(ContainerValue(c))
  {
    hide IsUtf8, Encode, Canon, EncodeEntry, EncodeEntries, IsCanonical, Head;
    var f, v := ContainerFields(c), ContainerValue(c);
    ContainerIsCanonical(c);
    EntryLength(0, f[0].value, 0);
    EntryLength(1, f[1].value, 0);
    EntryLength(2, f[2].value, 32);
    EntryLength(3, f[3].value, 36);
    EntryLength(4, f[4].value, 12);
    EntryLength(5, f[5].value, |c.ct|);
    EntriesLength(v.entries, 10 + |c.ct|);
    HeadLength(5, 6);
    MapLength(v);
    assert InLimits(v, DEFAULT_LIMITS, 0);
  }

  lemma MapLength(v: Value)
    requires v.Map? && Fits(v)
    ensures |Encode(v)| == |Head(5, |v.entries|)| + |EncodeEntries(v.entries)|
  {
  }
}
