/** The key vault's wire formats: record container, plain record, vault header and snapshot, each with its encoder and
    decoder, and that the decoder undoes the encoder. */
module Formats {
  import opened Wrappers
  import opened Bytes
  import opened Cbor
  import opened CanonicalCbor
  import opened CborDecoding
  import opened CborFields

  type U32 = n: nat | n < 0x1_0000_0000

  const HASH_LENGTH: nat := 32
  const NONCE_LENGTH: nat := 12

  lemma {:induction false} AsciiIsUtf8(s: ByteString)
    requires forall i :: 0 <= i < |s| ==> s[i] < 0x80
    ensures IsUtf8(s)
  {
    if s != [] {
      AsciiIsUtf8(s[1..]);
    }
  }

  function Ascii(s: ByteString): (t: Utf8)
    requires |s| < 256 && forall i :: 0 <= i < |s| ==> s[i] < 0x80
    ensures t == s
  {
    AsciiIsUtf8(s);
    s
  }

  /** "aead-1", "hybrid-kem-1" and "hybrid-sig-1". */
  const AEAD_1: Utf8 := Ascii([97, 101, 97, 100, 45, 49])
  const HYBRID_KEM_1: Utf8 := Ascii([104, 121, 98, 114, 105, 100, 45, 107, 101, 109, 45, 49])
  const HYBRID_SIG_1: Utf8 := Ascii([104, 121, 98, 114, 105, 100, 45, 115, 105, 103, 45, 49])

  datatype AeadId = Aead1
  datatype KemId = HybridKem1
  datatype SigId = HybridSig1

  // Record containers

  datatype RecordContainer = RecordContainer(
    v: U64, sequence: U64, prevHash: Blob, recordId: Utf8, nonce: Blob, ct: Blob)

  predicate WellFormedContainer(r: RecordContainer) {
    |r.prevHash| == HASH_LENGTH && |r.nonce| == NONCE_LENGTH
  }

  function ContainerFields(r: RecordContainer): seq<Field> {
    [Field(0, Int(r.v)), Field(1, Int(r.sequence)), Field(2, Bin(r.prevHash)), Field(3, Text(r.recordId)),
     Field(4, Bin(r.nonce)), Field(5, Bin(r.ct))]
  }

  function ContainerValue(r: RecordContainer): Value {
    MapOf(ContainerFields(r))
  }

  function DecodeContainerValue(value: Value): (r: Result<RecordContainer, FormatError>)
    ensures r.Ok? ==> WellFormedContainer(r.value)
  {
    var m :- AsMap(value);
    var prevHash :- ReqSized(m, 2, HASH_LENGTH);
    var nonce :- ReqSized(m, 4, NONCE_LENGTH);
    var v :- ReqUint(m, 0);
    var sequence :- ReqUint(m, 1);
    var recordId :- ReqText(m, 3);
    var ct :- ReqBytes(m, 5);
    Ok(RecordContainer(v, sequence, prevHash, recordId, nonce, ct))
  }

  lemma ContainerIsCanonical(r: RecordContainer)
    ensures Fits(ContainerValue(r)) && IsCanonical(ContainerValue(r)) && Canon(ContainerValue(r)) == ContainerValue(r)
  {
    hide IsUtf8, Canon;
    RisingIsCanonical(ContainerFields(r));
    CanonicalFixed(ContainerValue(r));
  }

  lemma ContainerValueRoundTrip(r: RecordContainer)
    requires WellFormedContainer(r)
    ensures DecodeContainerValue(ContainerValue(r)) == Ok(r)
  {
    hide IsUtf8, MapGetOpt, Rising;
    ContainerRises(r);
    var f := ContainerFields(r);
    FieldAt(f, 0); FieldAt(f, 1); FieldAt(f, 2); FieldAt(f, 3); FieldAt(f, 4); FieldAt(f, 5);
  }

  lemma ContainerRises(r: RecordContainer)
    ensures Rising(ContainerFields(r))
  {
  }

  function EncodeContainer(r: RecordContainer): ByteString {
    ContainerIsCanonical(r);
    EncodeCanonical(ContainerValue(r))
  }

  function DecodeContainer(b: ByteString): (r: Result<RecordContainer, FormatError>)
    ensures r.Ok? ==> WellFormedContainer(r.value)
  {
    var value :- FromCbor(DecodeCanonical(b, DEFAULT_LIMITS));
    DecodeContainerValue(value)
  }

  lemma ContainerRoundTrip(r: RecordContainer)
    requires WellFormedContainer(r) && Encodable(ContainerValue(r))
    ensures DecodeContainer(EncodeContainer(r)) == Ok(r)
  {
    hide IsUtf8, Canon, EncodeCanonical, DecodeCanonical, IsCanonical, DecodeContainerValue, ContainerValue, InLimits, Fits;
    ContainerIsCanonical(r);
    DecodeOfEncode(ContainerValue(r), DEFAULT_LIMITS);
    ContainerValueRoundTrip(r);
  }

  // Plain records

  datatype RecordPlain = RecordPlain(recordId: Utf8, kind: U64, payload: Value)

  function PlainFields(r: RecordPlain): seq<Field> {
    [Field(0, Text(r.recordId)), Field(1, Int(r.kind)), Field(2, r.payload)]
  }

  function PlainValue(r: RecordPlain): Value {
    MapOf(PlainFields(r))
  }

  function DecodePlainValue(value: Value): (r: Result<RecordPlain, FormatError>)
    requires Fits(value)
    ensures r.Ok? ==> Fits(r.value.payload)
  {
    var m :- AsMap(value);
    var recordId :- ReqText(m, 0);
    var kind :- ReqUint(m, 1);
    var payload :- MapGet(m, 2);
    Ok(RecordPlain(recordId, kind, payload))
  }

  lemma PlainRises(r: RecordPlain)
    requires Fits(r.payload)
    ensures Rising(PlainFields(r)) && Fits(PlainValue(r))
  {
    RisingFits(PlainFields(r));
  }

  lemma PlainValueRoundTrip(r: RecordPlain)
    requires Fits(r.payload)
    ensures Fits(PlainValue(r)) && DecodePlainValue(PlainValue(r)) == Ok(r)
  {
    hide IsUtf8, MapGetOpt, Rising;
    PlainRises(r);
    var f := PlainFields(r);
    FieldAt(f, 0); FieldAt(f, 1); FieldAt(f, 2);
  }

  function EncodePlain(r: RecordPlain): ByteString
    requires Fits(r.payload)
  {
    PlainRises(r);
    EncodeCanonical(PlainValue(r))
  }

  function DecodePlain(b: ByteString): (r: Result<RecordPlain, FormatError>)
    ensures r.Ok? ==> Fits(r.value.payload)
  {
    var value :- FromCbor(DecodeCanonical(b, DEFAULT_LIMITS));
    DecodePlainValue(value)
  }

  lemma CanonOfPlain(r: RecordPlain)
    requires Fits(r.payload)
    ensures Fits(PlainValue(r)) && Canon(PlainValue(r)) == PlainValue(r.(payload := Canon(r.payload)))
  {
    hide IsUtf8, Canon, Rising;
    PlainRises(r);
    CanonOfFields(PlainFields(r));
    LeafIsCanonical(Text(r.recordId));
    LeafIsCanonical(Int(r.kind));
    assert Canonized(PlainFields(r)) == PlainFields(r.(payload := Canon(r.payload)));
  }

  /** Up to the order inside the payload, which is not changed when the payload is canonical. */
  lemma PlainRoundTrip(r: RecordPlain)
    requires Fits(r.payload) && Encodable(PlainValue(r))
    ensures DecodePlain(EncodePlain(r)) == Ok(r.(payload := Canon(r.payload)))
    ensures IsCanonical(r.payload) ==> DecodePlain(EncodePlain(r)) == Ok(r)
  {
    hide IsUtf8, Canon, EncodeCanonical, DecodeCanonical, IsCanonical, DecodePlainValue, PlainValue, InLimits, Fits;
    CanonOfPlain(r);
    DecodeOfEncode(PlainValue(r), DEFAULT_LIMITS);
    PlainValueRoundTrip(r.(payload := Canon(r.payload)));
    if IsCanonical(r.payload) { CanonicalFixed(r.payload); }
  }

  // The vault header

  datatype Kdf = Kdf(id: Utf8, salt: Blob, memoryKib: U32, iterations: U32, parallelism: U32)
  datatype VaultKeyWrap = VaultKeyWrap(aead: AeadId, nonce: Blob, ct: Blob)
  datatype Header = Header(v: U64, vaultId: Utf8, userId: Utf8, kdf: Kdf, aead: AeadId, records: seq<RecordContainer>,
                           wrap: VaultKeyWrap)

  predicate WellFormedHeader(h: Header) {
    |h.wrap.nonce| == NONCE_LENGTH && |h.records| < U64_LIMIT
    && forall i :: 0 <= i < |h.records| ==> WellFormedContainer(h.records[i])
  }

  function KdfParamFields(k: Kdf): seq<Field> {
    [Field(0, Int(k.memoryKib)), Field(1, Int(k.iterations)), Field(2, Int(k.parallelism))]
  }

  function KdfFields(k: Kdf): seq<Field> {
    [Field(0, Text(k.id)), Field(1, Bin(k.salt)), Field(2, MapOf(KdfParamFields(k)))]
  }

  function WrapFields(w: VaultKeyWrap): seq<Field> {
    [Field(0, Text(AEAD_1)), Field(1, Bin(w.nonce)), Field(2, Bin(w.ct))]
  }

  function ContainerValues(records: seq<RecordContainer>): (r: seq<Value>)
    ensures |r| == |records| && forall i :: 0 <= i < |r| ==> r[i] == ContainerValue(records[i])
  {
    seq(|records|, i requires 0 <= i < |records| => ContainerValue(records[i]))
  }

  function HeaderFields(h: Header): seq<Field> {
    [Field(0, Int(h.v)), Field(1, Text(h.vaultId)), Field(2, Text(h.userId)), Field(3, MapOf(KdfFields(h.kdf))),
     Field(4, Text(AEAD_1)), Field(5, Array(ContainerValues(h.records))), Field(6, MapOf(WrapFields(h.wrap)))]
  }

  function HeaderValue(h: Header): Value {
    MapOf(HeaderFields(h))
  }

  /** The parameters are cut to 32 bits. */
  function DecodeKdf(value: Value): Result<Kdf, FormatError> {
    var m :- AsMap(value);
    var id :- ReqText(m, 0);
    var salt :- ReqBytes(m, 1);
    var params :- MapGet(m, 2);
    var p :- AsMap(params);
    var memoryKib :- ReqUint(p, 0);
    var iterations :- ReqUint(p, 1);
    var parallelism :- ReqUint(p, 2);
    Ok(Kdf(id, salt, memoryKib % 0x1_0000_0000, iterations % 0x1_0000_0000, parallelism % 0x1_0000_0000))
  }

  function DecodeWrap(value: Value): (r: Result<VaultKeyWrap, FormatError>)
    ensures r.Ok? ==> |r.value.nonce| == NONCE_LENGTH
  {
    var m :- AsMap(value);
    var _ :- ReqName(m, 0, AEAD_1);
    var nonce :- ReqSized(m, 1, NONCE_LENGTH);
    var ct :- ReqBytes(m, 2);
    Ok(VaultKeyWrap(Aead1, nonce, ct))
  }

  /** The containers in order, up to the first that cannot be decoded. */
  function DecodeContainers(items: seq<Value>): (r: Result<seq<RecordContainer>, FormatError>)
    ensures r.Ok? ==> |r.value| == |items| && forall i :: 0 <= i < |r.value| ==> WellFormedContainer(r.value[i])
  {
    if items == [] then Ok([]) else
      var front :- DecodeContainers(items[..|items| - 1]);
      var last :- DecodeContainerValue(items[|items| - 1]);
      Ok(front + [last])
  }

  method DecodeRecordContainers(value: Value) returns (r: Result<seq<RecordContainer>, FormatError>)
    ensures r == if value.Array? then DecodeContainers(value.items) else Err(ExpectedArray)
  {
    hide IsUtf8, DecodeContainerValue;
    if !value.Array? {
      return Err(ExpectedArray);
    }
    var records := [];
    for k := 0 to |value.items|
      invariant DecodeContainers(value.items[..k]) == Ok(records)
    {
      assert value.items[..k + 1][..k] == value.items[..k];
      var record := DecodeContainerValue(value.items[k]);
      if record.Err? {
        FirstErrorStays(value.items, k + 1);
        return Err(record.error);
      }
      records := records + [record.value];
    }
    assert value.items[..|value.items|] == value.items;
    return Ok(records);
  }

  lemma {:induction false} FirstErrorStays(items: seq<Value>, k: nat)
    requires k <= |items| && DecodeContainers(items[..k]).Err?
    ensures DecodeContainers(items) == DecodeContainers(items[..k])
    decreases |items|
  {
    if k == |items| {
      assert items[..k] == items;
    } else {
      var init := items[..|items| - 1];
      assert init[..k] == items[..k];
      FirstErrorStays(init, k);
    }
  }

  function DecodeHeaderValue(value: Value): (r: Result<Header, FormatError>)
    requires Fits(value)
    ensures r.Ok? ==> WellFormedHeader(r.value)
  {
    var m :- AsMap(value);
    var v :- ReqUint(m, 0);
    var vaultId :- ReqText(m, 1);
    var userId :- ReqText(m, 2);
    var kdfValue :- MapGet(m, 3);
    var kdf :- DecodeKdf(kdfValue);
    var _ :- ReqName(m, 4, AEAD_1);
    var recordsValue :- MapGet(m, 5);
    var items :- AsArray(recordsValue);
    var records :- DecodeContainers(items);
    var wrapValue :- MapGet(m, 6);
    var wrap :- DecodeWrap(wrapValue);
    Ok(Header(v, vaultId, userId, kdf, Aead1, records, wrap))
  }

  lemma KdfRoundTrip(k: Kdf)
    ensures Fits(MapOf(KdfFields(k))) && IsCanonical(MapOf(KdfFields(k)))
    ensures DecodeKdf(MapOf(KdfFields(k))) == Ok(k)
  {
    hide IsUtf8, MapGetOpt, Encode, Less, Canon;
    var p, f := KdfParamFields(k), KdfFields(k);
    assert Rising(p);
    RisingIsCanonical(p);
    assert Rising(f);
    RisingIsCanonical(f);
    FieldAt(p, 0); FieldAt(p, 1); FieldAt(p, 2);
    FieldAt(f, 0); FieldAt(f, 1); FieldAt(f, 2);
  }

  lemma WrapRoundTrip(w: VaultKeyWrap)
    ensures Fits(MapOf(WrapFields(w))) && IsCanonical(MapOf(WrapFields(w)))
    ensures |w.nonce| == NONCE_LENGTH ==> DecodeWrap(MapOf(WrapFields(w))) == Ok(w)
  {
    hide IsUtf8, MapGetOpt, Encode, Less, Canon;
    var f := WrapFields(w);
    assert w.aead == Aead1;
    assert Rising(f);
    RisingIsCanonical(f);
    FieldAt(f, 0); FieldAt(f, 1); FieldAt(f, 2);
  }

  lemma {:induction false} ContainersRoundTrip(records: seq<RecordContainer>)
    requires forall i :: 0 <= i < |records| ==> WellFormedContainer(records[i])
    ensures DecodeContainers(ContainerValues(records)) == Ok(records)
  {
    hide IsUtf8, ContainerValue, DecodeContainerValue;
    if records == [] {
      assert ContainerValues(records) == [];
    } else {
      var init, last := records[..|records| - 1], records[|records| - 1];
      ContainersRoundTrip(init);
      var values := ContainerValues(records);
      assert values[..|values| - 1] == ContainerValues(init) && values[|values| - 1] == ContainerValue(last);
      assert records == init + [last];
      ContainerValueRoundTrip(last);
    }
  }

  lemma ContainersAreCanonical(records: seq<RecordContainer>)
    requires |records| < U64_LIMIT
    ensures var v := Array(ContainerValues(records)); Fits(v) && IsCanonical(v)
  {
    hide IsUtf8, ContainerValue;
    forall i | 0 <= i < |records| ensures Fits(ContainerValue(records[i])) && IsCanonical(ContainerValue(records[i])) {
      ContainerIsCanonical(records[i]);
    }
  }

  lemma HeaderRises(h: Header)
    requires WellFormedHeader(h)
    ensures Rising(HeaderFields(h)) && Fits(HeaderValue(h)) && IsCanonical(HeaderValue(h))
  {
    hide IsUtf8, Encode, Less, Canon, ContainerValues, KdfFields, WrapFields, KeysAscend, DecodeKdf, DecodeWrap, MapOf;
    KdfRoundTrip(h.kdf);
    WrapRoundTrip(h.wrap);
    ContainersAreCanonical(h.records);
    var f := HeaderFields(h);
    assert Rising(f);
    RisingIsCanonical(f);
  }

  lemma HeaderValueRoundTrip(h: Header)
    requires WellFormedHeader(h)
    ensures Fits(HeaderValue(h)) && DecodeHeaderValue(HeaderValue(h)) == Ok(h)
  {
    hide IsUtf8, MapGetOpt, Rising, DecodeKdf, DecodeWrap, DecodeContainers, KdfFields, WrapFields, ContainerValues, Fits,
         IsCanonical;
    HeaderRises(h);
    KdfRoundTrip(h.kdf);
    WrapRoundTrip(h.wrap);
    ContainersRoundTrip(h.records);
    assert h.aead == Aead1;
    var f := HeaderFields(h);
    FieldAt(f, 0); FieldAt(f, 1); FieldAt(f, 2); FieldAt(f, 3); FieldAt(f, 4); FieldAt(f, 5); FieldAt(f, 6);
  }

  function EncodeHeader(h: Header): ByteString
    requires WellFormedHeader(h)
  {
    HeaderRises(h);
    EncodeCanonical(HeaderValue(h))
  }

  function DecodeHeader(b: ByteString): (r: Result<Header, FormatError>)
    ensures r.Ok? ==> WellFormedHeader(r.value)
  {
    var value :- FromCbor(DecodeCanonical(b, DEFAULT_LIMITS));
    DecodeHeaderValue(value)
  }

  lemma HeaderRoundTrip(h: Header)
    requires WellFormedHeader(h) && Encodable(HeaderValue(h))
    ensures DecodeHeader(EncodeHeader(h)) == Ok(h)
  {
    hide IsUtf8, Canon, EncodeCanonical, DecodeCanonical, IsCanonical, DecodeHeaderValue, HeaderValue, InLimits, Fits, Rising;
    HeaderRises(h);
    CanonicalFixed(HeaderValue(h));
    DecodeOfEncode(HeaderValue(h), DEFAULT_LIMITS);
    HeaderValueRoundTrip(h);
  }

  // Snapshots

  /** An exported vault: the header, embedded as a value, and all records. */
  datatype VaultSnapshot = VaultSnapshot(header: Header, records: seq<RecordContainer>)

  predicate WellFormedSnapshot(s: VaultSnapshot) {
    WellFormedHeader(s.header) && |s.records| < U64_LIMIT
    && forall i :: 0 <= i < |s.records| ==> WellFormedContainer(s.records[i])
  }

  function SnapshotFields(header: Value, records: seq<RecordContainer>): seq<Field> {
    [Field(0, header), Field(1, Array(ContainerValues(records)))]
  }

  function SnapshotValue(s: VaultSnapshot): Value {
    MapOf(SnapshotFields(HeaderValue(s.header), s.records))
  }

  lemma SnapshotRises(header: Value, records: seq<RecordContainer>)
    requires Fits(header) && |records| < U64_LIMIT
    ensures Rising(SnapshotFields(header, records)) && Fits(MapOf(SnapshotFields(header, records)))
    ensures IsCanonical(header) ==> IsCanonical(MapOf(SnapshotFields(header, records)))
  {
    hide IsUtf8, Encode, Less, Canon, ContainerValues, KeysAscend, MapOf;
    ContainersAreCanonical(records);
    var f := SnapshotFields(header, records);
    assert Rising(f);
    RisingFits(f);
    if IsCanonical(header) { RisingIsCanonical(f); }
  }

  /** Fails only when the header is beyond the limits. */
  function EncodeSnapshot(s: VaultSnapshot): Result<ByteString, FormatError>
    requires WellFormedSnapshot(s)
  {
    var header :- FromCbor(DecodeCanonical(EncodeHeader(s.header), DEFAULT_LIMITS));
    SnapshotRises(header, s.records);
    Ok(EncodeCanonical(MapOf(SnapshotFields(header, s.records))))
  }

  function DecodeSnapshotValue(value: Value): (r: Result<VaultSnapshot, FormatError>)
    requires Fits(value)
    ensures r.Ok? ==> WellFormedSnapshot(r.value)
  {
    var m :- AsMap(value);
    var headerValue :- MapGet(m, 0);
    var header :- DecodeHeader(EncodeCanonical(headerValue));
    var recordsValue :- MapGet(m, 1);
    var items :- AsArray(recordsValue);
    var records :- DecodeContainers(items);
    Ok(VaultSnapshot(header, records))
  }

  function DecodeSnapshot(b: ByteString): (r: Result<VaultSnapshot, FormatError>)
    ensures r.Ok? ==> WellFormedSnapshot(r.value)
  {
    var value :- FromCbor(DecodeCanonical(b, DEFAULT_LIMITS));
    DecodeSnapshotValue(value)
  }

  lemma SnapshotValueRoundTrip(s: VaultSnapshot)
    requires WellFormedSnapshot(s) && Encodable(HeaderValue(s.header))
    ensures Fits(SnapshotValue(s)) && DecodeSnapshotValue(SnapshotValue(s)) == Ok(s)
  {
    hide IsUtf8, MapGetOpt, Rising, DecodeContainers, ContainerValues, Fits, HeaderValue, DecodeHeader, EncodeCanonical,
         Encodable, IsCanonical;
    HeaderRises(s.header);
    SnapshotRises(HeaderValue(s.header), s.records);
    HeaderRoundTrip(s.header);
    ContainersRoundTrip(s.records);
    var f := SnapshotFields(HeaderValue(s.header), s.records);
    FieldAt(f, 0); FieldAt(f, 1);
  }

  lemma SnapshotRoundTrip(s: VaultSnapshot)
    requires WellFormedSnapshot(s) && Encodable(HeaderValue(s.header)) && Encodable(SnapshotValue(s))
    ensures EncodeSnapshot(s) == Ok(EncodeCanonical(SnapshotValue(s)))
    ensures DecodeSnapshot(EncodeCanonical(SnapshotValue(s))) == Ok(s)
  {
    hide IsUtf8, Canon, EncodeCanonical, DecodeCanonical, IsCanonical, HeaderValue, InLimits, Fits, Rising,
         DecodeSnapshotValue, ContainerValues, MapOf, WellFormedHeader;
    HeaderRises(s.header);
    CanonicalFixed(HeaderValue(s.header));
    DecodeOfEncode(HeaderValue(s.header), DEFAULT_LIMITS);
    SnapshotRises(HeaderValue(s.header), s.records);
    CanonicalFixed(SnapshotValue(s));
    DecodeOfEncode(SnapshotValue(s), DEFAULT_LIMITS);
    SnapshotValueRoundTrip(s);
  }
}
