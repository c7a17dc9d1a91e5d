/** The wire formats for sharing: scope state, resource grant and key envelope. */
module SharingFormats {
  import opened Wrappers
  import opened Bytes
  import opened Cbor
  import opened CanonicalCbor
  import opened CborDecoding
  import opened CborFields
  import opened Formats

  // Scope state

  datatype ScopeState = ScopeState(
    v: U64, scopeId: Utf8, sequence: U64, prevHash: Blob, scopeEpoch: U64, kind: U64, payload: Value,
    signerDeviceId: Utf8, sigSuite: SigId, signature: Blob)

  function ScopeLow(s: ScopeState): seq<Value> {
    [Int(s.v), Text(s.scopeId), Int(s.sequence), Bin(s.prevHash), Int(s.scopeEpoch), Int(s.kind)]
  }

  function ScopeHigh(s: ScopeState): seq<Value> {
    [Text(s.signerDeviceId), Text(HYBRID_SIG_1), Bin(s.signature)]
  }

  /** Fields 0 .. 5, the payload at 6, and fields 7 .. 9. */
  function ScopeValue(s: ScopeState): Value {
    MapOf(AroundPart(ScopeLow(s), Some(s.payload), 7, ScopeHigh(s)))
  }

  function DecodeScopeValue(value: Value): Result<ScopeState, FormatError> {
    var m :- AsMap(value);
    var v :- ReqUint(m, 0);
    var scopeId :- ReqText(m, 1);
    var sequence :- ReqUint(m, 2);
    var prevHash :- ReqSized(m, 3, HASH_LENGTH);
    var scopeEpoch :- ReqUint(m, 4);
    var kind :- ReqUint(m, 5);
    var payload :- MapGet(m, 6);
    var signerDeviceId :- ReqText(m, 7);
    var _ :- ReqName(m, 8, HYBRID_SIG_1);
    var signature :- ReqBytes(m, 9);
    Ok(ScopeState(v, scopeId, sequence, prevHash, scopeEpoch, kind, payload, signerDeviceId, HybridSig1, signature))
  }

  lemma ScopePartFits(s: ScopeState)
    requires Fits(s.payload)
    ensures PartFits(ScopeLow(s), Some(s.payload), 7, ScopeHigh(s)) && Fits(ScopeValue(s))
  {
    hide IsUtf8, Ascii, MapOf, AroundPart, Rising, Fits;
    PartRises(ScopeLow(s), Some(s.payload), 7, ScopeHigh(s));
  }

  lemma ScopeLookups(s: ScopeState)
    requires Fits(s.payload)
    ensures var m := ScopeValue(s).entries;
            && MapGetOpt(m, 0) == Some(Int(s.v)) && MapGetOpt(m, 1) == Some(Text(s.scopeId))
            && MapGetOpt(m, 2) == Some(Int(s.sequence)) && MapGetOpt(m, 3) == Some(Bin(s.prevHash))
            && MapGetOpt(m, 4) == Some(Int(s.scopeEpoch)) && MapGetOpt(m, 5) == Some(Int(s.kind))
            && MapGetOpt(m, 6) == Some(s.payload) && MapGetOpt(m, 7) == Some(Text(s.signerDeviceId))
            && MapGetOpt(m, 8) == Some(Text(HYBRID_SIG_1)) && MapGetOpt(m, 9) == Some(Bin(s.signature))
  {
    hide IsUtf8, Ascii, MapGetOpt, MapOf, AroundPart, Rising, Fits;
    ScopePartFits(s);
    var low, high, m := ScopeLow(s), ScopeHigh(s), ScopeValue(s).entries;
    PartLookup(low, Some(s.payload), 7, high);
    assert MapGetOpt(m, 0) == Some(low[0]) && MapGetOpt(m, 1) == Some(low[1]) && MapGetOpt(m, 2) == Some(low[2]);
    assert MapGetOpt(m, 3) == Some(low[3]) && MapGetOpt(m, 4) == Some(low[4]) && MapGetOpt(m, 5) == Some(low[5]);
    assert MapGetOpt(m, 7 + 0) == Some(high[0]) && MapGetOpt(m, 7 + 1) == Some(high[1]);
    assert MapGetOpt(m, 7 + 2) == Some(high[2]);
  }

  lemma ScopeValueRoundTrip(s: ScopeState)
    requires Fits(s.payload) && |s.prevHash| == HASH_LENGTH
    ensures DecodeScopeValue(ScopeValue(s)) == Ok(s)
  {
    hide IsUtf8, Ascii, MapGetOpt, ScopeLow, ScopeHigh, AroundPart, Fits;
    ScopeLookups(s);
    assert s.sigSuite == HybridSig1;
  }

  function EncodeScope(s: ScopeState): ByteString
    requires Fits(s.payload)
  {
    ScopePartFits(s);
    EncodeCanonical(ScopeValue(s))
  }

  function DecodeScope(b: ByteString): Result<ScopeState, FormatError> {
    var value :- FromCbor(DecodeCanonical(b, DEFAULT_LIMITS));
    DecodeScopeValue(value)
  }

  lemma ScopeRoundTrip(s: ScopeState)
    requires Fits(s.payload) && |s.prevHash| == HASH_LENGTH && Encodable(ScopeValue(s))
    ensures DecodeScope(EncodeScope(s)) == Ok(s.(payload := Canon(s.payload)))
    ensures IsCanonical(s.payload) ==> DecodeScope(EncodeScope(s)) == Ok(s)
  {
    hide IsUtf8, Ascii, Canon, EncodeCanonical, DecodeCanonical, IsCanonical, DecodeScopeValue, AroundPart, MapOf, Fits, Encodable,
         PartFits, Rising;
    ScopePartFits(s);
    PartSurvives(ScopeLow(s), Some(s.payload), 7, ScopeHigh(s));
    ScopeValueRoundTrip(s.(payload := Canon(s.payload)));
  }

  // Resource grants

  datatype Grant = Grant(
    v: U64, grantId: Utf8, scopeId: Utf8, sequence: U64, prevHash: Blob, scopeStateRef: Blob, scopeEpoch: U64,
    resourceId: Utf8, resourceKeyId: Utf8, policy: Option<Value>, aead: AeadId, nonce: Blob, wrappedKey: Blob,
    signerDeviceId: Utf8, sigSuite: SigId, signature: Blob)

  predicate WellFormedGrant(g: Grant) {
    |g.prevHash| == HASH_LENGTH && |g.scopeStateRef| == HASH_LENGTH && |g.nonce| == NONCE_LENGTH
    && (g.policy.Some? ==> Fits(g.policy.value))
  }

  function GrantLow(g: Grant): seq<Value> {
    [Int(g.v), Text(g.grantId), Text(g.scopeId), Int(g.sequence), Bin(g.prevHash), Bin(g.scopeStateRef),
     Int(g.scopeEpoch), Text(g.resourceId), Text(g.resourceKeyId)]
  }

  function GrantHigh(g: Grant): seq<Value> {
    [Text(AEAD_1), Bin(g.nonce), Bin(g.wrappedKey), Text(g.signerDeviceId), Text(HYBRID_SIG_1), Bin(g.signature)]
  }

  lemma GrantPartFits(g: Grant)
    requires WellFormedGrant(g)
    ensures PartFits(GrantLow(g), g.policy, 10, GrantHigh(g))
    ensures Fits(MapOf(AroundPart(GrantLow(g), g.policy, 10, GrantHigh(g))))
  {
    hide IsUtf8, Ascii, MapOf, AroundPart, Rising, Fits;
    PartRises(GrantLow(g), g.policy, 10, GrantHigh(g));
  }

  /** Fields 0 .. 8, the policy at 9 if there is one, and fields 10 .. 15. */
  function GrantValue(g: Grant): Value
    requires WellFormedGrant(g)
  {
    GrantPartFits(g);
    MapOf(AroundPart(GrantLow(g), g.policy, 10, GrantHigh(g)))
  }

  function DecodeGrantValue(value: Value): Result<Grant, FormatError> {
    var m :- AsMap(value);
    var v :- ReqUint(m, 0);
    var grantId :- ReqText(m, 1);
    var scopeId :- ReqText(m, 2);
    var sequence :- ReqUint(m, 3);
    var prevHash :- ReqSized(m, 4, HASH_LENGTH);
    var scopeStateRef :- ReqSized(m, 5, HASH_LENGTH);
    var scopeEpoch :- ReqUint(m, 6);
    var resourceId :- ReqText(m, 7);
    var resourceKeyId :- ReqText(m, 8);
    var policy := MapGetOpt(m, 9);
    var _ :- ReqName(m, 10, AEAD_1);
    var nonce :- ReqSized(m, 11, NONCE_LENGTH);
    var wrappedKey :- ReqBytes(m, 12);
    var signerDeviceId :- ReqText(m, 13);
    var _ :- ReqName(m, 14, HYBRID_SIG_1);
    var signature :- ReqBytes(m, 15);
    Ok(Grant(v, grantId, scopeId, sequence, prevHash, scopeStateRef, scopeEpoch, resourceId, resourceKeyId, policy,
             Aead1, nonce, wrappedKey, signerDeviceId, HybridSig1, signature))
  }

  function UintField(key: SmallKey, n: U64): Field { Field(key, Int(n)) }
  function TextField(key: SmallKey, t: Utf8): Field { Field(key, Text(t)) }
  function BytesField(key: SmallKey, b: Blob): Field { Field(key, Bin(b)) }

  lemma GrantPieces(g: Grant)
    ensures Numbered(0, GrantLow(g)) ==
              [UintField(0, g.v), TextField(1, g.grantId), TextField(2, g.scopeId), UintField(3, g.sequence),
               BytesField(4, g.prevHash), BytesField(5, g.scopeStateRef), UintField(6, g.scopeEpoch),
               TextField(7, g.resourceId), TextField(8, g.resourceKeyId)]
    ensures Numbered(10, GrantHigh(g)) ==
              [TextField(10, AEAD_1), BytesField(11, g.nonce), BytesField(12, g.wrappedKey),
               TextField(13, g.signerDeviceId), TextField(14, HYBRID_SIG_1), BytesField(15, g.signature)]
  {
    hide IsUtf8, Ascii, Fits;
  }

  /** The optional policy is pushed between the fixed fields. */
  method EncodeGrant(g: Grant) returns (b: ByteString)
    requires WellFormedGrant(g)
    ensures Fits(GrantValue(g)) && b == EncodeCanonical(GrantValue(g))
  {
    hide IsUtf8, Ascii, EncodeCanonical, MapOf, Rising, Fits, PartFits, GrantLow, GrantHigh, Numbered;
    GrantPieces(g);
    GrantPartFits(g);
    var entries := [UintField(0, g.v), TextField(1, g.grantId), TextField(2, g.scopeId), UintField(3, g.sequence),
                    BytesField(4, g.prevHash), BytesField(5, g.scopeStateRef), UintField(6, g.scopeEpoch),
                    TextField(7, g.resourceId), TextField(8, g.resourceKeyId)];
    if g.policy.Some? {
      entries := entries + [Field(9, g.policy.value)];
    } else {
      assert entries + [] == entries;
    }
    entries := entries + [TextField(10, AEAD_1), BytesField(11, g.nonce), BytesField(12, g.wrappedKey),
                          TextField(13, g.signerDeviceId), TextField(14, HYBRID_SIG_1), BytesField(15, g.signature)];
    b := EncodeCanonical(MapOf(entries));
  }

  function DecodeGrant(b: ByteString): Result<Grant, FormatError> {
    var value :- FromCbor(DecodeCanonical(b, DEFAULT_LIMITS));
    DecodeGrantValue(value)
  }

  lemma GrantLookups(g: Grant)
    requires WellFormedGrant(g)
    ensures var m := GrantValue(g).entries;
            && MapGetOpt(m, 0) == Some(Int(g.v)) && MapGetOpt(m, 1) == Some(Text(g.grantId))
            && MapGetOpt(m, 2) == Some(Text(g.scopeId)) && MapGetOpt(m, 3) == Some(Int(g.sequence))
            && MapGetOpt(m, 4) == Some(Bin(g.prevHash)) && MapGetOpt(m, 5) == Some(Bin(g.scopeStateRef))
            && MapGetOpt(m, 6) == Some(Int(g.scopeEpoch)) && MapGetOpt(m, 7) == Some(Text(g.resourceId))
            && MapGetOpt(m, 8) == Some(Text(g.resourceKeyId)) && MapGetOpt(m, 9) == g.policy
            && MapGetOpt(m, 10) == Some(Text(AEAD_1)) && MapGetOpt(m, 11) == Some(Bin(g.nonce))
            && MapGetOpt(m, 12) == Some(Bin(g.wrappedKey)) && MapGetOpt(m, 13) == Some(Text(g.signerDeviceId))
            && MapGetOpt(m, 14) == Some(Text(HYBRID_SIG_1)) && MapGetOpt(m, 15) == Some(Bin(g.signature))
  {
    hide IsUtf8, Ascii, MapGetOpt, MapOf, AroundPart, Rising, Fits;
    GrantPartFits(g);
    var low, high, m := GrantLow(g), GrantHigh(g), GrantValue(g).entries;
    PartLookup(low, g.policy, 10, high);
    assert MapGetOpt(m, 0) == Some(low[0]) && MapGetOpt(m, 1) == Some(low[1]) && MapGetOpt(m, 2) == Some(low[2]);
    assert MapGetOpt(m, 3) == Some(low[3]) && MapGetOpt(m, 4) == Some(low[4]) && MapGetOpt(m, 5) == Some(low[5]);
    assert MapGetOpt(m, 6) == Some(low[6]) && MapGetOpt(m, 7) == Some(low[7]) && MapGetOpt(m, 8) == Some(low[8]);
    assert MapGetOpt(m, 10 + 0) == Some(high[0]) && MapGetOpt(m, 10 + 1) == Some(high[1]);
    assert MapGetOpt(m, 10 + 2) == Some(high[2]) && MapGetOpt(m, 10 + 3) == Some(high[3]);
    assert MapGetOpt(m, 10 + 4) == Some(high[4]) && MapGetOpt(m, 10 + 5) == Some(high[5]);
  }

  lemma GrantValueRoundTrip(g: Grant)
    requires WellFormedGrant(g)
    ensures DecodeGrantValue(GrantValue(g)) == Ok(g)
  {
    hide IsUtf8, Ascii, MapGetOpt, AroundPart, GrantLow, GrantHigh, Fits;
    GrantLookups(g);
    assert g.aead == Aead1 && g.sigSuite == HybridSig1;
  }

  function CanonPolicy(g: Grant): Grant
    requires WellFormedGrant(g)
  {
    g.(policy := CanonPart(g.policy))
  }

  lemma GrantRoundTrip(g: Grant)
    requires WellFormedGrant(g) && Encodable(GrantValue(g))
    ensures DecodeGrant(EncodeCanonical(GrantValue(g))) == Ok(CanonPolicy(g))
    ensures (g.policy.Some? ==> IsCanonical(g.policy.value)) ==> DecodeGrant(EncodeCanonical(GrantValue(g))) == Ok(g)
  {
    hide IsUtf8, Ascii, Canon, EncodeCanonical, DecodeCanonical, IsCanonical, DecodeGrantValue, AroundPart, MapOf, Fits, Encodable,
         Rising;
    GrantPartFits(g);
    PartSurvives(GrantLow(g), g.policy, 10, GrantHigh(g));
    GrantValueRoundTrip(CanonPolicy(g));
  }

  // Key envelopes

  datatype Envelope = Envelope(
    v: U64, envelopeId: Utf8, scopeId: Utf8, scopeEpoch: U64, recipientUserId: Utf8, scopeStateRef: Blob, kem: KemId,
    aead: AeadId, enc: Blob, nonce: Blob, wrappedScopeKey: Blob, signerDeviceId: Utf8, sigSuite: SigId,
    signature: Blob, fingerprint: Option<Blob>)

  predicate WellFormedEnvelope(e: Envelope) {
    |e.scopeStateRef| == HASH_LENGTH && |e.nonce| == NONCE_LENGTH
  }

  function EnvelopeLow(e: Envelope): seq<Value> {
    [Int(e.v), Text(e.envelopeId), Text(e.scopeId), Int(e.scopeEpoch), Text(e.recipientUserId), Bin(e.scopeStateRef),
     Text(HYBRID_KEM_1)]
  }

  function EnvelopeHigh(e: Envelope): seq<Value> {
    [Bin(e.enc), Bin(e.nonce), Bin(e.wrappedScopeKey), Text(e.signerDeviceId), Text(HYBRID_SIG_1), Bin(e.signature)]
    + if e.fingerprint.Some? then [Bin(e.fingerprint.value)] else []
  }

  lemma EnvelopePartFits(e: Envelope)
    ensures PartFits(EnvelopeLow(e), Some(Text(AEAD_1)), 8, EnvelopeHigh(e))
    ensures Rising(AroundPart(EnvelopeLow(e), Some(Text(AEAD_1)), 8, EnvelopeHigh(e)))
    ensures Fits(MapOf(AroundPart(EnvelopeLow(e), Some(Text(AEAD_1)), 8, EnvelopeHigh(e))))
  {
    hide IsUtf8, Ascii, MapOf, AroundPart, Rising;
    PartRises(EnvelopeLow(e), Some(Text(AEAD_1)), 8, EnvelopeHigh(e));
  }

  /** Fields 0 .. 13, and the fingerprint at 14 if there is one. */
  function EnvelopeValue(e: Envelope): (v: Value)
    ensures Fits(v)
  {
    EnvelopePartFits(e);
    MapOf(AroundPart(EnvelopeLow(e), Some(Text(AEAD_1)), 8, EnvelopeHigh(e)))
  }

  function DecodeEnvelopeValue(value: Value): Result<Envelope, FormatError> {
    var m :- AsMap(value);
    var v :- ReqUint(m, 0);
    var envelopeId :- ReqText(m, 1);
    var scopeId :- ReqText(m, 2);
    var scopeEpoch :- ReqUint(m, 3);
    var recipientUserId :- ReqText(m, 4);
    var scopeStateRef :- ReqSized(m, 5, HASH_LENGTH);
    var _ :- ReqName(m, 6, HYBRID_KEM_1);
    var _ :- ReqName(m, 7, AEAD_1);
    var enc :- ReqBytes(m, 8);
    var nonce :- ReqSized(m, 9, NONCE_LENGTH);
    var wrappedScopeKey :- ReqBytes(m, 10);
    var signerDeviceId :- ReqText(m, 11);
    var _ :- ReqName(m, 12, HYBRID_SIG_1);
    var signature :- ReqBytes(m, 13);
    var fingerprint :- OptBytes(m, 14);
    Ok(Envelope(v, envelopeId, scopeId, scopeEpoch, recipientUserId, scopeStateRef, HybridKem1, Aead1, enc, nonce,
                wrappedScopeKey, signerDeviceId, HybridSig1, signature, fingerprint))
  }

  lemma EnvelopePieces(e: Envelope)
    ensures Numbered(0, EnvelopeLow(e)) ==
              [UintField(0, e.v), TextField(1, e.envelopeId), TextField(2, e.scopeId), UintField(3, e.scopeEpoch),
               TextField(4, e.recipientUserId), BytesField(5, e.scopeStateRef), TextField(6, HYBRID_KEM_1)]
    ensures Numbered(8, EnvelopeHigh(e)) ==
              [BytesField(8, e.enc), BytesField(9, e.nonce), BytesField(10, e.wrappedScopeKey),
               TextField(11, e.signerDeviceId), TextField(12, HYBRID_SIG_1), BytesField(13, e.signature)]
              + if e.fingerprint.Some? then [BytesField(14, e.fingerprint.value)] else []
  {
    hide IsUtf8, Ascii, Fits;
  }

  /** The optional fingerprint is pushed last. */
  method EncodeEnvelope(e: Envelope) returns (b: ByteString)
    ensures b == EncodeCanonical(EnvelopeValue(e))
  {
    hide IsUtf8, Ascii, EncodeCanonical, MapOf, Rising, Fits, PartFits, EnvelopeLow, EnvelopeHigh, Numbered;
    EnvelopePieces(e);
    EnvelopePartFits(e);
    var low := [UintField(0, e.v), TextField(1, e.envelopeId), TextField(2, e.scopeId), UintField(3, e.scopeEpoch),
                TextField(4, e.recipientUserId), BytesField(5, e.scopeStateRef), TextField(6, HYBRID_KEM_1)];
    var high := [BytesField(8, e.enc), BytesField(9, e.nonce), BytesField(10, e.wrappedScopeKey),
                 TextField(11, e.signerDeviceId), TextField(12, HYBRID_SIG_1), BytesField(13, e.signature)];
    if e.fingerprint.Some? {
      high := high + [BytesField(14, e.fingerprint.value)];
    } else {
      assert high + [] == high;
    }
    b := EncodeCanonical(MapOf(low + [TextField(7, AEAD_1)] + high));
  }

  function DecodeEnvelope(b: ByteString): Result<Envelope, FormatError> {
    var value :- FromCbor(DecodeCanonical(b, DEFAULT_LIMITS));
    DecodeEnvelopeValue(value)
  }

  lemma EnvelopeLookups(e: Envelope)
    ensures var m := EnvelopeValue(e).entries;
            && MapGetOpt(m, 0) == Some(Int(e.v)) && MapGetOpt(m, 1) == Some(Text(e.envelopeId))
            && MapGetOpt(m, 2) == Some(Text(e.scopeId)) && MapGetOpt(m, 3) == Some(Int(e.scopeEpoch))
            && MapGetOpt(m, 4) == Some(Text(e.recipientUserId)) && MapGetOpt(m, 5) == Some(Bin(e.scopeStateRef))
            && MapGetOpt(m, 6) == Some(Text(HYBRID_KEM_1)) && MapGetOpt(m, 7) == Some(Text(AEAD_1))
            && MapGetOpt(m, 8) == Some(Bin(e.enc)) && MapGetOpt(m, 9) == Some(Bin(e.nonce))
            && MapGetOpt(m, 10) == Some(Bin(e.wrappedScopeKey)) && MapGetOpt(m, 11) == Some(Text(e.signerDeviceId))
            && MapGetOpt(m, 12) == Some(Text(HYBRID_SIG_1)) && MapGetOpt(m, 13) == Some(Bin(e.signature))
            && MapGetOpt(m, 14) == if e.fingerprint.Some? then Some(Bin(e.fingerprint.value)) else None
  {
    hide IsUtf8, Ascii, MapGetOpt, MapOf, AroundPart, Rising, Fits;
    EnvelopePartFits(e);
    var low, high, m := EnvelopeLow(e), EnvelopeHigh(e), EnvelopeValue(e).entries;
    PartLookup(low, Some(Text(AEAD_1)), 8, high);
    assert MapGetOpt(m, 0) == Some(low[0]) && MapGetOpt(m, 1) == Some(low[1]) && MapGetOpt(m, 2) == Some(low[2]);
    assert MapGetOpt(m, 3) == Some(low[3]) && MapGetOpt(m, 4) == Some(low[4]) && MapGetOpt(m, 5) == Some(low[5]);
    assert MapGetOpt(m, 6) == Some(low[6]);
    assert MapGetOpt(m, 8 + 0) == Some(high[0]) && MapGetOpt(m, 8 + 1) == Some(high[1]);
    assert MapGetOpt(m, 8 + 2) == Some(high[2]) && MapGetOpt(m, 8 + 3) == Some(high[3]);
    assert MapGetOpt(m, 8 + 4) == Some(high[4]) && MapGetOpt(m, 8 + 5) == Some(high[5]);
    if e.fingerprint.Some? {
      assert MapGetOpt(m, 8 + 6) == Some(high[6]);
    } else {
      PastTheEnd(low, Some(Text(AEAD_1)), 8, high);
    }
  }

  lemma PastTheEnd(low: seq<Value>, part: Option<Value>, from: nat, high: seq<Value>)
    requires PartFits(low, part, from, high)
    ensures Rising(AroundPart(low, part, from, high))
    ensures MapGetOpt(MapOf(AroundPart(low, part, from, high)).entries, from + |high|) == None
  {
    hide IsUtf8, Ascii, MapGetOpt, MapOf, Rising;
    PartRises(low, part, from, high);
    PartFields(low, part, from, high);
    FieldMissing(AroundPart(low, part, from, high), from + |high|);
  }

  lemma EnvelopeValueRoundTrip(e: Envelope)
    requires WellFormedEnvelope(e)
    ensures DecodeEnvelopeValue(EnvelopeValue(e)) == Ok(e)
  {
    hide IsUtf8, Ascii, MapGetOpt, AroundPart, EnvelopeLow, EnvelopeHigh, Fits;
    EnvelopeLookups(e);
    assert e.kem == HybridKem1 && e.aead == Aead1 && e.sigSuite == HybridSig1;
  }

  lemma EnvelopeRoundTrip(e: Envelope)
    requires WellFormedEnvelope(e) && Encodable(EnvelopeValue(e))
    ensures DecodeEnvelope(EncodeCanonical(EnvelopeValue(e))) == Ok(e)
  {
    hide IsUtf8, Ascii, Canon, EncodeCanonical, DecodeCanonical, DecodeEnvelopeValue, AroundPart, MapOf, Fits, Encodable, Rising,
         EnvelopeLow, EnvelopeHigh;
    EnvelopePartFits(e);
    PartSurvives(EnvelopeLow(e), Some(Text(AEAD_1)), 8, EnvelopeHigh(e));
    LeafIsCanonical(Text(AEAD_1));
    EnvelopeValueRoundTrip(e);
  }
}
