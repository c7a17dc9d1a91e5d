/** Which field of which record lies under which key: what parsing the bytes of each encoded record gives. */
module WireLayout {
  import opened Wrappers
  import opened Bytes
  import opened Cbor
  import opened CanonicalCbor
  import opened CborDecoding
  import opened CborFields
  import opened Formats
  import opened SharingFormats
  import opened KeyVault
  import opened KeyVaultReplay
  import opened VaultService

  /** The bytes are the characters of this ASCII string. */
  predicate Spells(b: ByteString, s: string) {
    |b| == |s| && forall i :: 0 <= i < |b| ==> b[i] == s[i] as int
  }

  lemma Names()
    ensures Spells(AEAD_1, "aead-1") && Spells(HYBRID_KEM_1, "hybrid-kem-1") && Spells(HYBRID_SIG_1, "hybrid-sig-1")
    ensures Spells(RECORD_TAG, "mo-keyvault-record-aad-v1") && Spells(KEYWRAP_TAG, "mo-keyvault-keywrap-aad-v1")
  {
    hide IsUtf8;
  }

  function At(key: nat, v: Value): Entry
    requires key < U64_LIMIT
  {
    Entry(Int(key), v)
  }

  /** The bytes are those of one map with these entries, in this order. */
  predicate Holds(b: ByteString, entries: seq<Entry>) {
    Parse(b) == Ok(Parsed(Map(entries), []))
  }

  lemma ParsedBack(v: Value)
    requires Fits(v)
    ensures Parse(EncodeCanonical(v)) == Ok(Parsed(Canon(v), []))
  {
    hide Canon, Encode, Parse;
    ParseOfEncode(Canon(v), []);
    assert Encode(Canon(v)) + [] == Encode(Canon(v));
  }

  lemma ContainerEntries(r: RecordContainer)
    ensures ContainerValue(r) == Map([At(0, Int(r.v)), At(1, Int(r.sequence)), At(2, Bin(r.prevHash)),
                                      At(3, Text(r.recordId)), At(4, Bin(r.nonce)), At(5, Bin(r.ct))])
  {
    hide IsUtf8;
  }

  lemma ContainerLayout(r: RecordContainer)
    ensures Holds(EncodeContainer(r), [At(0, Int(r.v)), At(1, Int(r.sequence)), At(2, Bin(r.prevHash)),
                                       At(3, Text(r.recordId)), At(4, Bin(r.nonce)), At(5, Bin(r.ct))])
  {
    hide IsUtf8, Canon, Parse, EncodeCanonical, IsCanonical, Fits, ContainerValue;
    ContainerIsCanonical(r);
    ParsedBack(ContainerValue(r));
    ContainerEntries(r);
  }

  lemma PlainLayout(r: RecordPlain)
    requires Fits(r.payload)
    ensures Holds(EncodePlain(r), [At(0, Text(r.recordId)), At(1, Int(r.kind)), At(2, Canon(r.payload))])
  {
    hide IsUtf8, Canon, Parse, EncodeCanonical, Fits, Rising;
    CanonOfPlain(r);
    ParsedBack(PlainValue(r));
    var canon := r.(payload := Canon(r.payload));
    assert PlainValue(canon).entries == [At(0, Text(r.recordId)), At(1, Int(r.kind)), At(2, Canon(r.payload))];
  }

  function KdfMap(k: Kdf): Value {
    Map([At(0, Text(k.id)), At(1, Bin(k.salt)),
         At(2, Map([At(0, Int(k.memoryKib)), At(1, Int(k.iterations)), At(2, Int(k.parallelism))]))])
  }

  lemma KdfEntries(k: Kdf)
    ensures MapOf(KdfFields(k)) == KdfMap(k)
  {
    hide IsUtf8;
    assert MapOf(KdfParamFields(k)).entries == [At(0, Int(k.memoryKib)), At(1, Int(k.iterations)), At(2, Int(k.parallelism))];
  }

  function WrapMap(w: VaultKeyWrap): Value {
    Map([At(0, Text(AEAD_1)), At(1, Bin(w.nonce)), At(2, Bin(w.ct))])
  }

  lemma WrapEntries(w: VaultKeyWrap)
    ensures MapOf(WrapFields(w)) == WrapMap(w)
  {
    hide IsUtf8, Ascii;
  }

  function HeaderEntries(h: Header): seq<Entry> {
    [At(0, Int(h.v)), At(1, Text(h.vaultId)), At(2, Text(h.userId)), At(3, KdfMap(h.kdf)), At(4, Text(AEAD_1)),
     At(5, Array(seq(|h.records|, i requires 0 <= i < |h.records| => ContainerValue(h.records[i])))),
     At(6, WrapMap(h.wrap))]
  }

  lemma HeaderIs(h: Header)
    ensures HeaderValue(h) == Map(HeaderEntries(h))
  {
    hide IsUtf8, Ascii, ContainerValue, KdfFields, WrapFields, KdfMap, WrapMap;
    KdfEntries(h.kdf);
    WrapEntries(h.wrap);
    assert ContainerValues(h.records) == seq(|h.records|, i requires 0 <= i < |h.records| => ContainerValue(h.records[i]));
    assert HeaderValue(h).entries == HeaderEntries(h);
  }

  lemma HeaderLayout(h: Header)
    requires WellFormedHeader(h)
    ensures Holds(EncodeHeader(h), HeaderEntries(h))
  {
    hide IsUtf8, Canon, Parse, EncodeCanonical, IsCanonical, Fits, Rising, HeaderValue, HeaderEntries;
    HeaderRises(h);
    CanonicalFixed(HeaderValue(h));
    ParsedBack(HeaderValue(h));
    HeaderIs(h);
  }

  lemma SnapshotLayout(s: VaultSnapshot)
    requires WellFormedSnapshot(s) && Encodable(HeaderValue(s.header)) && Encodable(SnapshotValue(s))
    ensures EncodeSnapshot(s).Ok?
    ensures Holds(EncodeSnapshot(s).value,
                  [At(0, Map(HeaderEntries(s.header))),
                   At(1, Array(seq(|s.records|, i requires 0 <= i < |s.records| => ContainerValue(s.records[i]))))])
  {
    hide IsUtf8, Canon, Parse, EncodeCanonical, IsCanonical, Fits, Rising, HeaderValue, HeaderEntries, Encodable,
         EncodeSnapshot, ContainerValue, DecodeSnapshot;
    HeaderRises(s.header);
    SnapshotRises(HeaderValue(s.header), s.records);
    SnapshotRoundTrip(s);
    CanonicalFixed(SnapshotValue(s));
    ParsedBack(SnapshotValue(s));
    HeaderIs(s.header);
    assert ContainerValues(s.records) == seq(|s.records|, i requires 0 <= i < |s.records| => ContainerValue(s.records[i]));
    assert SnapshotValue(s).entries == [At(0, Map(HeaderEntries(s.header))), At(1, Array(ContainerValues(s.records)))];
  }

  lemma ScopeEntries(s: ScopeState)
    ensures ScopeValue(s) ==
              Map([At(0, Int(s.v)), At(1, Text(s.scopeId)), At(2, Int(s.sequence)), At(3, Bin(s.prevHash)),
                   At(4, Int(s.scopeEpoch)), At(5, Int(s.kind)), At(6, s.payload), At(7, Text(s.signerDeviceId)),
                   At(8, Text(HYBRID_SIG_1)), At(9, Bin(s.signature))])
  {
    hide IsUtf8, Ascii;
    PartFields(ScopeLow(s), Some(s.payload), 7, ScopeHigh(s));
  }

  lemma ScopeLayout(s: ScopeState)
    requires Fits(s.payload)
    ensures Holds(EncodeScope(s),
                  [At(0, Int(s.v)), At(1, Text(s.scopeId)), At(2, Int(s.sequence)), At(3, Bin(s.prevHash)),
                   At(4, Int(s.scopeEpoch)), At(5, Int(s.kind)), At(6, Canon(s.payload)), At(7, Text(s.signerDeviceId)),
                   At(8, Text(HYBRID_SIG_1)), At(9, Bin(s.signature))])
  {
    hide IsUtf8, Ascii, Canon, Parse, EncodeCanonical, Fits, Rising, AroundPart, MapOf;
    ScopePartFits(s);
    PartCanon(ScopeLow(s), Some(s.payload), 7, ScopeHigh(s));
    ParsedBack(ScopeValue(s));
    ScopeEntries(s.(payload := Canon(s.payload)));
  }

  function GrantList(g: Grant): seq<Entry> {
    [At(0, Int(g.v)), At(1, Text(g.grantId)), At(2, Text(g.scopeId)), At(3, Int(g.sequence)), At(4, Bin(g.prevHash)),
     At(5, Bin(g.scopeStateRef)), At(6, Int(g.scopeEpoch)), At(7, Text(g.resourceId)), At(8, Text(g.resourceKeyId))]
    + (if g.policy.Some? then [At(9, g.policy.value)] else [])
    + [At(10, Text(AEAD_1)), At(11, Bin(g.nonce)), At(12, Bin(g.wrappedKey)), At(13, Text(g.signerDeviceId)),
       At(14, Text(HYBRID_SIG_1)), At(15, Bin(g.signature))]
  }

  lemma GrantEntries(g: Grant)
    requires WellFormedGrant(g)
    ensures GrantValue(g) == Map(GrantList(g))
  {
    hide IsUtf8, Ascii, Fits;
    PartFields(GrantLow(g), g.policy, 10, GrantHigh(g));
    assert GrantValue(g).entries == GrantList(g);
  }

  lemma GrantLayout(g: Grant)
    requires WellFormedGrant(g)
    ensures Fits(GrantValue(g))
    ensures Holds(EncodeCanonical(GrantValue(g)), GrantList(CanonPolicy(g)))
  {
    hide IsUtf8, Ascii, Canon, Parse, EncodeCanonical, Fits, Rising, AroundPart, MapOf, GrantList;
    GrantPartFits(g);
    PartCanon(GrantLow(g), g.policy, 10, GrantHigh(g));
    ParsedBack(GrantValue(g));
    CanonPartFits(g.policy);
    GrantEntries(CanonPolicy(g));
  }

  lemma EnvelopeEntries(e: Envelope)
    ensures EnvelopeValue(e) ==
              Map([At(0, Int(e.v)), At(1, Text(e.envelopeId)), At(2, Text(e.scopeId)), At(3, Int(e.scopeEpoch)),
                   At(4, Text(e.recipientUserId)), At(5, Bin(e.scopeStateRef)), At(6, Text(HYBRID_KEM_1)),
                   At(7, Text(AEAD_1)), At(8, Bin(e.enc)), At(9, Bin(e.nonce)), At(10, Bin(e.wrappedScopeKey)),
                   At(11, Text(e.signerDeviceId)), At(12, Text(HYBRID_SIG_1)), At(13, Bin(e.signature))]
                  + if e.fingerprint.Some? then [At(14, Bin(e.fingerprint.value))] else [])
  {
    hide IsUtf8, Ascii, Fits;
    PartFields(EnvelopeLow(e), Some(Text(AEAD_1)), 8, EnvelopeHigh(e));
  }

  lemma EnvelopeLayout(e: Envelope)
    ensures Holds(EncodeCanonical(EnvelopeValue(e)),
                  [At(0, Int(e.v)), At(1, Text(e.envelopeId)), At(2, Text(e.scopeId)), At(3, Int(e.scopeEpoch)),
                   At(4, Text(e.recipientUserId)), At(5, Bin(e.scopeStateRef)), At(6, Text(HYBRID_KEM_1)),
                   At(7, Text(AEAD_1)), At(8, Bin(e.enc)), At(9, Bin(e.nonce)), At(10, Bin(e.wrappedScopeKey)),
                   At(11, Text(e.signerDeviceId)), At(12, Text(HYBRID_SIG_1)), At(13, Bin(e.signature))]
                  + if e.fingerprint.Some? then [At(14, Bin(e.fingerprint.value))] else [])
  {
    hide IsUtf8, Ascii, Canon, Parse, EncodeCanonical, Fits, Rising, AroundPart, MapOf;
    EnvelopePartFits(e);
    PartCanon(EnvelopeLow(e), Some(Text(AEAD_1)), 8, EnvelopeHigh(e));
    CanonOfLeaf(Text(AEAD_1));
    ParsedBack(EnvelopeValue(e));
    EnvelopeEntries(e);
  }

  // The records of the vault, and what their encryption is bound to

  lemma StoredPayloads(id: Utf8, user: UserKey, device: Utf8, k: DeviceKeys, scope: ScopeKeyId, resource: ResourceKeyId,
                       key: Blob)
    ensures StoreUserKey(id, user) == RecordPlain(id, 1, Map([At(0, Bin(user.priv)), At(1, Bin(user.pub))]))
    ensures StoreDeviceKeys(id, device, k) ==
              RecordPlain(id, 2, Map([At(0, Text(device)), At(1, Bin(k.edPriv)), At(2, Bin(k.edPub)),
                                      At(3, Text(HYBRID_SIG_1)), At(4, Bin(k.mlPriv)), At(5, Bin(k.mlPub))]))
    ensures StoreScopeKey(id, scope, key) ==
              RecordPlain(id, 3, Map([At(0, Text(scope.0)), At(1, Int(scope.1)), At(2, Bin(key))]))
    ensures StoreResourceKey(id, resource, key) ==
              RecordPlain(id, 4, Map([At(0, Text(resource.0)), At(1, Text(resource.1)), At(2, Bin(key))]))
  {
    hide IsUtf8, Ascii, Fits;
    assert StoreUserKey(id, user).payload.entries == [At(0, Bin(user.priv)), At(1, Bin(user.pub))];
    assert StoreDeviceKeys(id, device, k).payload.entries ==
             [At(0, Text(device)), At(1, Bin(k.edPriv)), At(2, Bin(k.edPub)), At(3, Text(HYBRID_SIG_1)),
              At(4, Bin(k.mlPriv)), At(5, Bin(k.mlPub))];
    assert StoreScopeKey(id, scope, key).payload.entries == [At(0, Text(scope.0)), At(1, Int(scope.1)), At(2, Bin(key))];
    assert StoreResourceKey(id, resource, key).payload.entries ==
             [At(0, Text(resource.0)), At(1, Text(resource.1)), At(2, Bin(key))];
  }

  lemma RecordAadLayout(h: Header, recordId: Utf8)
    ensures Holds(RecordAad(h, recordId), [At(0, Text(RECORD_TAG)), At(1, Text(h.vaultId)), At(2, Text(h.userId)),
                                           At(3, Text(AEAD_1)), At(4, Text(recordId))])
  {
    hide IsUtf8, Ascii, Canon, Parse, EncodeCanonical, IsCanonical;
    var values := [Text(RECORD_TAG), Text(h.vaultId), Text(h.userId), Text(AEAD_1), Text(recordId)];
    assert values == TextValues([RECORD_TAG, h.vaultId, h.userId, AEAD_1, recordId]);
    LeavesRecord(values);
    var v := MapOf(Numbered(0, values));
    CanonicalFixed(v);
    ParsedBack(v);
    assert v.entries == [At(0, Text(RECORD_TAG)), At(1, Text(h.vaultId)), At(2, Text(h.userId)), At(3, Text(AEAD_1)),
                         At(4, Text(recordId))];
  }

  lemma KeywrapAadLayout(vaultId: Utf8, userId: Utf8, kdf: Kdf)
    ensures Holds(KeywrapAad(vaultId, userId, kdf), [At(0, Text(KEYWRAP_TAG)), At(1, Text(vaultId)), At(2, Text(userId)),
                                                     At(3, KdfMap(kdf)), At(4, Text(AEAD_1))])
  {
    hide IsUtf8, Ascii, Canon, Parse, EncodeCanonical, IsCanonical, Fits, Rising, KdfFields, KdfMap;
    var low, high := [Text(KEYWRAP_TAG), Text(vaultId), Text(userId)], [Text(AEAD_1)];
    KdfRoundTrip(kdf);
    KdfEntries(kdf);
    PartCanon(low, Some(KdfMap(kdf)), 4, high);
    CanonicalFixed(KdfMap(kdf));
    var v := MapOf(AroundPart(low, Some(KdfMap(kdf)), 4, high));
    ParsedBack(v);
    PartFields(low, Some(KdfMap(kdf)), 4, high);
    assert v.entries == [At(0, Text(KEYWRAP_TAG)), At(1, Text(vaultId)), At(2, Text(userId)), At(3, KdfMap(kdf)),
                         At(4, Text(AEAD_1))];
  }

  /** A record opens only in the vault, for the user and under the id it was sealed for: no two of these share their
      associated data. */
  lemma RecordAadBinds(h: Header, id: Utf8, h': Header, id': Utf8)
    ensures RecordAad(h, id) == RecordAad(h', id') <==> h.vaultId == h'.vaultId && h.userId == h'.userId && id == id'
  {
    hide IsUtf8, Parse, RecordAad, Ascii;
    RecordAadLayout(h, id);
    RecordAadLayout(h', id');
    if RecordAad(h, id) == RecordAad(h', id') {
      var e, e' := [At(0, Text(RECORD_TAG)), At(1, Text(h.vaultId)), At(2, Text(h.userId)), At(3, Text(AEAD_1)),
                    At(4, Text(id))],
                   [At(0, Text(RECORD_TAG)), At(1, Text(h'.vaultId)), At(2, Text(h'.userId)), At(3, Text(AEAD_1)),
                    At(4, Text(id'))];
      assert e[1] == e'[1] && e[2] == e'[2] && e[4] == e'[4];
    } else if h.vaultId == h'.vaultId && h.userId == h'.userId && id == id' {
      SameAad(h, h', id);
    }
  }

  lemma SameAad(h: Header, h': Header, id: Utf8)
    requires h.vaultId == h'.vaultId && h.userId == h'.userId
    ensures RecordAad(h, id) == RecordAad(h', id)
  {
    hide IsUtf8, Ascii, EncodeCanonical;
  }
}
