/** Exactly which bytes each decoder takes, and as what: the field under every key, what may be missing, and what is
    cut. */
module WireDecoding {
  import opened Wrappers
  import opened Bytes
  import opened Cbor
  import opened CanonicalCbor
  import opened CborDecoding
  import opened CborFields
  import opened Formats
  import opened SharingFormats

  /** The map has this value under this key. */
  predicate Under(v: Value, key: nat, x: Value) {
    v.Map? && key < U64_LIMIT && Entry(Int(key), x) in v.entries
  }

  predicate DistinctKeys(entries: seq<Entry>) {
    forall i, j :: 0 <= i < j < |entries| ==> entries[i].key != entries[j].key
  }

  lemma {:induction false} FoundIn(entries: seq<Entry>, key: nat, x: Value)
    requires DistinctKeys(entries) && key < U64_LIMIT
    ensures MapGetOpt(entries, key) == Some(x) <==> Entry(Int(key), x) in entries
  {
    if entries != [] {
      FoundIn(entries[1..], key, x);
      assert entries == [entries[0]] + entries[1..];
      if Entry(Int(key), x) in entries[1..] {
        var i :| 0 <= i < |entries[1..]| && entries[1..][i] == Entry(Int(key), x);
        assert entries[i + 1].key == Int(key) && entries[0].key != entries[i + 1].key;
      }
    }
  }

  lemma CanonicalKeys(v: Value)
    requires Fits(v) && IsCanonical(v) && v.Map?
    ensures DistinctKeys(v.entries)
  {
    hide Encode, IsUtf8;
    var entries := v.entries;
    forall i, j | 0 <= i < j < |entries| ensures entries[i].key != entries[j].key {
      LessIsIrreflexive(Encode(entries[i].key));
    }
  }

  ghost predicate Canonical(v: Value) {
    Fits(v) && IsCanonical(v)
  }

  /** A lookup in a canonical map finds exactly what is under the key. */
  lemma Finds(v: Value, key: nat)
    requires Canonical(v) && v.Map? && key < U64_LIMIT
    ensures forall x :: MapGetOpt(v.entries, key) == Some(x) <==> Under(v, key, x)
  {
    hide IsCanonical, Fits;
    CanonicalKeys(v);
    forall x ensures MapGetOpt(v.entries, key) == Some(x) <==> Under(v, key, x) {
      FoundIn(v.entries, key, x);
    }
  }

  lemma PartCanonical(v: Value, key: nat, x: Value)
    requires Canonical(v) && Under(v, key, x)
    ensures Canonical(x)
  {
    hide IsUtf8, Encode, Less;
    var i :| 0 <= i < |v.entries| && v.entries[i] == Entry(Int(key), x);
  }

  /** What the canonical decoder takes is canonical. */
  lemma DecodedIsCanonical(b: ByteString, v: Value)
    requires DecodeCanonical(b, DEFAULT_LIMITS) == Ok(v)
    ensures Canonical(v)
  {
    hide DecodeCanonical, IsCanonical, Fits, InLimits;
    AcceptedIff(b, DEFAULT_LIMITS, v);
  }

  // Containers and plain records

  predicate HoldsContainer(v: Value, r: RecordContainer) {
    && Under(v, 0, Int(r.v)) && Under(v, 1, Int(r.sequence)) && Under(v, 2, Bin(r.prevHash)) && |r.prevHash| == 32
    && Under(v, 3, Text(r.recordId)) && Under(v, 4, Bin(r.nonce)) && |r.nonce| == 12 && Under(v, 5, Bin(r.ct))
  }

  lemma ContainerValueIff(v: Value, r: RecordContainer)
    requires Canonical(v)
    ensures DecodeContainerValue(v) == Ok(r) <==> HoldsContainer(v, r)
  {
    hide MapGetOpt, Canonical, IsUtf8;
    if v.Map? {
      Finds(v, 0); Finds(v, 1); Finds(v, 2); Finds(v, 3); Finds(v, 4); Finds(v, 5);
      hide Under;
    }
  }

  lemma ContainerIff(b: ByteString, r: RecordContainer)
    ensures DecodeContainer(b) == Ok(r) <==>
              exists v :: DecodeCanonical(b, DEFAULT_LIMITS) == Ok(v) && HoldsContainer(v, r)
  {
    hide DecodeCanonical, DecodeContainerValue, HoldsContainer, Canonical;
    var value := DecodeCanonical(b, DEFAULT_LIMITS);
    if value.Ok? {
      DecodedIsCanonical(b, value.value);
      ContainerValueIff(value.value, r);
    }
  }

  predicate HoldsPlain(v: Value, r: RecordPlain) {
    Under(v, 0, Text(r.recordId)) && Under(v, 1, Int(r.kind)) && Under(v, 2, r.payload)
  }

  lemma PlainIff(b: ByteString, r: RecordPlain)
    ensures DecodePlain(b) == Ok(r) <==>
              exists v :: DecodeCanonical(b, DEFAULT_LIMITS) == Ok(v) && HoldsPlain(v, r)
  {
    hide DecodeCanonical, MapGetOpt, IsUtf8, IsCanonical, Fits, Under;
    var value := DecodeCanonical(b, DEFAULT_LIMITS);
    if value.Ok? {
      DecodedIsCanonical(b, value.value);
      var v := value.value;
      if v.Map? {
        Finds(v, 0); Finds(v, 1); Finds(v, 2);
      } else {
        NotUnder(v);
      }
    }
  }

  lemma NotUnder(v: Value)
    requires !v.Map?
    ensures forall key, x :: !Under(v, key, x)
  {
  }

  lemma {:induction false} ContainersIff(items: seq<Value>, records: seq<RecordContainer>)
    requires forall i :: 0 <= i < |items| ==> Canonical(items[i])
    ensures DecodeContainers(items) == Ok(records) <==>
              |items| == |records| && forall i :: 0 <= i < |items| ==> HoldsContainer(items[i], records[i])
  {
    hide DecodeContainerValue, HoldsContainer, Canonical, IsUtf8;
    if items != [] && |records| > 0 {
      var last, n := |items| - 1, |records| - 1;
      ContainersIff(items[..last], records[..n]);
      ContainerValueIff(items[last], records[n]);
      assert records == records[..n] + [records[n]];
    } else if items != [] {
      assert records == [];
    }
  }

  // The header

  /** The three parameters are read as 64-bit integers and cut to 32 bits. */
  ghost predicate HoldsKdf(v: Value, k: Kdf) {
    && Under(v, 0, Text(k.id)) && Under(v, 1, Bin(k.salt))
    && exists p, m: U64, i: U64, n: U64 ::
         Under(v, 2, p) && HoldsParams(p, m, i, n)
         && k.memoryKib == m % 0x1_0000_0000 && k.iterations == i % 0x1_0000_0000 && k.parallelism == n % 0x1_0000_0000
  }

  predicate HoldsParams(p: Value, m: U64, i: U64, n: U64) {
    Under(p, 0, Int(m)) && Under(p, 1, Int(i)) && Under(p, 2, Int(n))
  }

  lemma KdfIff(v: Value, k: Kdf)
    requires Canonical(v)
    ensures DecodeKdf(v) == Ok(k) <==> HoldsKdf(v, k)
  {
    hide MapGetOpt, Canonical, IsUtf8, Under;
    if v.Map? {
      Finds(v, 0); Finds(v, 1); Finds(v, 2);
      var params := MapGetOpt(v.entries, 2);
      if params.Some? {
        PartCanonical(v, 2, params.value);
        if params.value.Map? {
          Finds(params.value, 0); Finds(params.value, 1); Finds(params.value, 2);
        } else {
          NotUnder(params.value);
        }
      }
      if DecodeKdf(v) == Ok(k) {
        var p := params.value;
        var m, i, n := MapGetOpt(p.entries, 0).value.n, MapGetOpt(p.entries, 1).value.n, MapGetOpt(p.entries, 2).value.n;
        assert HoldsParams(p, m, i, n);
      }
    } else {
      NotUnder(v);
    }
  }

  predicate HoldsWrap(v: Value, w: VaultKeyWrap) {
    Under(v, 0, Text(AEAD_1)) && Under(v, 1, Bin(w.nonce)) && |w.nonce| == 12 && Under(v, 2, Bin(w.ct))
  }

  lemma WrapIff(v: Value, w: VaultKeyWrap)
    requires Canonical(v)
    ensures DecodeWrap(v) == Ok(w) <==> HoldsWrap(v, w)
  {
    hide MapGetOpt, Canonical, IsUtf8, Ascii, Under;
    assert w.aead == Aead1;
    if v.Map? {
      Finds(v, 0); Finds(v, 1); Finds(v, 2);
    } else {
      NotUnder(v);
    }
  }

  ghost predicate HoldsRecords(v: Value, key: nat, records: seq<RecordContainer>) {
    exists items :: Under(v, key, Array(items)) && |items| == |records|
                    && forall i :: 0 <= i < |items| ==> HoldsContainer(items[i], records[i])
  }

  ghost predicate HoldsHeader(v: Value, h: Header) {
    && Under(v, 0, Int(h.v)) && Under(v, 1, Text(h.vaultId)) && Under(v, 2, Text(h.userId))
    && (exists k :: Under(v, 3, k) && HoldsKdf(k, h.kdf)) && Under(v, 4, Text(AEAD_1))
    && HoldsRecords(v, 5, h.records) && exists w :: Under(v, 6, w) && HoldsWrap(w, h.wrap)
  }

  lemma RecordsIff(v: Value, key: nat, records: seq<RecordContainer>)
    requires Canonical(v) && v.Map? && key < U64_LIMIT
    ensures HoldsRecords(v, key, records) <==>
              var x := MapGetOpt(v.entries, key);
              x.Some? && x.value.Array? && DecodeContainers(x.value.items) == Ok(records)
  {
    hide MapGetOpt, Canonical, IsUtf8, Under, HoldsContainer, DecodeContainers;
    Finds(v, key);
    var x := MapGetOpt(v.entries, key);
    if x.Some? && x.value.Array? {
      PartCanonical(v, key, x.value);
      ItemsCanonical(x.value);
      ContainersIff(x.value.items, records);
    }
  }

  lemma ItemsCanonical(v: Value)
    requires Canonical(v) && v.Array?
    ensures forall i :: 0 <= i < |v.items| ==> Canonical(v.items[i])
  {
    hide IsUtf8, Encode, Less;
  }

  lemma HeaderValueIff(v: Value, h: Header)
    requires Canonical(v) && Fits(v)
    ensures DecodeHeaderValue(v) == Ok(h) <==> HoldsHeader(v, h)
  {
    hide MapGetOpt, Canonical, Fits, IsUtf8, Ascii, Under, HoldsRecords, HoldsKdf, HoldsWrap, DecodeKdf, DecodeWrap,
         DecodeContainers;
    assert h.aead == Aead1;
    if v.Map? {
      Finds(v, 0); Finds(v, 1); Finds(v, 2); Finds(v, 3); Finds(v, 4); Finds(v, 6);
      RecordsIff(v, 5, h.records);
      var k, w := MapGetOpt(v.entries, 3), MapGetOpt(v.entries, 6);
      if k.Some? {
        PartCanonical(v, 3, k.value);
        KdfIff(k.value, h.kdf);
      }
      if w.Some? {
        PartCanonical(v, 6, w.value);
        WrapIff(w.value, h.wrap);
      }
    } else {
      NotUnder(v);
    }
  }

  lemma HeaderIff(b: ByteString, h: Header)
    ensures DecodeHeader(b) == Ok(h) <==>
              exists v :: DecodeCanonical(b, DEFAULT_LIMITS) == Ok(v) && HoldsHeader(v, h)
  {
    hide DecodeCanonical, DecodeHeaderValue, HoldsHeader, IsCanonical, Fits;
    var value := DecodeCanonical(b, DEFAULT_LIMITS);
    if value.Ok? {
      DecodedIsCanonical(b, value.value);
      HeaderValueIff(value.value, h);
    }
  }

  // The snapshot

  /** The embedded header must be one that could be read on its own. */
  ghost predicate HoldsSnapshot(v: Value, s: VaultSnapshot) {
    && HoldsRecords(v, 1, s.records)
    && exists h :: Under(v, 0, h) && HoldsHeader(h, s.header) && ReadAlone(h)
  }

  ghost predicate ReadAlone(v: Value) {
    Fits(v) && InLimits(v, DEFAULT_LIMITS, 0) && |Encode(v)| <= DEFAULT_LIMITS.maxBytes
  }

  lemma AloneIff(v: Value, h: Header)
    requires Fits(v) && IsCanonical(v)
    ensures DecodeHeader(EncodeCanonical(v)) == Ok(h) <==> ReadAlone(v) && HoldsHeader(v, h)
  {
    hide DecodeCanonical, HoldsHeader, IsCanonical, Fits, Encode, Canon, InLimits, DecodeHeader;
    CanonicalFixed(v);
    HeaderIff(EncodeCanonical(v), h);
    AcceptedIff(EncodeCanonical(v), DEFAULT_LIMITS, v);
    if x :| DecodeCanonical(EncodeCanonical(v), DEFAULT_LIMITS) == Ok(x) && HoldsHeader(x, h) {
      AcceptedIff(EncodeCanonical(v), DEFAULT_LIMITS, x);
      EncodeIsInjective(v, x, [], []);
    }
  }

  lemma SnapshotIff(b: ByteString, s: VaultSnapshot)
    ensures DecodeSnapshot(b) == Ok(s) <==>
              exists v :: DecodeCanonical(b, DEFAULT_LIMITS) == Ok(v) && HoldsSnapshot(v, s)
  {
    hide DecodeCanonical, HoldsRecords, HoldsHeader, IsCanonical, Fits, MapGetOpt, Under, DecodeContainers, DecodeHeader,
         ReadAlone, EncodeCanonical, IsUtf8;
    var value := DecodeCanonical(b, DEFAULT_LIMITS);
    if value.Ok? {
      DecodedIsCanonical(b, value.value);
      var v := value.value;
      if v.Map? {
        Finds(v, 0); Finds(v, 1);
        RecordsIff(v, 1, s.records);
        var h := MapGetOpt(v.entries, 0);
        if h.Some? {
          PartCanonical(v, 0, h.value);
          AloneIff(h.value, s.header);
        }
      } else {
        NotUnder(v);
        NoRecords(v, 1, s.records);
      }
    }
  }

  lemma NoRecords(v: Value, key: nat, records: seq<RecordContainer>)
    requires !v.Map?
    ensures !HoldsRecords(v, key, records)
  {
  }

  // Sharing

  predicate HoldsScope(v: Value, s: ScopeState) {
    && Under(v, 0, Int(s.v)) && Under(v, 1, Text(s.scopeId)) && Under(v, 2, Int(s.sequence))
    && Under(v, 3, Bin(s.prevHash)) && |s.prevHash| == 32 && Under(v, 4, Int(s.scopeEpoch)) && Under(v, 5, Int(s.kind))
    && Under(v, 6, s.payload) && Under(v, 7, Text(s.signerDeviceId)) && Under(v, 8, Text(HYBRID_SIG_1))
    && Under(v, 9, Bin(s.signature))
  }

  lemma ScopeIff(b: ByteString, s: ScopeState)
    ensures DecodeScope(b) == Ok(s) <==>
              exists v :: DecodeCanonical(b, DEFAULT_LIMITS) == Ok(v) && HoldsScope(v, s)
  {
    hide DecodeCanonical, DecodeScopeValue, HoldsScope, IsCanonical, Fits;
    var value := DecodeCanonical(b, DEFAULT_LIMITS);
    if value.Ok? {
      DecodedIsCanonical(b, value.value);
      ScopeValueIff(value.value, s);
    }
  }

  lemma ScopeValueIff(v: Value, s: ScopeState)
    requires Canonical(v)
    ensures DecodeScopeValue(v) == Ok(s) <==> HoldsScope(v, s)
  {
    hide MapGetOpt, Canonical, IsUtf8, Ascii, Under;
    assert s.sigSuite == HybridSig1;
    if v.Map? {
      Finds(v, 0); Finds(v, 1); Finds(v, 2); Finds(v, 3); Finds(v, 4);
      Finds(v, 5); Finds(v, 6); Finds(v, 7); Finds(v, 8); Finds(v, 9);
    } else {
      NotUnder(v);
    }
  }

  predicate HoldsGrant(v: Value, g: Grant) {
    && HoldsGrantFront(v, g)
    && Under(v, 10, Text(AEAD_1)) && Under(v, 11, Bin(g.nonce)) && |g.nonce| == 12 && Under(v, 12, Bin(g.wrappedKey))
    && Under(v, 13, Text(g.signerDeviceId)) && Under(v, 14, Text(HYBRID_SIG_1)) && Under(v, 15, Bin(g.signature))
  }

  predicate HoldsGrantFront(v: Value, g: Grant) {
    && Under(v, 0, Int(g.v)) && Under(v, 1, Text(g.grantId)) && Under(v, 2, Text(g.scopeId)) && Under(v, 3, Int(g.sequence))
    && Under(v, 4, Bin(g.prevHash)) && |g.prevHash| == 32 && Under(v, 5, Bin(g.scopeStateRef)) && |g.scopeStateRef| == 32
    && Under(v, 6, Int(g.scopeEpoch)) && Under(v, 7, Text(g.resourceId)) && Under(v, 8, Text(g.resourceKeyId))
    && UnderOpt(v, 9, g.policy)
  }

  /** The map has this value under this key, or nothing. */
  predicate UnderOpt(v: Value, key: nat, x: Option<Value>) {
    v.Map? && key < U64_LIMIT
    && if x.Some? then Under(v, key, x.value) else forall e :: e in v.entries ==> e.key != Int(key)
  }

  lemma FindsOpt(v: Value, key: nat)
    requires Canonical(v) && v.Map? && key < U64_LIMIT
    ensures forall x :: MapGetOpt(v.entries, key) == x <==> UnderOpt(v, key, x)
  {
    hide Canonical, MapGetOpt;
    Finds(v, key);
    var found := MapGetOpt(v.entries, key);
    forall e | e in v.entries && e.key == Int(key) ensures found == Some(e.value) {
      assert Under(v, key, e.value);
    }
    if found.Some? { assert Under(v, key, found.value); }
  }

  predicate GrantGets(m: seq<Entry>, g: Grant) {
    && MapGetOpt(m, 0) == Some(Int(g.v)) && MapGetOpt(m, 1) == Some(Text(g.grantId))
    && MapGetOpt(m, 2) == Some(Text(g.scopeId)) && MapGetOpt(m, 3) == Some(Int(g.sequence))
    && MapGetOpt(m, 4) == Some(Bin(g.prevHash)) && |g.prevHash| == 32
    && MapGetOpt(m, 5) == Some(Bin(g.scopeStateRef)) && |g.scopeStateRef| == 32
    && MapGetOpt(m, 6) == Some(Int(g.scopeEpoch)) && MapGetOpt(m, 7) == Some(Text(g.resourceId))
    && MapGetOpt(m, 8) == Some(Text(g.resourceKeyId)) && MapGetOpt(m, 9) == g.policy
    && MapGetOpt(m, 10) == Some(Text(AEAD_1)) && MapGetOpt(m, 11) == Some(Bin(g.nonce)) && |g.nonce| == 12
    && MapGetOpt(m, 12) == Some(Bin(g.wrappedKey)) && MapGetOpt(m, 13) == Some(Text(g.signerDeviceId))
    && MapGetOpt(m, 14) == Some(Text(HYBRID_SIG_1)) && MapGetOpt(m, 15) == Some(Bin(g.signature))
  }

  lemma GrantGetsIff(v: Value, g: Grant)
    ensures DecodeGrantValue(v) == Ok(g) <==> v.Map? && GrantGets(v.entries, g)
  {
    hide MapGetOpt, IsUtf8, Ascii;
    assert g.aead == Aead1 && g.sigSuite == HybridSig1;
  }

  lemma GrantValueIff(v: Value, g: Grant)
    requires Canonical(v)
    ensures DecodeGrantValue(v) == Ok(g) <==> HoldsGrant(v, g)
  {
    hide MapGetOpt, Canonical, IsUtf8, Ascii, Under, UnderOpt, DecodeGrantValue;
    GrantGetsIff(v, g);
    if v.Map? {
      Finds(v, 0); Finds(v, 1); Finds(v, 2); Finds(v, 3); Finds(v, 4); Finds(v, 5); Finds(v, 6); Finds(v, 7);
      Finds(v, 8); FindsOpt(v, 9); Finds(v, 10); Finds(v, 11); Finds(v, 12); Finds(v, 13); Finds(v, 14); Finds(v, 15);
    } else {
      NotUnder(v);
    }
  }

  lemma GrantIff(b: ByteString, g: Grant)
    ensures DecodeGrant(b) == Ok(g) <==>
              exists v :: DecodeCanonical(b, DEFAULT_LIMITS) == Ok(v) && HoldsGrant(v, g)
  {
    hide DecodeCanonical, DecodeGrantValue, HoldsGrant, IsCanonical, Fits;
    var value := DecodeCanonical(b, DEFAULT_LIMITS);
    if value.Ok? {
      DecodedIsCanonical(b, value.value);
      GrantValueIff(value.value, g);
    }
  }

  predicate HoldsEnvelope(v: Value, e: Envelope) {
    && Under(v, 0, Int(e.v)) && Under(v, 1, Text(e.envelopeId)) && Under(v, 2, Text(e.scopeId))
    && Under(v, 3, Int(e.scopeEpoch)) && Under(v, 4, Text(e.recipientUserId)) && Under(v, 5, Bin(e.scopeStateRef))
    && |e.scopeStateRef| == 32 && Under(v, 6, Text(HYBRID_KEM_1)) && Under(v, 7, Text(AEAD_1)) && HoldsSealed(v, e)
  }

  predicate HoldsSealed(v: Value, e: Envelope) {
    && Under(v, 8, Bin(e.enc)) && Under(v, 9, Bin(e.nonce)) && |e.nonce| == 12 && Under(v, 10, Bin(e.wrappedScopeKey))
    && Under(v, 11, Text(e.signerDeviceId)) && Under(v, 12, Text(HYBRID_SIG_1)) && Under(v, 13, Bin(e.signature))
    && UnderOpt(v, 14, if e.fingerprint.Some? then Some(Bin(e.fingerprint.value)) else None)
  }

  predicate EnvelopeGets(m: seq<Entry>, e: Envelope) {
    && MapGetOpt(m, 0) == Some(Int(e.v)) && MapGetOpt(m, 1) == Some(Text(e.envelopeId))
    && MapGetOpt(m, 2) == Some(Text(e.scopeId)) && MapGetOpt(m, 3) == Some(Int(e.scopeEpoch))
    && MapGetOpt(m, 4) == Some(Text(e.recipientUserId)) && MapGetOpt(m, 5) == Some(Bin(e.scopeStateRef))
    && |e.scopeStateRef| == 32 && MapGetOpt(m, 6) == Some(Text(HYBRID_KEM_1)) && MapGetOpt(m, 7) == Some(Text(AEAD_1))
    && MapGetOpt(m, 8) == Some(Bin(e.enc)) && MapGetOpt(m, 9) == Some(Bin(e.nonce)) && |e.nonce| == 12
    && MapGetOpt(m, 10) == Some(Bin(e.wrappedScopeKey)) && MapGetOpt(m, 11) == Some(Text(e.signerDeviceId))
    && MapGetOpt(m, 12) == Some(Text(HYBRID_SIG_1)) && MapGetOpt(m, 13) == Some(Bin(e.signature))
    && MapGetOpt(m, 14) == if e.fingerprint.Some? then Some(Bin(e.fingerprint.value)) else None
  }

  lemma EnvelopeGetsIff(v: Value, e: Envelope)
    ensures DecodeEnvelopeValue(v) == Ok(e) <==> v.Map? && EnvelopeGets(v.entries, e)
  {
    hide MapGetOpt, IsUtf8, Ascii;
    assert e.aead == Aead1 && e.sigSuite == HybridSig1 && e.kem == HybridKem1;
  }

  lemma EnvelopeValueIff(v: Value, e: Envelope)
    requires Canonical(v)
    ensures DecodeEnvelopeValue(v) == Ok(e) <==> HoldsEnvelope(v, e)
  {
    hide MapGetOpt, Canonical, IsUtf8, Ascii, Under, UnderOpt, DecodeEnvelopeValue;
    EnvelopeGetsIff(v, e);
    if v.Map? {
      Finds(v, 0); Finds(v, 1); Finds(v, 2); Finds(v, 3); Finds(v, 4); Finds(v, 5); Finds(v, 6); Finds(v, 7);
      Finds(v, 8); Finds(v, 9); Finds(v, 10); Finds(v, 11); Finds(v, 12); Finds(v, 13); FindsOpt(v, 14);
    } else {
      NotUnder(v);
    }
  }

  lemma EnvelopeIff(b: ByteString, e: Envelope)
    ensures DecodeEnvelope(b) == Ok(e) <==>
              exists v :: DecodeCanonical(b, DEFAULT_LIMITS) == Ok(v) && HoldsEnvelope(v, e)
  {
    hide DecodeCanonical, DecodeEnvelopeValue, HoldsEnvelope, IsCanonical, Fits;
    var value := DecodeCanonical(b, DEFAULT_LIMITS);
    if value.Ok? {
      DecodedIsCanonical(b, value.value);
      EnvelopeValueIff(value.value, e);
    }
  }
}
