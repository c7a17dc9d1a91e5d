/** Exactly which logs a replay accepts, and which fault of which record ends it. */
module KeyVaultFaults {
  import opened Wrappers
  import opened Bytes
  import opened Cbor
  import opened CanonicalCbor
  import opened CborDecoding
  import opened CborFields
  import opened Formats
  import opened WireDecoding
  import opened KeyVault
  import opened KeyVaultReplay

  // One record

  /** What a record of each kind must carry for its effect. */
  ghost predicate Means(suite: Suite, r: RecordPlain, e: Effect) {
    var v := r.payload;
    if r.kind == 1 then
      e.SetUserKey? && Under(v, 0, Bin(e.user.priv)) && Under(v, 1, Bin(e.user.pub)) && suite.userKeyOk(e.user.priv, e.user.pub)
    else if r.kind == 2 then
      && e.SetDevice? && Under(v, 0, Text(e.device)) && Under(v, 1, Bin(e.keys.edPriv)) && Under(v, 2, Bin(e.keys.edPub))
      && Under(v, 3, Text(HYBRID_SIG_1)) && Under(v, 4, Bin(e.keys.mlPriv)) && Under(v, 5, Bin(e.keys.mlPub))
    else if r.kind == 3 then
      e.SetScope? && Under(v, 0, Text(e.scope.0)) && Under(v, 1, Int(e.scope.1)) && Under(v, 2, Bin(e.key))
    else if r.kind == 4 then
      e.SetResource? && Under(v, 0, Text(e.resource.0)) && Under(v, 1, Text(e.resource.1)) && Under(v, 2, Bin(e.key))
    else e == NoEffect
  }

  lemma EffectIff(suite: Suite, r: RecordPlain, e: Effect)
    requires Canonical(r.payload)
    ensures EffectOf(suite, r) == Ok(e) <==> Means(suite, r, e)
  {
    hide MapGetOpt, Canonical, IsUtf8, Ascii, Under;
    var v := r.payload;
    if v.Map? {
      Finds(v, 0); Finds(v, 1); Finds(v, 2); Finds(v, 3); Finds(v, 4); Finds(v, 5);
    } else {
      NotUnder(v);
    }
  }

  /** The container opens under the key and its own associated data to a record of the same id. */
  ghost predicate OpensTo(suite: Suite, h: Header, key: ByteString, c: RecordContainer, r: RecordPlain) {
    && |key| == 32 && |c.nonce| == 12 && r.recordId == c.recordId
    && exists m: Message, v ::
         suite.open(key, RecordAad(h, c.recordId), c.nonce, c.ct) == Some(m)
         && DecodeCanonical(m, DEFAULT_LIMITS) == Ok(v) && HoldsPlain(v, r)
  }

  lemma OpenIff(suite: Suite, h: Header, key: ByteString, c: RecordContainer, r: RecordPlain)
    ensures OpenRecord(suite, h, key, c) == Ok(r) <==> OpensTo(suite, h, key, c, r)
    ensures OpensTo(suite, h, key, c, r) ==> Canonical(r.payload)
  {
    hide RecordAad, DecodePlain, HoldsPlain, DecodeCanonical, Canonical, IsUtf8;
    if |key| == KEY_LENGTH && |c.nonce| == NONCE_LENGTH {
      var m := suite.open(key, RecordAad(h, c.recordId), c.nonce, c.ct);
      if m.Some? {
        PlainIff(m.value, r);
        if v :| DecodeCanonical(m.value, DEFAULT_LIMITS) == Ok(v) && HoldsPlain(v, r) {
          DecodedIsCanonical(m.value, v);
          PlainPayload(v, r);
        }
      }
    }
  }

  lemma PlainPayload(v: Value, r: RecordPlain)
    requires Canonical(v) && HoldsPlain(v, r)
    ensures Canonical(r.payload)
  {
    hide Canonical, Under;
    PartCanonical(v, 2, r.payload);
  }

  /** Readable, and of a kind that means something or one to be passed over. */
  ghost predicate Sensible(suite: Suite, h: Header, key: ByteString, c: RecordContainer) {
    exists r, e :: OpensTo(suite, h, key, c, r) && Means(suite, r, e)
  }

  lemma SensibleIff(suite: Suite, h: Header, key: ByteString, c: RecordContainer)
    ensures Sensible(suite, h, key, c) <==>
              var r := OpenRecord(suite, h, key, c); r.Ok? && EffectOf(suite, r.value).Ok?
  {
    hide OpenRecord, EffectOf, OpensTo, Means, IsUtf8, Canonical;
    var r := OpenRecord(suite, h, key, c);
    if r.Ok? {
      OpenIff(suite, h, key, c, r.value);
      if EffectOf(suite, r.value).Ok? {
        EffectIff(suite, r.value, EffectOf(suite, r.value).value);
      }
    }
    if r', e :| OpensTo(suite, h, key, c, r') && Means(suite, r', e) {
      OpenIff(suite, h, key, c, r');
      EffectIff(suite, r', e);
    }
  }

  // The log

  lemma ChainedIff(suite: Suite, init: seq<RecordContainer>, c: RecordContainer)
    ensures Chained(suite, init + [c]) <==>
              Chained(suite, init) && c.sequence == |init| + 1 && c.recordId !in IdsOf(init)
              && c.prevHash == VaultOf(suite, init).headHash
  {
    hide HashOf, IsUtf8;
    var r := init + [c];
    if Chained(suite, init) && c.sequence == |init| + 1 && c.recordId !in IdsOf(init)
       && c.prevHash == VaultOf(suite, init).headHash {
      ChainedSnoc(suite, init, c);
    }
    if Chained(suite, r) {
      ChainedLast(suite, r);
      assert r[..|init|] == init && r[|init|] == c;
      assert Linked(suite, r, |init|);
      forall i | 0 <= i < |init| ensures init[i].recordId != c.recordId {
        assert r[i].recordId != r[|init|].recordId;
      }
    }
  }

  ghost predicate AllSensible(suite: Suite, h: Header, key: ByteString, records: seq<RecordContainer>) {
    forall i :: 0 <= i < |records| ==> Sensible(suite, h, key, records[i])
  }

  lemma SensibleSnoc(suite: Suite, h: Header, key: ByteString, init: seq<RecordContainer>, c: RecordContainer)
    ensures AllSensible(suite, h, key, init + [c]) <==> AllSensible(suite, h, key, init) && Sensible(suite, h, key, c)
  {
    hide Sensible;
    var r := init + [c];
    if AllSensible(suite, h, key, r) {
      assert r[|init|] == c && forall i :: 0 <= i < |init| ==> r[i] == init[i];
    }
  }

  /** A log replays if and only if it is numbered, linked and free of repeated ids, and every record opens and is
      sensible. */
  lemma {:induction false} ReplaysIff(suite: Suite, h: Header, key: ByteString, records: seq<RecordContainer>)
    requires |records| < U64_LIMIT
    ensures ReplayAll(suite, h, key, records).Ok? <==> Chained(suite, records) && AllSensible(suite, h, key, records)
  {
    hide OpenRecord, EffectOf, HashOf, Chained, IdsOf, ApplyEffect, Sensible, AllSensible, VaultOf, IsUtf8;
    if records == [] {
      NoneChained(suite);
      assert AllSensible(suite, h, key, records) by { NoneSensible(suite, h, key); }
    } else {
      var init, c := records[..|records| - 1], records[|records| - 1];
      assert records == init + [c];
      ReplaysIff(suite, h, key, init);
      ChainedIff(suite, init, c);
      SensibleSnoc(suite, h, key, init, c);
      SensibleIff(suite, h, key, c);
      if ReplayAll(suite, h, key, init).Ok? {
        ReplayedIsChained(suite, h, key, init);
      }
    }
  }

  lemma NoneSensible(suite: Suite, h: Header, key: ByteString)
    ensures AllSensible(suite, h, key, [])
  {
  }

  /** The fault of record k after k good ones, in the order the checks are made. */
  ghost predicate FaultOf(suite: Suite, h: Header, key: ByteString, records: seq<RecordContainer>, k: nat, e: VaultError)
    requires k < |records|
  {
    var c := records[k];
    if c.sequence != k + 1 then e == SequenceMismatch
    else if exists i :: 0 <= i < k && records[i].recordId == c.recordId then e == DuplicateId
    else if !Linked(suite, records, k) then e == ChainMismatch
    else if |key| != 32 || |c.nonce| != 12 || suite.open(key, RecordAad(h, c.recordId), c.nonce, c.ct) == None then
      e == DecryptFailed
    else e.BadRecord? || e == IdMismatch
  }

  /** A rejected log is rejected for its first record that is not good, and for that record's first fault. */
  lemma {:induction false} RejectedFor(suite: Suite, h: Header, key: ByteString, records: seq<RecordContainer>)
    returns (k: nat)
    requires |records| < U64_LIMIT && ReplayAll(suite, h, key, records).Err?
    ensures k < |records| && ReplayAll(suite, h, key, records[..k]).Ok?
    ensures FaultOf(suite, h, key, records, k, ReplayAll(suite, h, key, records).error)
    ensures !(Chained(suite, records[..k + 1]) && AllSensible(suite, h, key, records[..k + 1]))
  {
    hide EffectOf, HashOf, Chained, ApplyEffect, AllSensible, IsUtf8, RecordAad, DecodePlain, OpenRecord, FaultOf,
         ReplayOne;
    var n := |records| - 1;
    var init := records[..n];
    if ReplayAll(suite, h, key, init).Err? {
      k := RejectedFor(suite, h, key, init);
      assert init[..k] == records[..k] && init[..k + 1] == records[..k + 1];
      SameFault(suite, h, key, records, n, k, ReplayAll(suite, h, key, init).error);
    } else {
      k := n;
      assert records[..k + 1] == records;
      ReplaysIff(suite, h, key, records);
      FaultHere(suite, h, key, records);
    }
  }

  lemma SameFault(suite: Suite, h: Header, key: ByteString, records: seq<RecordContainer>, n: nat, k: nat, e: VaultError)
    requires k < n <= |records| && FaultOf(suite, h, key, records[..n], k, e)
    ensures FaultOf(suite, h, key, records, k, e)
  {
    hide HashOf, RecordAad, IsUtf8;
    assert forall i :: 0 <= i < n ==> records[..n][i] == records[i];
  }

  lemma FaultHere(suite: Suite, h: Header, key: ByteString, records: seq<RecordContainer>)
    requires 0 < |records| < U64_LIMIT
    requires ReplayAll(suite, h, key, records[..|records| - 1]).Ok? && ReplayAll(suite, h, key, records).Err?
    ensures FaultOf(suite, h, key, records, |records| - 1, ReplayAll(suite, h, key, records).error)
  {
    hide EffectOf, HashOf, Chained, ApplyEffect, IsUtf8, RecordAad, DecodePlain;
    var n := |records| - 1;
    var init, c := records[..n], records[n];
    ReplayedIsChained(suite, h, key, init);
    assert c.recordId in IdsOf(init) <==> exists i :: 0 <= i < n && records[i].recordId == c.recordId by {
      if i :| 0 <= i < n && records[i].recordId == c.recordId { assert init[i] == records[i]; }
    }
    assert n > 0 ==> init[|init| - 1] == records[n - 1];
  }
}
