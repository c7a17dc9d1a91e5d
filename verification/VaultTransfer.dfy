/** Moving a vault: export, import into another vault, lock, and unlock with the exporting vault's passphrase. */
module VaultTransfer {
  import opened Wrappers
  import opened Bytes
  import opened Cbor
  import opened CanonicalCbor
  import opened CborDecoding
  import opened CborFields
  import opened Formats
  import opened KeyVault
  import opened KeyVaultReplay
  import opened VaultStorage
  import opened VaultService
  import opened VaultRuns

  lemma AcceptedIsEncodable(b: ByteString, v: Value)
    requires Fits(v) && b == Encode(v) && DecodeCanonical(b, DEFAULT_LIMITS).Ok?
    ensures IsCanonical(v) && Encodable(v)
  {
    hide Encode, DecodeCanonical, InLimits, Canon, IsCanonical, Fits;
    var w := DecodeCanonical(b, DEFAULT_LIMITS).value;
    AcceptedIff(b, DEFAULT_LIMITS, w);
    EncodeIsInjective(v, w, [], []);
    CanonicalFixed(v);
  }

  /** A blob that was exported and can be imported decodes to what was exported. */
  lemma ExportedDecodes(h: Header, records: seq<RecordContainer>, blob: ByteString)
    requires WellFormedSnapshot(VaultSnapshot(h, records)) && EncodeSnapshot(VaultSnapshot(h, records)) == Ok(blob)
    requires DecodeSnapshot(blob).Ok?
    ensures DecodeSnapshot(blob) == Ok(VaultSnapshot(h, records)) && Encodable(HeaderValue(h))
  {
    hide IsUtf8, Encode, DecodeCanonical, InLimits, Canon, IsCanonical, Fits, HeaderValue, MapOf, SnapshotFields,
         DecodeSnapshotValue, Encodable, WellFormedHeader, Rising;
    HeaderRises(h);
    CanonicalFixed(HeaderValue(h));
    AcceptedIsEncodable(EncodeHeader(h), HeaderValue(h));
    SnapshotRises(HeaderValue(h), records);
    var s := VaultSnapshot(h, records);
    DecodedHeader(h);
    CanonicalFixed(SnapshotValue(s));
    AcceptedIsEncodable(blob, SnapshotValue(s));
    SnapshotRoundTrip(s);
  }

  lemma DecodedHeader(h: Header)
    requires WellFormedHeader(h) && Encodable(HeaderValue(h))
    ensures DecodeCanonical(EncodeHeader(h), DEFAULT_LIMITS) == Ok(HeaderValue(h))
  {
    hide IsUtf8, Encode, DecodeCanonical, InLimits, Canon, IsCanonical, Fits, HeaderValue, EncodeCanonical, WellFormedHeader;
    HeaderRises(h);
    CanonicalFixed(HeaderValue(h));
    DecodeOfEncode(HeaderValue(h), DEFAULT_LIMITS);
  }

  // The imported storage

  ghost predicate IdsDiffer(records: seq<RecordContainer>) {
    forall i, j :: 0 <= i < j < |records| ==> records[i].recordId != records[j].recordId
  }

  lemma {:induction false} FileAllFiles(storage: Storage, records: seq<RecordContainer>)
    requires IdsDiffer(records)
    ensures var after := FileAll(storage, records);
            && (forall i :: 0 <= i < |records| ==>
                  RecordKey(records[i].recordId) in after
                  && after[RecordKey(records[i].recordId)] == EncodeContainer(records[i]))
            && (HeaderKey in after <==> HeaderKey in storage)
            && (HeaderKey in storage ==> after[HeaderKey] == storage[HeaderKey])
  {
    hide EncodeContainer;
    if records != [] {
      FileAllFiles(storage, records[..|records| - 1]);
    }
  }

  /** Each record is readable where it came from. */
  lemma ReadableWhereFiled(storage: Storage, ids: seq<Utf8>, containers: seq<RecordContainer>, c: RecordContainer)
    requires Tidy(storage, ids, containers) && AllUuids(ids) && c in containers
    ensures WellFormedContainer(c) && DecodeContainer(EncodeContainer(c)) == Ok(c) && |c.recordId| == ID_LENGTH
  {
    hide EncodeContainer, DecodeContainer, LoadIndex, IndexItems;
    var i :| 0 <= i < |containers| && containers[i] == c;
    assert Filed(storage, ids[i], containers[i]);
  }

  lemma ImportedIsTidy(storage: Storage, h: Header, records: seq<RecordContainer>)
    requires WellFormedSnapshot(VaultSnapshot(h, records)) && Encodable(HeaderValue(h)) && IdsDiffer(records)
    requires |records| <= 4096
    requires forall c :: c in records ==> DecodeContainer(EncodeContainer(c)) == Ok(c) && |c.recordId| == ID_LENGTH
    ensures var after := Imported(storage, VaultSnapshot(h, records));
            LoadHeader(after) == Ok(h) && Tidy(after, RecordIds(records), records)
  {
    hide IsUtf8, EncodeContainer, DecodeContainer, EncodeHeader, DecodeHeader, FileAll, IndexBytes, IndexFits, HeaderValue,
         Encodable, IdsDiffer, LoadIndex, IndexItems, WellFormedHeader;
    var filed := FileAll(storage[HeaderKey := EncodeHeader(h)], records);
    var ids, after := RecordIds(records), Imported(storage, VaultSnapshot(h, records));
    FileAllFiles(storage[HeaderKey := EncodeHeader(h)], records);
    HeaderRoundTrip(h);
    UuidIndexFitsIff(ids);
    LoadIndexIff(after, ids);
    forall i | 0 <= i < |ids| ensures Filed(after, ids[i], records[i]) {
      assert RecordKey(records[i].recordId) in filed && records[i] in records;
      NowFiled(after, records[i]);
    }
  }

  /** What loading the imported storage gives. */
  lemma ImportedLoads(suite: Suite, a: Storage, b: Storage, h: Header, key: ByteString, ids: seq<Utf8>,
                      containers: seq<RecordContainer>, vault: Vault, keys: KeyMaps, blob: ByteString)
    requires Tidy(a, ids, containers) && AllUuids(ids) && LoadHeader(a) == Ok(h)
    requires Apply(suite, h, key, containers) == Ok((vault, keys))
    requires Exported(a) == Ok(blob) && DecodeSnapshot(blob).Ok?
    ensures var after := Imported(b, DecodeSnapshot(blob).value);
            LoadHeader(after) == Ok(h) && LoadState(suite, after, h, key) == Ok((vault, keys))
  {
    hide IsUtf8, EncodeContainer, DecodeContainer, EncodeHeader, HeaderValue, Encodable, Apply, SortBySequence, HashOf,
         LoadHeader, Imported, EncodeSnapshot, DecodeSnapshot, LoadContainers, ReplayAll, WellFormedHeader, Tidy, Linked;
    TidyLoads(a, ids, containers);
    TidyIsSmall(a, ids, containers);
    var records := SortBySequence(containers);
    SnapshotWellFormed(a, h, records);
    ExportedDecodes(h, records, blob);
    AppliedVault(suite, h, key, containers);
    assert IdsDiffer(records);
    forall c | c in records ensures DecodeContainer(EncodeContainer(c)) == Ok(c) && |c.recordId| == ID_LENGTH {
      ReadableWhereFiled(a, ids, containers, c);
    }
    ImportedIsTidy(b, h, records);
    var after := Imported(b, VaultSnapshot(h, records));
    TidyLoads(after, RecordIds(records), records);
    SortSorts(containers);
    SortSorts(records);
    AnyOrder(suite, h, key, containers, SortBySequence(records));
  }

  lemma SnapshotWellFormed(a: Storage, h: Header, records: seq<RecordContainer>)
    requires LoadHeader(a) == Ok(h) && LoadContainers(a) == Ok(records)
    ensures WellFormedSnapshot(VaultSnapshot(h, records))
  {
    hide DecodeHeader, RecordsIn, SortBySequence, IndexItems;
  }

  /** Export from one service, import into another, lock it, and unlock it with the passphrase of the first: the second
      now has exactly the vault and the keys of the first, whatever was stored there before. */
  lemma TransferKeepsVault(suite: Suite, a: Service, sidA: SessionId, nowA: nat, blob: ByteString, b: Service,
                           sidB: SessionId, nowB: nat, passphrase: ByteString, now: nat, ttl: nat, newId: SessionId)
    requires ServiceOk(suite, a) && a.state.Some? && LoadHeader(a.storage).Ok? && sidA in a.sessions
    requires UnwrapKey(suite, LoadHeader(a.storage).value, passphrase) == Some(a.sessions[sidA].vaultKey)
    requires Export(a, sidA, nowA) == (a, Ok(blob)) && Import(b, sidB, nowB, blob).1.Ok?
    ensures var locked := Lock(Import(b, sidB, nowB, blob).0, sidB);
            && locked.1.Ok?
            && Unlock(suite, locked.0, passphrase, now, ttl, newId).1 == Ok(newId)
            && Unlock(suite, locked.0, passphrase, now, ttl, newId).0.state
               == Some(Memory(LoadHeader(a.storage).value, a.state.value.vault, a.state.value.keys))
  {
    hide Tidy, Apply, LoadHeader, UnwrapKey, Exported, Imported, DecodeSnapshot, LoadState, AllUuids;
    var ids, containers :| OkWith(suite, a, ids, containers);
    var h := LoadHeader(a.storage).value;
    var sid :| sid in a.sessions && InStepWith(suite, a, containers, a.sessions[sid].vaultKey);
    ImportedLoads(suite, a.storage, b.storage, h, a.sessions[sidA].vaultKey, ids, containers, a.state.value.vault,
                  a.state.value.keys, blob);
  }
}
