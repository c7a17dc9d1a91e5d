/** The invariant that ties the vault in memory to storage, and what storing a record does to it. */
module VaultRuns {
  import opened Wrappers
  import opened Bytes
  import opened Cbor
  import opened CanonicalCbor
  import opened CborDecoding
  import opened CborFields
  import opened Formats
  import opened KeyVault
  import opened KeyVaultReplay
  import opened VaultStorage
  import opened VaultService

  // The header only matters through the vault's identity

  predicate SameVault(a: Header, b: Header) {
    a.vaultId == b.vaultId && a.userId == b.userId
  }

  lemma {:induction false} SameVaultReplays(suite: Suite, a: Header, b: Header, key: ByteString,
                                            containers: seq<RecordContainer>)
    requires SameVault(a, b)
    ensures ReplayAll(suite, a, key, containers) == ReplayAll(suite, b, key, containers)
  {
    hide IsUtf8, Ascii, EffectOf, HashOf, DecodePlain, MapOf, EncodeCanonical;
    if containers != [] {
      SameVaultReplays(suite, a, b, key, containers[..|containers| - 1]);
      var c := containers[|containers| - 1];
      assert RecordAad(a, c.recordId) == RecordAad(b, c.recordId);
      assert OpenRecord(suite, a, key, c) == OpenRecord(suite, b, key, c);
    }
  }

  // The invariant

  ghost predicate OneSession(s: Service) {
    forall a, b :: a in s.sessions && b in s.sessions ==> a == b
  }

  /** The vault in memory is the replay of the stored containers under the live session's key. */
  ghost predicate InStep(suite: Suite, s: Service, containers: seq<RecordContainer>) {
    s.state.Some? ==>
      exists sid :: sid in s.sessions && InStepWith(suite, s, containers, s.sessions[sid].vaultKey)
  }

  ghost predicate InStepWith(suite: Suite, s: Service, containers: seq<RecordContainer>, key: ByteString) {
    && s.state.Some? && LoadHeader(s.storage).Ok?
    && SameVault(LoadHeader(s.storage).value, s.state.value.header)
    && Apply(suite, LoadHeader(s.storage).value, key, containers) == Ok((s.state.value.vault, s.state.value.keys))
  }

  ghost predicate OkWith(suite: Suite, s: Service, ids: seq<Utf8>, containers: seq<RecordContainer>) {
    Tidy(s.storage, ids, containers) && AllUuids(ids) && OneSession(s) && InStep(suite, s, containers)
  }

  ghost predicate ServiceOk(suite: Suite, s: Service) {
    exists ids, containers :: OkWith(suite, s, ids, containers)
  }

  /** What the invariant is for: reloading the vault gives what is in memory. */
  lemma ReloadGivesMemory(suite: Suite, s: Service, sid: SessionId)
    requires ServiceOk(suite, s) && s.state.Some? && sid in s.sessions
    ensures LoadHeader(s.storage).Ok?
    ensures LoadState(suite, s.storage, LoadHeader(s.storage).value, s.sessions[sid].vaultKey)
         == Ok((s.state.value.vault, s.state.value.keys))
  {
    hide Tidy, Apply, LoadHeader, LoadContainers, SortBySequence, HashOf, ReplayAll;
    var ids, containers :| OkWith(suite, s, ids, containers);
    TidyLoads(s.storage, ids, containers);
    TidyIsSmall(s.storage, ids, containers);
    var h, key := LoadHeader(s.storage).value, s.sessions[sid].vaultKey;
    AppliedVault(suite, h, key, containers);
    SortSorts(containers);
    AnyOrder(suite, h, key, containers, SortBySequence(containers));
  }

  lemma TidyIsSmall(storage: Storage, ids: seq<Utf8>, containers: seq<RecordContainer>)
    requires Tidy(storage, ids, containers)
    ensures |ids| == |containers| <= 4096 && LoadIndex(storage) == Ok(ids)
  {
  }

  // Persisting a record

  lemma SortSnoc(containers: seq<RecordContainer>, c: RecordContainer)
    requires var sorted := SortBySequence(containers);
             sorted == [] || sorted[|sorted| - 1].sequence <= c.sequence
    ensures SortBySequence(containers + [c]) == SortBySequence(containers) + [c]
  {
    assert (containers + [c])[..|containers|] == containers;
  }

  /** Adding the new container to the stored ones replays to the vault with the record's effect. */
  lemma AppendedApplies(suite: Suite, h: Header, key: ByteString, containers: seq<RecordContainer>, vault: Vault,
                        keys: KeyMaps, plain: RecordPlain, effect: Effect, sequence: U64, nonce: Blob, next: Vault,
                        c: RecordContainer)
    requires Sound(suite) && Recordable(suite, plain) && EffectOf(suite, plain) == Ok(effect) && |containers| <= 4096
    requires Apply(suite, h, key, containers) == Ok((vault, keys))
    requires Fits(plain.payload) && Append(suite, h, key, vault, plain, sequence, nonce) == Ok((next, c))
    ensures WellFormedContainer(c) && |next.records| == |containers| + 1
    ensures Apply(suite, h, key, containers + [c]) == Ok((next, ApplyEffect(keys, effect)))
  {
    hide ReplayAll, SortBySequence, EffectOf, ApplyEffect, HashOf, Append, Recordable, Linked;
    AppliedVault(suite, h, key, containers);
    var p := ReplayAll(suite, h, key, vault.records).value;
    ReplayedIsChained(suite, h, key, vault.records);
    AppendKeepsReplay(suite, h, key, p, plain, sequence, nonce);
    AppendMovesHead(suite, h, key, vault, plain, sequence, nonce);
    SortSnoc(containers, c);
  }

  lemma AppendFacts(suite: Suite, h: Header, key: ByteString, vault: Vault, plain: RecordPlain, sequence: U64,
                    nonce: Blob, next: Vault, c: RecordContainer)
    requires Fits(plain.payload) && Append(suite, h, key, vault, plain, sequence, nonce) == Ok((next, c))
    ensures c.recordId == plain.recordId
    ensures Sound(suite) && |EncodePlain(plain)| <= MAX_PLAIN ==> |c.ct| <= MAX_PLAIN + TAG_LENGTH
    ensures forall i :: 0 <= i < |vault.records| ==> vault.records[i].recordId != plain.recordId
  {
    hide RecordAad, EncodePlain, HashOf;
  }

  /** The ids in memory are those in storage. */
  lemma SameIds(suite: Suite, storage: Storage, h: Header, key: ByteString, ids: seq<Utf8>,
                containers: seq<RecordContainer>, vault: Vault, keys: KeyMaps, id: Utf8)
    requires Tidy(storage, ids, containers) && Apply(suite, h, key, containers) == Ok((vault, keys))
    requires forall i :: 0 <= i < |vault.records| ==> vault.records[i].recordId != id
    ensures id !in ids
  {
    hide Apply, SortBySequence, EncodeContainer, DecodeContainer, IndexItems, LoadIndex, Chained, ReplayAll, HashOf;
    AppliedVault(suite, h, key, containers);
    SortSorts(containers);
    forall i | 0 <= i < |ids| ensures ids[i] != id {
      assert Filed(storage, ids[i], containers[i]);
      assert containers[i] in multiset(vault.records);
      var k :| 0 <= k < |vault.records| && vault.records[k] == containers[i];
    }
  }

  /** And those in storage are in memory. */
  lemma StoredIds(suite: Suite, storage: Storage, h: Header, key: ByteString, ids: seq<Utf8>,
                  containers: seq<RecordContainer>, vault: Vault, keys: KeyMaps, id: Utf8)
    requires Tidy(storage, ids, containers) && Apply(suite, h, key, containers) == Ok((vault, keys)) && id !in ids
    ensures forall i :: 0 <= i < |vault.records| ==> vault.records[i].recordId != id
  {
    hide Apply, SortBySequence, EncodeContainer, DecodeContainer, IndexItems, LoadIndex, Chained, ReplayAll, HashOf;
    AppliedVault(suite, h, key, containers);
    SortSorts(containers);
    forall k | 0 <= k < |vault.records| ensures vault.records[k].recordId != id {
      assert vault.records[k] in multiset(containers);
      var i :| 0 <= i < |containers| && containers[i] == vault.records[k];
      assert Filed(storage, ids[i], containers[i]);
    }
  }

  /** A small record whose effect is the one given. */
  ghost predicate Storable(suite: Suite, plain: RecordPlain, effect: Effect) {
    SmallRecord(plain) && IsCanonical(plain.payload) && EffectOf(suite, plain) == Ok(effect)
  }

  lemma StorableFacts(suite: Suite, plain: RecordPlain, effect: Effect)
    requires Storable(suite, plain, effect)
    ensures Recordable(suite, plain) && EffectOf(suite, plain) == Ok(effect) && |plain.recordId| == ID_LENGTH
    ensures Fits(plain.payload) && |EncodePlain(plain)| <= MAX_PLAIN
  {
  }

  lemma StoredRecord(suite: Suite, s: Service, h: Header, sid: SessionId, plain: RecordPlain, effect: Effect,
                     sequence: U64, nonce: Blob, ids: seq<Utf8>, containers: seq<RecordContainer>, m: Memory,
                     next: Vault, c: RecordContainer)
    requires Sound(suite) && Storable(suite, plain, effect) && Fits(plain.payload)
    requires OkWith(suite, s, ids, containers) && LoadHeader(s.storage) == Ok(h) && sid in s.sessions
    requires s.state == Some(m)
    requires Append(suite, h, s.sessions[sid].vaultKey, m.vault, plain, sequence, nonce) == Ok((next, c))
    ensures Put(s.storage, c).1 == None && LoadHeader(Put(s.storage, c).0) == Ok(h) && |ids| == |containers| <= 4096
    ensures var after := Service(Put(s.storage, c).0, s.sessions, Some(Memory(m.header, next, ApplyEffect(m.keys, effect))));
            |containers| < 4096 ==> OkWith(suite, after, ids + [plain.recordId], containers + [c])
    ensures |containers| >= 4096 ==> LoadContainers(Put(s.storage, c).0).Err?
  {
    hide LoadHeader, Apply, Append, Put, Storable, Recordable, EffectOf, ApplyEffect, Tidy, EncodePlain, IndexFits, IsUtf8,
         ContainerValue, Encodable, SmallRecord, LoadContainers;
    var key := s.sessions[sid].vaultKey;
    StorableFacts(suite, plain, effect);
    TidyIsSmall(s.storage, ids, containers);
    AppendFacts(suite, h, key, m.vault, plain, sequence, nonce, next, c);
    AppendedApplies(suite, h, key, containers, m.vault, m.keys, plain, effect, sequence, nonce, next, c);
    SameIds(suite, s.storage, h, key, ids, containers, m.vault, m.keys, plain.recordId);
    SmallContainerEncodable(c);
    PutIsTidyIff(s.storage, ids, containers, c);
    UuidIndexFitsIff(ids + [plain.recordId]);
    var after := Service(Put(s.storage, c).0, s.sessions, Some(Memory(m.header, next, ApplyEffect(m.keys, effect))));
    if |containers| < 4096 {
      assert InStepWith(suite, after, containers + [c], after.sessions[sid].vaultKey);
    }
  }

  /** Storing a record: refused with nothing changed, or done, with memory and storage in step as long as the index
      had room. */
  lemma StoreKeepsOk(suite: Suite, s: Service, h: Header, sid: SessionId, plain: RecordPlain, effect: Effect,
                     nonce: Blob, ids: seq<Utf8>, containers: seq<RecordContainer>)
    returns (c: RecordContainer)
    requires Sound(suite) && Storable(suite, plain, effect) && Fits(plain.payload)
    requires OkWith(suite, s, ids, containers) && LoadHeader(s.storage) == Ok(h) && sid in s.sessions
    ensures var (after, r) := Store(suite, s, h, s.sessions[sid].vaultKey, plain, effect, nonce);
            && (r.Err? ==> after == s)
            && (r.Ok? ==>
                  && s.state.Some? && after.state.Some? && after.sessions == s.sessions
                  && after.state.value.keys == ApplyEffect(s.state.value.keys, effect)
                  && LoadHeader(after.storage) == Ok(h)
                  && (|containers| < 4096 ==> OkWith(suite, after, ids + [plain.recordId], containers + [c]))
                  && (|containers| >= 4096 ==> LoadContainers(after.storage).Err?))
  {
    hide LoadHeader, Apply, Append, Put, Storable, Recordable, EffectOf, ApplyEffect, OkWith, EncodePlain, IsUtf8,
         LoadContainers;
    c := RecordContainer(0, 0, GENESIS_HASH, AEAD_1, GENESIS_HASH, GENESIS_HASH);
    if s.state.Some? && s.state.value.vault.headSequence + 1 < U64_LIMIT {
      var m := s.state.value;
      var appended := Append(suite, h, s.sessions[sid].vaultKey, m.vault, plain, m.vault.headSequence + 1, nonce);
      if appended.Ok? {
        c := appended.value.1;
        StoredRecord(suite, s, h, sid, plain, effect, m.vault.headSequence + 1, nonce, ids, containers, m,
                     appended.value.0, c);
      }
    }
  }

  /** A small record is stored exactly when the vault is in memory, key and nonce have their lengths, and the id is
      new. */
  lemma StoreSucceedsIff(suite: Suite, s: Service, h: Header, sid: SessionId, plain: RecordPlain, effect: Effect,
                         nonce: Blob, ids: seq<Utf8>, containers: seq<RecordContainer>)
    requires Sound(suite) && Storable(suite, plain, effect) && Fits(plain.payload)
    requires OkWith(suite, s, ids, containers) && LoadHeader(s.storage) == Ok(h) && sid in s.sessions
    ensures var key := s.sessions[sid].vaultKey;
            Store(suite, s, h, key, plain, effect, nonce).1.Ok? <==>
              s.state.Some? && |key| == KEY_LENGTH && |nonce| == NONCE_LENGTH && plain.recordId !in ids
  {
    hide LoadHeader, Apply, Put, Storable, Recordable, EffectOf, ApplyEffect, Tidy, EncodePlain, IsUtf8, HashOf, RecordAad;
    if s.state.Some? {
      var m, key := s.state.value, s.sessions[sid].vaultKey;
      TidyIsSmall(s.storage, ids, containers);
      AppliedVault(suite, h, key, containers);
      var appended := Append(suite, h, key, m.vault, plain, m.vault.headSequence + 1, nonce);
      if plain.recordId !in ids {
        StoredIds(suite, s.storage, h, key, ids, containers, m.vault, m.keys, plain.recordId);
      }
      if appended.Ok? {
        var (next, c) := appended.value;
        AppendFacts(suite, h, key, m.vault, plain, m.vault.headSequence + 1, nonce, next, c);
        SameIds(suite, s.storage, h, key, ids, containers, m.vault, m.keys, plain.recordId);
        StoredRecord(suite, s, h, sid, plain, effect, m.vault.headSequence + 1, nonce, ids, containers, m, next, c);
      }
    }
  }

  /** The vault can be reloaded after a record is stored exactly when there were fewer than 4096 before. */
  lemma StoreReloadsIff(suite: Suite, s: Service, h: Header, sid: SessionId, plain: RecordPlain, effect: Effect,
                        nonce: Blob, ids: seq<Utf8>, containers: seq<RecordContainer>)
    requires Sound(suite) && Storable(suite, plain, effect) && Fits(plain.payload)
    requires OkWith(suite, s, ids, containers) && LoadHeader(s.storage) == Ok(h) && sid in s.sessions
    requires Store(suite, s, h, s.sessions[sid].vaultKey, plain, effect, nonce).1.Ok?
    ensures var after := Store(suite, s, h, s.sessions[sid].vaultKey, plain, effect, nonce).0;
            LoadState(suite, after.storage, h, s.sessions[sid].vaultKey).Ok? <==> |containers| < 4096
  {
    hide LoadHeader, Apply, Store, Storable, OkWith, LoadContainers;
    var c := StoreKeepsOk(suite, s, h, sid, plain, effect, nonce, ids, containers);
    if |containers| < 4096 {
      ReloadGivesMemory(suite, Store(suite, s, h, s.sessions[sid].vaultKey, plain, effect, nonce).0, sid);
    }
  }
}
