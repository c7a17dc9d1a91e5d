/** Runs of the key service with one live session at a time. */
module VaultSteps {
  import opened Wrappers
  import opened Bytes
  import opened Cbor
  import opened CanonicalCbor
  import opened CborDecoding
  import opened CborFields
  import opened Formats
  import opened KeyVault
  import opened KeyVaultReplay
  import opened VaultStorage
  import opened VaultService
  import opened VaultRuns

  datatype Step =
    | Create(userId: Utf8, passphrase: ByteString, kdf: Kdf, vaultId: Utf8, vaultKey: Message, nonce: Blob)
    | UnlockWith(passphrase: ByteString, now: nat, ttl: nat, newId: SessionId)
    | StepUpWith(sid: SessionId, now: nat, ttl: nat, passphrase: ByteString)
    | LockSession(sid: SessionId)
    | PersistScopeKey(sid: SessionId, now: nat, recordId: Utf8, scope: ScopeKeyId, key: Blob, nonce: Blob)
    | PersistResourceKey(sid: SessionId, now: nat, recordId: Utf8, resource: ResourceKeyId, key: Blob, nonce: Blob)
    | NewIdentity(sid: SessionId, now: nat, userRecordId: Utf8, user: UserKey, userNonce: Blob, deviceRecordId: Utf8,
                  device: Utf8, deviceKeys: DeviceKeys, deviceNonce: Blob)
    | NewPassphrase(sid: SessionId, now: nat, passphrase: ByteString, kdf: Kdf, nonce: Blob)
    | ExportVault(sid: SessionId, now: nat)

  function Count(s: Service): nat {
    if s.state.Some? then |s.state.value.vault.records| else 0
  }

  /** The new header, if there is one, can be read back. */
  ghost predicate HeaderFits(suite: Suite, s: Service, sid: SessionId, passphrase: ByteString, kdf: Kdf, nonce: Blob) {
    LoadHeader(s.storage).Ok? && sid in s.sessions ==>
      var h := Rewrapped(suite, LoadHeader(s.storage).value, kdf, passphrase, s.sessions[sid].vaultKey, nonce);
      h.Some? ==> |h.value.records| < U64_LIMIT && Fits(HeaderValue(h.value)) && Encodable(HeaderValue(h.value))
  }

  /** One live session, room for the records, and everything written within the limits of reading. */
  ghost predicate Enabled(suite: Suite, s: Service, step: Step) {
    match step
    case Create(_, _, _, _, _, _) => s.sessions == map[]
    case UnlockWith(_, _, _, _) => s.sessions == map[]
    case PersistScopeKey(_, _, id, scope, key, _) => SmallRecord(StoreScopeKey(id, scope, key)) && Count(s) < 4096
    case PersistResourceKey(_, _, id, resource, key, _) =>
      SmallRecord(StoreResourceKey(id, resource, key)) && Count(s) < 4096
    case NewIdentity(_, _, userId, user, _, deviceId, device, keys, _) =>
      && suite.userKeyOk(user.priv, user.pub) && Count(s) + 1 < 4096
      && SmallRecord(StoreUserKey(userId, user)) && SmallRecord(StoreDeviceKeys(deviceId, device, keys))
    case NewPassphrase(sid, _, passphrase, kdf, nonce) => HeaderFits(suite, s, sid, passphrase, kdf, nonce)
    case _ => true
  }

  ghost function Next(suite: Suite, s: Service, step: Step): Service {
    match step
    case Create(userId, passphrase, kdf, vaultId, vaultKey, nonce) =>
      CreateVault(suite, s, userId, passphrase, kdf, vaultId, vaultKey, nonce).0
    case UnlockWith(passphrase, now, ttl, newId) => Unlock(suite, s, passphrase, now, ttl, newId).0
    case StepUpWith(sid, now, ttl, passphrase) => Raise(suite, s, sid, now, ttl, passphrase).0
    case LockSession(sid) => Lock(s, sid).0
    case PersistScopeKey(sid, now, id, scope, key, nonce) =>
      Persist(suite, s, sid, now, StoreScopeKey(id, scope, key), SetScope(scope, key), nonce).0
    case PersistResourceKey(sid, now, id, resource, key, nonce) =>
      Persist(suite, s, sid, now, StoreResourceKey(id, resource, key), SetResource(resource, key), nonce).0
    case NewIdentity(sid, now, userId, user, userNonce, deviceId, device, keys, deviceNonce) =>
      InitIdentity(suite, s, sid, now, StoreUserKey(userId, user), SetUserKey(user), userNonce,
                   StoreDeviceKeys(deviceId, device, keys), SetDevice(device, keys), deviceNonce).0
    case NewPassphrase(sid, now, passphrase, kdf, nonce) => ChangePassphrase(suite, s, sid, now, passphrase, kdf, nonce).0
    case ExportVault(sid, now) => Export(s, sid, now).0
  }

  // Every step keeps memory and storage in step

  lemma CountIs(suite: Suite, s: Service, ids: seq<Utf8>, containers: seq<RecordContainer>)
    requires OkWith(suite, s, ids, containers)
    ensures s.state.Some? ==> Count(s) == |containers|
    ensures s.sessions == map[] ==> s.state == None
  {
    hide Tidy, Apply, LoadHeader, Chained, ReplayAll, SortBySequence;
    TidyIsSmall(s.storage, ids, containers);
    if s.state.Some? {
      var sid :| sid in s.sessions && InStepWith(suite, s, containers, s.sessions[sid].vaultKey);
      AppliedVault(suite, LoadHeader(s.storage).value, s.sessions[sid].vaultKey, containers);
    }
  }

  lemma EntryKeepsOk(suite: Suite, s: Service, sid: SessionId, now: nat, ids: seq<Utf8>,
                     containers: seq<RecordContainer>)
    requires OkWith(suite, s, ids, containers)
    ensures OkWith(suite, EnsureValid(s, sid, now).0, ids, containers)
    ensures OkWith(suite, Enter(s, sid, now).0, ids, containers)
    ensures EnsureValid(s, sid, now).1.Ok? ==> EnsureValid(s, sid, now) == (s, Ok(s.sessions[sid])) && sid in s.sessions
    ensures Enter(s, sid, now).1.Ok? ==>
              sid in s.sessions && LoadHeader(s.storage).Ok?
              && Enter(s, sid, now) == (s, Ok((LoadHeader(s.storage).value, s.sessions[sid])))
  {
    hide Tidy, Apply, LoadHeader, AllUuids;
  }

  lemma CreateKeepsOk(suite: Suite, s: Service, step: Step)
    requires ServiceOk(suite, s) && Enabled(suite, s, step) && step.Create?
    ensures ServiceOk(suite, Next(suite, s, step))
  {
    hide Tidy, Apply, AllUuids, LoadHeader, EncodeHeader, KeywrapAad;
    var ids, containers :| OkWith(suite, s, ids, containers);
    CountIs(suite, s, ids, containers);
    var after := Next(suite, s, step);
    if after == s {
    } else {
      EmptyIsTidy(after.storage);
      assert OkWith(suite, after, [], []);
    }
  }

  lemma EmptyIsTidy(storage: Storage)
    requires IndexKey !in storage || storage[IndexKey] == []
    ensures Tidy(storage, [], []) && AllUuids([])
  {
    assert TextValues([]) == [];
  }

  lemma UnlockKeepsOk(suite: Suite, s: Service, step: Step)
    requires ServiceOk(suite, s) && Enabled(suite, s, step) && step.UnlockWith?
    ensures ServiceOk(suite, Next(suite, s, step))
  {
    hide Tidy, AllUuids, LoadHeader, UnwrapKey, ReplayAll, SortBySequence, LoadContainers;
    var ids, containers :| OkWith(suite, s, ids, containers);
    CountIs(suite, s, ids, containers);
    TidyLoads(s.storage, ids, containers);
    TidyIsSmall(s.storage, ids, containers);
    SortSorts(containers);
    var after := Next(suite, s, step);
    if after.state.Some? {
      var h, key := after.state.value.header, after.sessions[step.newId].vaultKey;
      var sorted := SortBySequence(containers);
      assert |sorted| == |multiset(sorted)| == |multiset(containers)| == |containers|;
      AnyOrder(suite, h, key, sorted, containers);
      assert InStepWith(suite, after, containers, after.sessions[step.newId].vaultKey);
    }
    assert OkWith(suite, after, ids, containers);
  }

  lemma PersistKeepsOk(suite: Suite, s: Service, sid: SessionId, now: nat, plain: RecordPlain, effect: Effect,
                       nonce: Blob)
    requires Sound(suite) && ServiceOk(suite, s) && Count(s) < 4096
    requires Storable(suite, plain, effect) && Fits(plain.payload)
    ensures ServiceOk(suite, Persist(suite, s, sid, now, plain, effect, nonce).0)
    ensures Persist(suite, s, sid, now, plain, effect, nonce).1.Ok? ==>
              var after := Persist(suite, s, sid, now, plain, effect, nonce).0;
              s.state.Some? && after.state.Some?
              && after.state.value.keys == ApplyEffect(s.state.value.keys, effect) && Count(after) == Count(s) + 1
  {
    hide OkWith, Store, Storable, LoadHeader, ApplyEffect, Enter;
    var ids, containers :| OkWith(suite, s, ids, containers);
    EntryKeepsOk(suite, s, sid, now, ids, containers);
    CountIs(suite, s, ids, containers);
    if Enter(s, sid, now).1.Ok? {
      StoreOneMore(suite, s, LoadHeader(s.storage).value, sid, plain, effect, nonce, ids, containers);
    }
  }

  lemma StoreOneMore(suite: Suite, s: Service, h: Header, sid: SessionId, plain: RecordPlain, effect: Effect,
                     nonce: Blob, ids: seq<Utf8>, containers: seq<RecordContainer>)
    requires Sound(suite) && Storable(suite, plain, effect) && Fits(plain.payload) && Count(s) < 4096
    requires OkWith(suite, s, ids, containers) && LoadHeader(s.storage) == Ok(h) && sid in s.sessions
    ensures var (after, r) := Store(suite, s, h, s.sessions[sid].vaultKey, plain, effect, nonce);
            && ServiceOk(suite, after) && after.sessions == s.sessions && LoadHeader(after.storage) == Ok(h)
            && (r.Ok? ==> s.state.Some? && after.state.Some? && Count(after) == Count(s) + 1
                          && after.state.value.keys == ApplyEffect(s.state.value.keys, effect))
  {
    hide OkWith, Store, Storable, LoadHeader, ApplyEffect;
    CountIs(suite, s, ids, containers);
    var c := StoreKeepsOk(suite, s, h, sid, plain, effect, nonce, ids, containers);
    var (after, r) := Store(suite, s, h, s.sessions[sid].vaultKey, plain, effect, nonce);
    if r.Ok? {
      CountIs(suite, after, ids + [plain.recordId], containers + [c]);
    }
  }

  lemma IdentityKeepsOk(suite: Suite, s: Service, sid: SessionId, now: nat, user: RecordPlain, userEffect: Effect,
                        userNonce: Blob, device: RecordPlain, deviceEffect: Effect, deviceNonce: Blob)
    requires Sound(suite) && ServiceOk(suite, s) && Count(s) + 1 < 4096
    requires Storable(suite, user, userEffect) && Storable(suite, device, deviceEffect)
    requires Fits(user.payload) && Fits(device.payload)
    ensures var (after, r) := InitIdentity(suite, s, sid, now, user, userEffect, userNonce, device, deviceEffect,
                                           deviceNonce);
            && ServiceOk(suite, after)
            && (r.Ok? ==>
                  && s.state.Some? && after.state.Some?
                  && after.state.value.keys == ApplyEffect(ApplyEffect(s.state.value.keys, userEffect), deviceEffect))
  {
    hide OkWith, Store, Storable, LoadHeader, ApplyEffect, Enter;
    var ids, containers :| OkWith(suite, s, ids, containers);
    EntryKeepsOk(suite, s, sid, now, ids, containers);
    if Enter(s, sid, now).1.Ok? {
      var h := LoadHeader(s.storage).value;
      StoreOneMore(suite, s, h, sid, user, userEffect, userNonce, ids, containers);
      var (mid, r) := Store(suite, s, h, s.sessions[sid].vaultKey, user, userEffect, userNonce);
      if r.Ok? {
        var ids', containers' :| OkWith(suite, mid, ids', containers');
        StoreOneMore(suite, mid, h, sid, device, deviceEffect, deviceNonce, ids', containers');
      }
    }
  }

  /** The new passphrase opens the same vault: same key, same records, same keys in memory. */
  lemma NewPassphraseKeepsOk(suite: Suite, s: Service, sid: SessionId, now: nat, passphrase: ByteString, kdf: Kdf,
                             nonce: Blob)
    requires Sound(suite) && ServiceOk(suite, s) && HeaderFits(suite, s, sid, passphrase, kdf, nonce)
    ensures var (after, r) := ChangePassphrase(suite, s, sid, now, passphrase, kdf, nonce);
            && ServiceOk(suite, after)
            && (r.Ok? ==> after.state == s.state && after.sessions == s.sessions && sid in s.sessions
                          && LoadHeader(after.storage).Ok?
                          && UnwrapKey(suite, LoadHeader(after.storage).value, passphrase)
                             == Some(s.sessions[sid].vaultKey))
  {
    hide OkWith, Enter, LoadHeader, WrapKey, UnwrapKey, EncodeHeader, HeaderValue, Encodable, Sound;
    var ids, containers :| OkWith(suite, s, ids, containers);
    EntryKeepsOk(suite, s, sid, now, ids, containers);
    var (after, r) := ChangePassphrase(suite, s, sid, now, passphrase, kdf, nonce);
    if r.Ok? {
      var h, key := LoadHeader(s.storage).value, s.sessions[sid].vaultKey;
      var h' := Rewrapped(suite, h, kdf, passphrase, key, nonce).value;
      RewrappedIsWellFormed(suite, h, kdf, passphrase, key, nonce);
      NewHeaderKeepsOk(suite, s, h, h', ids, containers);
      UnwrapOfWrap(suite, h', passphrase, key, nonce);
    }
  }

  lemma NewHeaderKeepsOk(suite: Suite, s: Service, h: Header, h': Header, ids: seq<Utf8>,
                         containers: seq<RecordContainer>)
    requires OkWith(suite, s, ids, containers) && LoadHeader(s.storage) == Ok(h) && SameVault(h, h')
    requires WellFormedHeader(h') && Encodable(HeaderValue(h'))
    ensures var storage := s.storage[HeaderKey := EncodeHeader(h')];
            LoadHeader(storage) == Ok(h') && OkWith(suite, s.(storage := storage), ids, containers)
  {
    hide ReplayAll, SortBySequence, EncodeHeader, DecodeHeader, Encodable, HeaderValue, WellFormedHeader, Filed;
    var storage := s.storage[HeaderKey := EncodeHeader(h')];
    HeaderRoundTrip(h');
    HeaderKeepsTidy(s.storage, EncodeHeader(h'), ids, containers);
    if s.state.Some? {
      var sid :| sid in s.sessions && InStepWith(suite, s, containers, s.sessions[sid].vaultKey);
      SameVaultReplays(suite, h, h', s.sessions[sid].vaultKey, SortBySequence(containers));
      assert InStepWith(suite, s.(storage := storage), containers, s.sessions[sid].vaultKey);
    }
  }

  lemma HeaderKeepsTidy(storage: Storage, b: ByteString, ids: seq<Utf8>, containers: seq<RecordContainer>)
    requires Tidy(storage, ids, containers)
    ensures Tidy(storage[HeaderKey := b], ids, containers)
  {
    hide EncodeContainer, DecodeContainer, TextsIn, DecodeCanonical;
    var after := storage[HeaderKey := b];
    forall i | 0 <= i < |ids| ensures Filed(after, ids[i], containers[i]) {
      assert Filed(storage, ids[i], containers[i]);
    }
  }

  lemma SessionStepKeepsOk(suite: Suite, s: Service, step: Step)
    requires ServiceOk(suite, s) && (step.StepUpWith? || step.LockSession? || step.ExportVault?)
    ensures ServiceOk(suite, Next(suite, s, step))
  {
    hide Tidy, AllUuids, LoadHeader, UnwrapKey, Apply, Exported;
    var ids, containers :| OkWith(suite, s, ids, containers);
    var after := Next(suite, s, step);
    if step.StepUpWith? || step.ExportVault? {
      EntryKeepsOk(suite, s, step.sid, step.now, ids, containers);
    }
    if after.state.Some? {
      var sid :| sid in s.sessions && InStepWith(suite, s, containers, s.sessions[sid].vaultKey);
      assert sid in after.sessions && after.sessions[sid].vaultKey == s.sessions[sid].vaultKey;
      assert InStepWith(suite, after, containers, after.sessions[sid].vaultKey);
    }
    assert OkWith(suite, after, ids, containers);
  }

  lemma StepKeepsOk(suite: Suite, s: Service, step: Step)
    requires Sound(suite) && ServiceOk(suite, s) && Enabled(suite, s, step)
    ensures ServiceOk(suite, Next(suite, s, step))
  {
    hide ServiceOk, Sound, Persist, InitIdentity, ChangePassphrase, Lock, Raise, Unlock, CreateVault, Export, SmallRecord,
         HeaderFits, EffectOf, StoreScopeKey, StoreResourceKey, StoreUserKey, StoreDeviceKeys;
    match step
    case Create(_, _, _, _, _, _) => CreateKeepsOk(suite, s, step);
    case UnlockWith(_, _, _, _) => UnlockKeepsOk(suite, s, step);
    case PersistScopeKey(sid, now, id, scope, key, nonce) =>
      StoredScopeKey(suite, id, scope, key);
      PersistKeepsOk(suite, s, sid, now, StoreScopeKey(id, scope, key), SetScope(scope, key), nonce);
    case PersistResourceKey(sid, now, id, resource, key, nonce) =>
      StoredResourceKey(suite, id, resource, key);
      PersistKeepsOk(suite, s, sid, now, StoreResourceKey(id, resource, key), SetResource(resource, key), nonce);
    case NewIdentity(sid, now, userId, user, userNonce, deviceId, device, keys, deviceNonce) =>
      StoredUserKey(suite, userId, user);
      StoredDeviceKeys(suite, deviceId, device, keys);
      IdentityKeepsOk(suite, s, sid, now, StoreUserKey(userId, user), SetUserKey(user), userNonce,
                      StoreDeviceKeys(deviceId, device, keys), SetDevice(device, keys), deviceNonce);
    case NewPassphrase(sid, now, passphrase, kdf, nonce) =>
      NewPassphraseKeepsOk(suite, s, sid, now, passphrase, kdf, nonce);
    case _ => SessionStepKeepsOk(suite, s, step);
  }

  ghost predicate Legal(suite: Suite, s: Service, steps: seq<Step>)
    decreases |steps|
  {
    steps == [] || (Enabled(suite, s, steps[0]) && Legal(suite, Next(suite, s, steps[0]), steps[1..]))
  }

  ghost function Run(suite: Suite, s: Service, steps: seq<Step>): Service
    decreases |steps|
  {
    if steps == [] then s else Run(suite, Next(suite, s, steps[0]), steps[1..])
  }

  lemma {:induction false} RunKeepsOk(suite: Suite, s: Service, steps: seq<Step>)
    requires Sound(suite) && ServiceOk(suite, s) && Legal(suite, s, steps)
    ensures ServiceOk(suite, Run(suite, s, steps))
    decreases |steps|
  {
    hide ServiceOk, Next, Enabled, Sound;
    if steps != [] {
      StepKeepsOk(suite, s, steps[0]);
      RunKeepsOk(suite, Next(suite, s, steps[0]), steps[1..]);
    }
  }

  lemma IdleIsOk(suite: Suite)
    ensures ServiceOk(suite, IDLE)
  {
    EmptyIsTidy(map[]);
    assert OkWith(suite, IDLE, [], []);
  }

  /** In every run, whenever a vault is in memory there is a session, and loading and replaying storage under its key
      gives exactly the vault and the keys in memory. */
  lemma MemoryIsReload(suite: Suite, steps: seq<Step>)
    requires Sound(suite) && Legal(suite, IDLE, steps)
    ensures var s := Run(suite, IDLE, steps);
            s.state.Some? ==>
              && LoadHeader(s.storage).Ok?
              && exists sid :: sid in s.sessions
                   && LoadState(suite, s.storage, LoadHeader(s.storage).value, s.sessions[sid].vaultKey)
                      == Ok((s.state.value.vault, s.state.value.keys))
  {
    hide Legal, Run, Sound, LoadState, LoadHeader, OkWith;
    IdleIsOk(suite);
    RunKeepsOk(suite, IDLE, steps);
    var s := Run(suite, IDLE, steps);
    if s.state.Some? {
      var ids, containers :| OkWith(suite, s, ids, containers);
      var sid := LiveSession(suite, s, ids, containers);
      ReloadGivesMemory(suite, s, sid);
    }
  }

  lemma LiveSession(suite: Suite, s: Service, ids: seq<Utf8>, containers: seq<RecordContainer>)
    returns (sid: SessionId)
    requires OkWith(suite, s, ids, containers) && s.state.Some?
    ensures sid in s.sessions
  {
    hide Tidy, Apply, LoadHeader;
    sid :| sid in s.sessions && InStepWith(suite, s, containers, s.sessions[sid].vaultKey);
  }
}
