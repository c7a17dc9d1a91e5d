/** The key service as an object over its storage, its sessions and its copy of the vault. */
module KeyService {
  import opened Wrappers
  import opened Bytes
  import opened Cbor
  import opened CborFields
  import opened Formats
  import opened KeyVault
  import opened KeyVaultReplay
  import opened VaultStorage
  import V = VaultService
  import opened VaultService

  class KeyService {
    const suite: Suite
    var storage: Storage
    var sessions: map<SessionId, Session>
    var state: Option<Memory>

    constructor (suite: Suite)
      ensures this.suite == suite && Now() == IDLE
    {
      this.suite, storage, sessions, state := suite, map[], map[], None;
    }

    function Now(): Service
      reads this
    {
      Service(storage, sessions, state)
    }

    method EnsureSessionValid(sid: SessionId, now: nat) returns (r: Result<Session, ServiceError>)
      modifies this
      ensures (Now(), r) == EnsureValid(old(Now()), sid, now)
    {
      if sid !in sessions {
        return Err(SessionInvalid);
      }
      var session := sessions[sid];
      if now > session.expiresAt {
        sessions := sessions - {sid};
        state := None;
        return Err(SessionInvalid);
      }
      return Ok(session);
    }

    method CreateNewVault(userId: Utf8, passphrase: ByteString, kdf: Kdf, vaultId: Utf8, vaultKey: Message, nonce: Blob)
      returns (r: Result<(), ServiceError>)
      modifies this
      ensures (Now(), r) == CreateVault(suite, old(Now()), userId, passphrase, kdf, vaultId, vaultKey, nonce)
    {
      hide EncodeHeader, KeywrapAad;
      var wrap := WrapKey(suite, vaultId, userId, kdf, passphrase, vaultKey, nonce);
      if wrap.None? {
        return Err(CryptoError);
      }
      var header := Header(1, vaultId, userId, kdf, Aead1, [], wrap.value);
      storage := storage[HeaderKey := EncodeHeader(header)];
      storage := storage[IndexKey := []];
      return Ok(());
    }

    method UnlockPassphrase(passphrase: ByteString, now: nat, ttl: nat, newId: SessionId)
      returns (r: Result<SessionId, ServiceError>)
      modifies this
      ensures (Now(), r) == Unlock(suite, old(Now()), passphrase, now, ttl, newId)
    {
      hide LoadHeader, UnwrapKey, LoadState;
      var header := LoadHeader(storage);
      if header.Err? {
        return Err(header.error);
      }
      var key := UnwrapKey(suite, header.value, passphrase);
      if key.None? {
        return Err(CryptoError);
      }
      r := FinishUnlock(header.value, key.value, now, ttl, newId);
    }

    /** The session is registered before the vault is loaded, and stays when loading fails. */
    method FinishUnlock(header: Header, key: Message, now: nat, ttl: nat, newId: SessionId)
      returns (r: Result<SessionId, ServiceError>)
      modifies this
      ensures storage == old(storage) && sessions == old(sessions)[newId := Session(now + ttl, Normal, key)]
      ensures match LoadState(suite, old(storage), header, key)
              case Err(e) => r == Err(e) && state == old(state)
              case Ok((vault, keys)) => r == Ok(newId) && state == Some(Memory(header, vault, keys))
    {
      hide Apply;
      sessions := sessions[newId := Session(now + ttl, Normal, key)];
      var containers := LoadAllContainers();
      if containers.Err? {
        return Err(containers.error);
      }
      var replayed := ApplyContainers(suite, header, key, containers.value);
      if replayed.Err? {
        return Err(InvalidFormat(replayed.error));
      }
      state := Some(Memory(header, replayed.value.0, replayed.value.1));
      return Ok(newId);
    }

    method LoadAllContainers() returns (r: Result<seq<RecordContainer>, ServiceError>)
      ensures r == LoadContainers(storage)
    {
      hide DecodeContainer, SortBySequence, IndexItems;
      var items := IndexItems(storage);
      if items.Err? {
        return Err(items.error);
      }
      var records: seq<RecordContainer> := [];
      for k := 0 to |items.value|
        invariant RecordsIn(storage, items.value[..k]) == Ok(records)
      {
        ghost var upto := items.value[..k + 1];
        assert upto[..k] == items.value[..k];
        var item := items.value[k];
        if !item.Text? {
          FirstBadItem(storage, items.value, k + 1);
          return Err(InvalidIndex);
        }
        if RecordKey(item.text) in storage {
          var record := DecodeContainer(storage[RecordKey(item.text)]);
          if record.Err? {
            FirstBadItem(storage, items.value, k + 1);
            return Err(InvalidCbor(record.error));
          }
          records := records + [record.value];
        }
      }
      assert items.value[..|items.value|] == items.value;
      return Ok(SortBySequence(records));
    }

    method StepUpSession(sid: SessionId, now: nat, ttl: nat, passphrase: ByteString) returns (r: Result<(), ServiceError>)
      modifies this
      ensures (Now(), r) == Raise(suite, old(Now()), sid, now, ttl, passphrase)
    {
      hide LoadHeader, UnwrapKey;
      var session := EnsureSessionValid(sid, now);
      if session.Err? {
        return Err(session.error);
      }
      var header := LoadHeader(storage);
      if header.Err? {
        return Err(header.error);
      }
      var key := UnwrapKey(suite, header.value, passphrase);
      if key != Some(session.value.vaultKey) {
        return Err(CryptoError);
      }
      sessions := sessions[sid := Session(now + ttl, StepUp, session.value.vaultKey)];
      return Ok(());
    }

    method LockNow(sid: SessionId) returns (r: Result<(), ServiceError>)
      modifies this
      ensures (Now(), r) == Lock(old(Now()), sid)
    {
      if sid !in sessions {
        return Err(SessionInvalid);
      }
      sessions := sessions - {sid};
      state := None;
      return Ok(());
    }

    method EnterSession(sid: SessionId, now: nat) returns (r: Result<(Header, Session), ServiceError>)
      modifies this
      ensures (Now(), r) == Enter(old(Now()), sid, now)
    {
      hide LoadHeader;
      var header := LoadHeader(storage);
      if header.Err? {
        return Err(header.error);
      }
      var session := EnsureSessionValid(sid, now);
      if session.Err? {
        return Err(session.error);
      }
      return Ok((header.value, session.value));
    }

    method PersistRecordContainer(c: RecordContainer) returns (error: Option<ServiceError>)
      modifies this
      ensures (storage, error) == Put(old(storage), c) && sessions == old(sessions) && state == old(state)
    {
      hide LoadIndex, EncodeContainer, IndexBytes;
      storage := storage[RecordKey(c.recordId) := EncodeContainer(c)];
      var index := LoadIndex(storage);
      if index.Err? {
        return Some(index.error);
      }
      var ids := index.value;
      if c.recordId !in ids {
        ids := ids + [c.recordId];
      }
      storage := storage[IndexKey := IndexBytes(ids)];
      return None;
    }

    /** Append to the log in memory, write it down, and only then change the key maps. */
    method StoreRecord(header: Header, key: ByteString, plain: RecordPlain, effect: Effect, nonce: Blob)
      returns (r: Result<(), ServiceError>)
      requires Fits(plain.payload)
      modifies this
      ensures (Now(), r) == Store(suite, old(Now()), header, key, plain, effect, nonce)
    {
      hide Append, Put, ApplyEffect;
      if state.None? {
        return Err(NotLoaded);
      }
      var m := state.value;
      if m.vault.headSequence + 1 >= U64_LIMIT {
        return Err(InvalidFormat(SequenceMismatch));
      }
      var appended := Append(suite, header, key, m.vault, plain, m.vault.headSequence + 1, nonce);
      if appended.Err? {
        return Err(InvalidFormat(appended.error));
      }
      state := Some(m.(vault := appended.value.0));
      var error := PersistRecordContainer(appended.value.1);
      if error.Some? {
        return Err(error.value);
      }
      state := Some(state.value.(keys := ApplyEffect(m.keys, effect)));
      return Ok(());
    }

    method PersistScopeKey(sid: SessionId, now: nat, recordId: Utf8, scope: ScopeKeyId, key: Blob, nonce: Blob)
      returns (r: Result<(), ServiceError>)
      modifies this
      ensures (Now(), r) == Persist(suite, old(Now()), sid, now, StoreScopeKey(recordId, scope, key),
                                    SetScope(scope, key), nonce)
    {
      hide Enter, Store, StoreScopeKey;
      var entered := EnterSession(sid, now);
      if entered.Err? {
        return Err(entered.error);
      }
      var (header, session) := entered.value;
      r := StoreRecord(header, session.vaultKey, StoreScopeKey(recordId, scope, key), SetScope(scope, key), nonce);
    }

    method PersistResourceKey(sid: SessionId, now: nat, recordId: Utf8, resource: ResourceKeyId, key: Blob, nonce: Blob)
      returns (r: Result<(), ServiceError>)
      modifies this
      ensures (Now(), r) == Persist(suite, old(Now()), sid, now, StoreResourceKey(recordId, resource, key),
                                    SetResource(resource, key), nonce)
    {
      hide Enter, Store, StoreResourceKey;
      var entered := EnterSession(sid, now);
      if entered.Err? {
        return Err(entered.error);
      }
      var (header, session) := entered.value;
      r := StoreRecord(header, session.vaultKey, StoreResourceKey(recordId, resource, key), SetResource(resource, key), nonce);
    }

    /** The user key's record and then the device's; a failure in between leaves the first. */
    method InitIdentity(sid: SessionId, now: nat, userId: Utf8, user: UserKey, userNonce: Blob, deviceId: Utf8,
                        device: Utf8, deviceKeys: DeviceKeys, deviceNonce: Blob)
      returns (r: Result<(), ServiceError>)
      modifies this
      ensures (Now(), r) == V.InitIdentity(suite, old(Now()), sid, now, StoreUserKey(userId, user), SetUserKey(user),
                                           userNonce, StoreDeviceKeys(deviceId, device, deviceKeys),
                                           SetDevice(device, deviceKeys), deviceNonce)
    {
      hide Enter, Store, StoreUserKey, StoreDeviceKeys;
      var entered := EnterSession(sid, now);
      if entered.Err? {
        return Err(entered.error);
      }
      var (header, session) := entered.value;
      r := StoreRecord(header, session.vaultKey, StoreUserKey(userId, user), SetUserKey(user), userNonce);
      if r.Err? {
        return;
      }
      r := StoreRecord(header, session.vaultKey, StoreDeviceKeys(deviceId, device, deviceKeys),
                       SetDevice(device, deviceKeys), deviceNonce);
    }

    method ChangePassphrase(sid: SessionId, now: nat, passphrase: ByteString, kdf: Kdf, nonce: Blob)
      returns (r: Result<(), ServiceError>)
      modifies this
      ensures (Now(), r) == V.ChangePassphrase(suite, old(Now()), sid, now, passphrase, kdf, nonce)
    {
      hide Enter, WrapKey, EncodeHeader;
      var entered := EnterSession(sid, now);
      if entered.Err? {
        return Err(entered.error);
      }
      var (header, session) := entered.value;
      if session.kind != StepUp {
        return Err(StepUpRequired);
      }
      var changed := Rewrapped(suite, header, kdf, passphrase, session.vaultKey, nonce);
      if changed.None? {
        return Err(CryptoError);
      }
      RewrappedIsWellFormed(suite, header, kdf, passphrase, session.vaultKey, nonce);
      storage := storage[HeaderKey := EncodeHeader(changed.value)];
      return Ok(());
    }

    method ExportKeyvault(sid: SessionId, now: nat) returns (r: Result<ByteString, ServiceError>)
      modifies this
      ensures (Now(), r) == Export(old(Now()), sid, now)
    {
      hide Exported;
      var session := EnsureSessionValid(sid, now);
      if session.Err? {
        return Err(session.error);
      }
      if session.value.kind != StepUp {
        return Err(StepUpRequired);
      }
      r := Exported(storage);
    }

    /** Header, then every record, then the index of exactly these records. */
    method ImportKeyvault(sid: SessionId, now: nat, blob: ByteString) returns (r: Result<(), ServiceError>)
      modifies this
      ensures (Now(), r) == Import(old(Now()), sid, now, blob)
    {
      hide DecodeSnapshot, EncodeHeader, EncodeContainer, IndexBytes;
      var session := EnsureSessionValid(sid, now);
      if session.Err? {
        return Err(session.error);
      }
      if session.value.kind != StepUp {
        return Err(StepUpRequired);
      }
      var snapshot := DecodeSnapshot(blob);
      if snapshot.Err? {
        return Err(InvalidCbor(snapshot.error));
      }
      ghost var before := Now();
      var records := snapshot.value.records;
      storage := storage[HeaderKey := EncodeHeader(snapshot.value.header)];
      ghost var base := storage;
      var index: seq<Utf8> := [];
      for k := 0 to |records|
        invariant sessions == before.sessions && state == before.state
        invariant storage == FileAll(base, records[..k]) && index == RecordIds(records)[..k]
      {
        assert records[..k + 1][..k] == records[..k];
        storage := storage[RecordKey(records[k].recordId) := EncodeContainer(records[k])];
        index := index + [records[k].recordId];
      }
      assert records[..|records|] == records && index == RecordIds(records);
      storage := storage[IndexKey := IndexBytes(index)];
      return Ok(());
    }
  }

  lemma {:induction false} FirstBadItem(storage: Storage, items: seq<Value>, k: nat)
    requires k <= |items| && RecordsIn(storage, items[..k]).Err?
    ensures RecordsIn(storage, items) == RecordsIn(storage, items[..k])
    decreases |items|
  {
    hide DecodeContainer;
    if k == |items| {
      assert items[..k] == items;
    } else {
      var init := items[..|items| - 1];
      assert init[..k] == items[..k];
      FirstBadItem(storage, init, k);
    }
  }
}
