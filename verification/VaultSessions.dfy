/** Who may do what: when each operation of the key service succeeds, which sessions are raised, and what a lock
    takes away. */
module VaultSessions {
  import opened Wrappers
  import opened Bytes
  import opened Cbor
  import opened CborFields
  import opened Formats
  import opened KeyVault
  import opened KeyVaultReplay
  import opened VaultStorage
  import opened VaultService
  import opened VaultSteps

  /** The session is there and has not run out. */
  predicate Live(s: Service, sid: SessionId, now: nat) {
    sid in s.sessions && now <= s.sessions[sid].expiresAt
  }

  predicate Raised(s: Service, sid: SessionId, now: nat) {
    Live(s, sid, now) && s.sessions[sid].kind == StepUp
  }

  /** The passphrase opens the stored header's wrap to this key. */
  predicate Opens(suite: Suite, storage: Storage, passphrase: ByteString, key: ByteString) {
    LoadHeader(storage).Ok? && UnwrapKey(suite, LoadHeader(storage).value, passphrase) == Some(key)
  }

  /** Nothing but the sessions and the vault in memory is touched, no session appears, and those that stay are as they
      were. */
  predicate OnlyDrops(s: Service, after: Service) {
    && after.storage == s.storage && (after.state == s.state || after.state == None)
    && forall id :: id in after.sessions ==> id in s.sessions && after.sessions[id] == s.sessions[id]
  }

  // When each operation succeeds, and what it then leaves

  lemma EnsureValidIff(s: Service, sid: SessionId, now: nat)
    ensures EnsureValid(s, sid, now).1 == if Live(s, sid, now) then Ok(s.sessions[sid]) else Err(SessionInvalid)
    ensures Live(s, sid, now) ==> EnsureValid(s, sid, now).0 == s
    ensures !Live(s, sid, now) ==> OnlyDrops(s, EnsureValid(s, sid, now).0) && sid !in EnsureValid(s, sid, now).0.sessions
    ensures sid in s.sessions && !Live(s, sid, now) ==> EnsureValid(s, sid, now).0.state == None
  {
  }

  /** A session is raised exactly by a passphrase that opens the vault to the session's own key. */
  lemma RaiseIff(suite: Suite, s: Service, sid: SessionId, now: nat, ttl: nat, passphrase: ByteString)
    ensures var (after, r) := Raise(suite, s, sid, now, ttl, passphrase);
            && (r.Ok? <==> Live(s, sid, now) && Opens(suite, s.storage, passphrase, s.sessions[sid].vaultKey))
            && (r.Ok? ==> after == s.(sessions := s.sessions[sid := Session(now + ttl, StepUp, s.sessions[sid].vaultKey)]))
            && (r.Err? ==> OnlyDrops(s, after))
            && (r.Err? && Live(s, sid, now) ==> after == s)
  {
    hide LoadHeader, UnwrapKey;
  }

  /** A vault can be created exactly when a key can be derived and the nonce has its length; only storage changes. */
  lemma CreateIff(suite: Suite, s: Service, userId: Utf8, passphrase: ByteString, kdf: Kdf, vaultId: Utf8,
                  vaultKey: Message, nonce: Blob)
    ensures var (after, r) := CreateVault(suite, s, userId, passphrase, kdf, vaultId, vaultKey, nonce);
            && (r.Ok? <==> suite.deriveKek(passphrase, kdf).Some? && |nonce| == NONCE_LENGTH)
            && (r.Err? ==> r.error == CryptoError && after == s)
            && after.sessions == s.sessions && after.state == s.state
            && after.storage - {HeaderKey, IndexKey} == s.storage - {HeaderKey, IndexKey}
  {
    hide EncodeHeader, KeywrapAad;
  }

  /** What was created for a user opens, under its passphrase, to the key it was created with, and is empty. */
  lemma CreatedOpens(suite: Suite, s: Service, userId: Utf8, passphrase: ByteString, kdf: Kdf, vaultId: Utf8,
                     vaultKey: Message, nonce: Blob, now: nat, ttl: nat, newId: SessionId)
    requires Sound(suite) && WrapKey(suite, vaultId, userId, kdf, passphrase, vaultKey, nonce).Some?
    requires Encodable(HeaderValue(Header(1, vaultId, userId, kdf, Aead1, [],
                                          WrapKey(suite, vaultId, userId, kdf, passphrase, vaultKey, nonce).value)))
    ensures var created := CreateVault(suite, s, userId, passphrase, kdf, vaultId, vaultKey, nonce).0;
            var (after, r) := Unlock(suite, created, passphrase, now, ttl, newId);
            && LoadHeader(created.storage).Ok? && Opens(suite, created.storage, passphrase, vaultKey)
            && var h := LoadHeader(created.storage).value;
            && h.v == 1 && h.vaultId == vaultId && h.userId == userId && h.kdf == kdf && h.records == []
            && r == Ok(newId) && after.state == Some(Memory(h, EMPTY_VAULT, NO_KEYS))
  {
    hide KeywrapAad, EncodeHeader, DecodeHeader, HeaderValue, Encodable, WrapKey;
    var wrap := WrapKey(suite, vaultId, userId, kdf, passphrase, vaultKey, nonce).value;
    var h := Header(1, vaultId, userId, kdf, Aead1, [], wrap);
    var created := CreateVault(suite, s, userId, passphrase, kdf, vaultId, vaultKey, nonce).0;
    assert created.storage == s.storage[HeaderKey := EncodeHeader(h)][IndexKey := []];
    HeaderRoundTrip(h);
    assert LoadHeader(created.storage) == Ok(h);
    UnwrapOfWrap(suite, h, passphrase, vaultKey, nonce);
    EmptyIsTidy(created.storage);
    TidyLoads(created.storage, [], []);
  }

  /** Unlocking opens a normal session under the key of the passphrase, and loads the vault. */
  lemma UnlockIff(suite: Suite, s: Service, passphrase: ByteString, now: nat, ttl: nat, newId: SessionId)
    ensures var (after, r) := Unlock(suite, s, passphrase, now, ttl, newId);
            && (r.Ok? <==> exists key :: Opens(suite, s.storage, passphrase, key)
                                      && LoadState(suite, s.storage, LoadHeader(s.storage).value, key).Ok?)
            && (r.Ok? ==> r.value == newId && newId in after.sessions && after.state.Some?
                          && after.sessions[newId].kind == Normal && after.sessions[newId].expiresAt == now + ttl
                          && Opens(suite, s.storage, passphrase, after.sessions[newId].vaultKey)
                          && LoadState(suite, s.storage, LoadHeader(s.storage).value, after.sessions[newId].vaultKey)
                             == Ok((after.state.value.vault, after.state.value.keys)))
            && after.storage == s.storage && after.sessions - {newId} == s.sessions - {newId}
  {
    hide LoadHeader, UnwrapKey, LoadState;
    if LoadHeader(s.storage).Ok? && UnwrapKey(suite, LoadHeader(s.storage).value, passphrase).Some? {
      var key := UnwrapKey(suite, LoadHeader(s.storage).value, passphrase).value;
      assert Opens(suite, s.storage, passphrase, key);
    }
  }

  lemma LockIff(s: Service, sid: SessionId)
    ensures var (after, r) := Lock(s, sid);
            && r == (if sid in s.sessions then Ok(()) else Err(SessionInvalid))
            && sid !in after.sessions && OnlyDrops(s, after) && (r.Ok? ==> after.state == None)
            && (forall id :: id in s.sessions && id != sid ==> id in after.sessions)
  {
  }

  /** Only a raised session exports. */
  lemma ExportIff(s: Service, sid: SessionId, now: nat)
    ensures var (after, r) := Export(s, sid, now);
            && (r.Ok? <==> Raised(s, sid, now) && Exported(s.storage).Ok?)
            && (r.Ok? ==> r == Exported(s.storage)) && OnlyDrops(s, after)
  {
    hide Exported;
  }

  /** Only a raised session imports, and only what can be read; nothing but storage changes. */
  lemma ImportIff(s: Service, sid: SessionId, now: nat, blob: ByteString)
    ensures var (after, r) := Import(s, sid, now, blob);
            && (r.Ok? <==> Raised(s, sid, now) && DecodeSnapshot(blob).Ok?)
            && (r.Ok? ==> after.sessions == s.sessions && after.state == s.state) && (r.Err? ==> OnlyDrops(s, after))
  {
    hide DecodeSnapshot, Imported;
  }

  /** Only a raised session changes the passphrase; the header keeps everything but derivation and wrap. */
  lemma ChangePassphraseIff(suite: Suite, s: Service, sid: SessionId, now: nat, passphrase: ByteString, kdf: Kdf, nonce: Blob)
    ensures var (after, r) := ChangePassphrase(suite, s, sid, now, passphrase, kdf, nonce);
            && (r.Ok? <==> Raised(s, sid, now) && LoadHeader(s.storage).Ok? && suite.deriveKek(passphrase, kdf).Some?
                           && |nonce| == NONCE_LENGTH)
            && (r.Ok? ==> after.sessions == s.sessions && after.state == s.state
                          && after.storage - {HeaderKey} == s.storage - {HeaderKey})
            && (r.Err? ==> OnlyDrops(s, after))
  {
    hide LoadHeader, EncodeHeader, KeywrapAad;
  }

  /** Records are stored only under a live session. */
  lemma PersistNeedsSession(suite: Suite, s: Service, sid: SessionId, now: nat, plain: RecordPlain, effect: Effect,
                            nonce: Blob)
    requires Fits(plain.payload)
    ensures var (after, r) := Persist(suite, s, sid, now, plain, effect, nonce);
            && (r.Ok? ==> Live(s, sid, now) && LoadHeader(s.storage).Ok? && s.state.Some?)
            && (!Live(s, sid, now) ==> OnlyDrops(s, after))
            && (forall id :: id in after.sessions ==> id in s.sessions && after.sessions[id] == s.sessions[id])
  {
    hide LoadHeader, Append, Put;
  }

  lemma IdentityNeedsSession(suite: Suite, s: Service, sid: SessionId, now: nat, user: RecordPlain, userEffect: Effect,
                             userNonce: Blob, device: RecordPlain, deviceEffect: Effect, deviceNonce: Blob)
    requires Fits(user.payload) && Fits(device.payload)
    ensures var (after, r) := InitIdentity(suite, s, sid, now, user, userEffect, userNonce, device, deviceEffect, deviceNonce);
            && (r.Ok? ==> Live(s, sid, now) && LoadHeader(s.storage).Ok? && s.state.Some?)
            && (!Live(s, sid, now) ==> OnlyDrops(s, after))
            && (forall id :: id in after.sessions ==> id in s.sessions && after.sessions[id] == s.sessions[id])
  {
    hide LoadHeader, Append, Put;
  }

  // A session that is gone

  /** Without the session every operation on it is refused: at once, or, where the header is read first, unless that
      already fails. */
  lemma GoneIsRefused(suite: Suite, s: Service, sid: SessionId, now: nat, ttl: nat, passphrase: ByteString, kdf: Kdf,
                      nonce: Blob, blob: ByteString, plain: RecordPlain, effect: Effect)
    requires sid !in s.sessions && Fits(plain.payload)
    ensures Raise(suite, s, sid, now, ttl, passphrase) == (s, Err(SessionInvalid)) && Lock(s, sid) == (s, Err(SessionInvalid))
    ensures Export(s, sid, now) == (s, Err(SessionInvalid)) && Import(s, sid, now, blob) == (s, Err(SessionInvalid))
    ensures var header := LoadHeader(s.storage); var error := if header.Err? then header.error else SessionInvalid;
            && Persist(suite, s, sid, now, plain, effect, nonce) == (s, Err(error))
            && ChangePassphrase(suite, s, sid, now, passphrase, kdf, nonce) == (s, Err(error))
            && InitIdentity(suite, s, sid, now, plain, effect, nonce, plain, effect, nonce) == (s, Err(error))
  {
    hide LoadHeader, Store, DecodeSnapshot, Exported;
  }

  // Sessions over runs

  predicate Issues(step: Step, sid: SessionId) {
    step.UnlockWith? && step.newId == sid
  }

  predicate Raises(step: Step, sid: SessionId) {
    step.StepUpWith? && step.sid == sid
  }

  /** A session after a step is the one before, or was issued or raised by it. */
  lemma SessionFromStep(suite: Suite, s: Service, step: Step, sid: SessionId)
    ensures sid in Next(suite, s, step).sessions ==>
              var now := Next(suite, s, step).sessions[sid];
              || (sid in s.sessions && s.sessions[sid] == now)
              || (Issues(step, sid) && now.kind == Normal && Opens(suite, s.storage, step.passphrase, now.vaultKey))
              || (Raises(step, sid) && sid in s.sessions && s.sessions[sid].vaultKey == now.vaultKey
                  && Opens(suite, s.storage, step.passphrase, now.vaultKey))
  {
    hide LoadHeader, UnwrapKey, Unlock, Raise, Export, ChangePassphrase, Persist, InitIdentity, EncodeHeader, KeywrapAad,
         StoreScopeKey, StoreResourceKey, StoreUserKey, StoreDeviceKeys;
    match step
    case Create(userId, passphrase, kdf, vaultId, vaultKey, nonce) =>
    case UnlockWith(passphrase, now, ttl, newId) => UnlockSessions(suite, s, passphrase, now, ttl, newId);
    case StepUpWith(id, now, ttl, passphrase) => RaiseIff(suite, s, id, now, ttl, passphrase);
    case LockSession(id) => LockIff(s, id);
    case PersistScopeKey(id, now, recordId, scope, key, nonce) =>
      PersistNeedsSession(suite, s, id, now, StoreScopeKey(recordId, scope, key), SetScope(scope, key), nonce);
    case PersistResourceKey(id, now, recordId, resource, key, nonce) =>
      PersistNeedsSession(suite, s, id, now, StoreResourceKey(recordId, resource, key), SetResource(resource, key), nonce);
    case NewIdentity(id, now, userId, user, userNonce, deviceId, device, keys, deviceNonce) =>
      IdentityNeedsSession(suite, s, id, now, StoreUserKey(userId, user), SetUserKey(user), userNonce,
                           StoreDeviceKeys(deviceId, device, keys), SetDevice(device, keys), deviceNonce);
    case NewPassphrase(id, now, passphrase, kdf, nonce) =>
      ChangePassphraseIff(suite, s, id, now, passphrase, kdf, nonce);
    case ExportVault(id, now) => ExportIff(s, id, now);
  }

  /** Whether or not the vault then loads. */
  lemma UnlockSessions(suite: Suite, s: Service, passphrase: ByteString, now: nat, ttl: nat, newId: SessionId)
    ensures var after := Unlock(suite, s, passphrase, now, ttl, newId).0;
            && (forall id :: id in after.sessions && id != newId ==> id in s.sessions && after.sessions[id] == s.sessions[id])
            && (newId in after.sessions ==>
                  || (newId in s.sessions && after.sessions[newId] == s.sessions[newId])
                  || (after.sessions[newId].kind == Normal && Opens(suite, s.storage, passphrase, after.sessions[newId].vaultKey)))
  {
    hide LoadHeader, UnwrapKey, LoadState;
  }

  /** In every run a session that has been locked, or was never there, stays away until an unlock issues it. */
  lemma {:induction false} GoneUntilIssued(suite: Suite, s: Service, steps: seq<Step>, sid: SessionId)
    requires sid !in s.sessions && forall i :: 0 <= i < |steps| ==> !Issues(steps[i], sid)
    ensures sid !in Run(suite, s, steps).sessions
    decreases |steps|
  {
    hide Next;
    if steps != [] {
      var next := Next(suite, s, steps[0]);
      SessionFromStep(suite, s, steps[0], sid);
      assert !Issues(steps[0], sid);
      GoneUntilIssued(suite, next, steps[1..], sid);
    }
  }

  /** The step at this place raised the session with a passphrase that opened the vault, as stored then, to this key. */
  ghost predicate RaisedAt(suite: Suite, s: Service, steps: seq<Step>, sid: SessionId, key: ByteString, k: nat) {
    k < |steps| && Raises(steps[k], sid) && Opens(suite, Run(suite, s, steps[..k]).storage, steps[k].passphrase, key)
  }

  /** In every run from sessions none of which is raised, a raised session got there by a passphrase that opened the
      vault to its key. */
  lemma {:induction false} RaisedByPassphrase(suite: Suite, s: Service, steps: seq<Step>, sid: SessionId)
    requires sid in s.sessions ==> s.sessions[sid].kind == Normal
    requires sid in Run(suite, s, steps).sessions && Run(suite, s, steps).sessions[sid].kind == StepUp
    ensures exists k: nat :: RaisedAt(suite, s, steps, sid, Run(suite, s, steps).sessions[sid].vaultKey, k)
    decreases |steps|
  {
    hide Next, Opens, RaisedAt;
    assert steps != [];
    var last := |steps| - 1;
    RunSnoc(suite, s, steps);
    var before, end := Run(suite, s, steps[..last]), Run(suite, s, steps);
    var key := end.sessions[sid].vaultKey;
    SessionFromStep(suite, before, steps[last], sid);
    if sid in before.sessions && before.sessions[sid] == end.sessions[sid] {
      RaisedByPassphrase(suite, s, steps[..last], sid);
      var k: nat :| RaisedAt(suite, s, steps[..last], sid, key, k);
      StillRaisedAt(suite, s, steps, last, sid, key, k);
    } else {
      RaisedNow(suite, s, steps, sid, key);
    }
  }

  lemma RaisedNow(suite: Suite, s: Service, steps: seq<Step>, sid: SessionId, key: ByteString)
    requires steps != [] && Raises(steps[|steps| - 1], sid)
    requires Opens(suite, Run(suite, s, steps[..|steps| - 1]).storage, steps[|steps| - 1].passphrase, key)
    ensures RaisedAt(suite, s, steps, sid, key, |steps| - 1)
  {
    hide Opens, Run;
  }

  lemma StillRaisedAt(suite: Suite, s: Service, steps: seq<Step>, n: nat, sid: SessionId, key: ByteString, k: nat)
    requires n <= |steps| && RaisedAt(suite, s, steps[..n], sid, key, k)
    ensures RaisedAt(suite, s, steps, sid, key, k)
  {
    hide Opens, Run;
    assert steps[..n][..k] == steps[..k];
  }

  lemma {:induction false} RunSnoc(suite: Suite, s: Service, steps: seq<Step>)
    requires steps != []
    ensures Run(suite, s, steps) == Next(suite, Run(suite, s, steps[..|steps| - 1]), steps[|steps| - 1])
    decreases |steps|
  {
    hide Next;
    if |steps| > 1 {
      RunSnoc(suite, Next(suite, s, steps[0]), steps[1..]);
      assert steps[1..][..|steps| - 2] == steps[..|steps| - 1][1..];
    }
  }
}
