/** What each operation of the key service does to its storage, its sessions and its copy of the vault in memory. */
module VaultService {
  import opened Wrappers
  import opened Bytes
  import opened Cbor
  import opened CanonicalCbor
  import opened CborDecoding
  import opened CborFields
  import opened Formats
  import opened KeyVault
  import opened KeyVaultReplay
  import opened VaultStorage

  type SessionId = string

  datatype Kind = Normal | StepUp

  datatype Session = Session(expiresAt: nat, kind: Kind, vaultKey: Message)

  /** The vault in memory. */
  datatype Memory = Memory(header: Header, vault: Vault, keys: KeyMaps)

  datatype Service = Service(storage: Storage, sessions: map<SessionId, Session>, state: Option<Memory>)

  const IDLE: Service := Service(map[], map[], None)

  // Sessions

  /** A session that has run out is dropped together with the vault in memory. */
  function EnsureValid(s: Service, sid: SessionId, now: nat): (Service, Result<Session, ServiceError>) {
    if sid !in s.sessions then (s, Err(SessionInvalid))
    else if now > s.sessions[sid].expiresAt then (s.(sessions := s.sessions - {sid}, state := None), Err(SessionInvalid))
    else (s, Ok(s.sessions[sid]))
  }

  function Lock(s: Service, sid: SessionId): (Service, Result<(), ServiceError>) {
    if sid !in s.sessions then (s, Err(SessionInvalid))
    else (s.(sessions := s.sessions - {sid}, state := None), Ok(()))
  }

  // The vault key

  /** "mo-keyvault-keywrap-aad-v1" */
  const KEYWRAP_TAG: Utf8 := Ascii([109, 111, 45, 107, 101, 121, 118, 97, 117, 108, 116, 45, 107, 101, 121, 119, 114, 97,
                                    112, 45, 97, 97, 100, 45, 118, 49])

  lemma KeywrapFits(vaultId: Utf8, userId: Utf8, kdf: Kdf)
    ensures Fits(MapOf(AroundPart([Text(KEYWRAP_TAG), Text(vaultId), Text(userId)], Some(MapOf(KdfFields(kdf))), 4,
                                  [Text(AEAD_1)])))
  {
    hide IsUtf8, Ascii, AroundPart, MapOf, Fits, Rising, IsCanonical;
    KdfRoundTrip(kdf);
    PartRises([Text(KEYWRAP_TAG), Text(vaultId), Text(userId)], Some(MapOf(KdfFields(kdf))), 4, [Text(AEAD_1)]);
  }

  function KeywrapAad(vaultId: Utf8, userId: Utf8, kdf: Kdf): ByteString {
    KeywrapFits(vaultId, userId, kdf);
    EncodeCanonical(MapOf(AroundPart([Text(KEYWRAP_TAG), Text(vaultId), Text(userId)], Some(MapOf(KdfFields(kdf))), 4,
                                     [Text(AEAD_1)])))
  }

  function WrapKey(suite: Suite, vaultId: Utf8, userId: Utf8, kdf: Kdf, passphrase: ByteString, vaultKey: Message,
                   nonce: Blob): (r: Option<VaultKeyWrap>)
    ensures r.Some? ==> |r.value.nonce| == NONCE_LENGTH
  {
    match suite.deriveKek(passphrase, kdf)
    case None => None
    case Some(kek) =>
      if |nonce| != NONCE_LENGTH then None
      else Some(VaultKeyWrap(Aead1, nonce, suite.seal(kek, KeywrapAad(vaultId, userId, kdf), nonce, vaultKey)))
  }

  function UnwrapKey(suite: Suite, h: Header, passphrase: ByteString): Option<Message> {
    match suite.deriveKek(passphrase, h.kdf)
    case None => None
    case Some(kek) => suite.open(kek, KeywrapAad(h.vaultId, h.userId, h.kdf), h.wrap.nonce, h.wrap.ct)
  }

  lemma UnwrapOfWrap(suite: Suite, h: Header, passphrase: ByteString, vaultKey: Message, nonce: Blob)
    requires Sound(suite)
    requires WrapKey(suite, h.vaultId, h.userId, h.kdf, passphrase, vaultKey, nonce) == Some(h.wrap)
    ensures UnwrapKey(suite, h, passphrase) == Some(vaultKey)
  {
    hide KeywrapAad;
  }

  // Operations

  function CreateVault(suite: Suite, s: Service, userId: Utf8, passphrase: ByteString, kdf: Kdf, vaultId: Utf8,
                       vaultKey: Message, nonce: Blob): (Service, Result<(), ServiceError>)
  {
    match WrapKey(suite, vaultId, userId, kdf, passphrase, vaultKey, nonce)
    case None => (s, Err(CryptoError))
    case Some(wrap) =>
      var h := Header(1, vaultId, userId, kdf, Aead1, [], wrap);
      (s.(storage := s.storage[HeaderKey := EncodeHeader(h)][IndexKey := []]), Ok(()))
  }

  function Unlock(suite: Suite, s: Service, passphrase: ByteString, now: nat, ttl: nat, newId: SessionId)
    : (Service, Result<SessionId, ServiceError>)
  {
    match LoadHeader(s.storage)
    case Err(e) => (s, Err(e))
    case Ok(h) =>
      match UnwrapKey(suite, h, passphrase)
      case None => (s, Err(CryptoError))
      case Some(key) =>
        var begun := s.(sessions := s.sessions[newId := Session(now + ttl, Normal, key)]);
        match LoadState(suite, s.storage, h, key)
        case Err(e) => (begun, Err(e))
        case Ok((vault, keys)) => (begun.(state := Some(Memory(h, vault, keys))), Ok(newId))
  }

  function Raise(suite: Suite, s: Service, sid: SessionId, now: nat, ttl: nat, passphrase: ByteString)
    : (Service, Result<(), ServiceError>)
  {
    var (v, session) := EnsureValid(s, sid, now);
    match session
    case Err(e) => (v, Err(e))
    case Ok(live) =>
      match LoadHeader(v.storage)
      case Err(e) => (v, Err(e))
      case Ok(h) =>
        if UnwrapKey(suite, h, passphrase) != Some(live.vaultKey) then (v, Err(CryptoError))
        else (v.(sessions := v.sessions[sid := Session(now + ttl, StepUp, live.vaultKey)]), Ok(()))
  }

  /** Appending to the vault in memory, writing the container and the index, and then the key map. */
  function Store(suite: Suite, s: Service, h: Header, key: ByteString, plain: RecordPlain, effect: Effect, nonce: Blob)
    : (Service, Result<(), ServiceError>)
    requires Fits(plain.payload)
  {
    match s.state
    case None => (s, Err(NotLoaded))
    case Some(m) =>
      if m.vault.headSequence + 1 >= U64_LIMIT then (s, Err(InvalidFormat(SequenceMismatch))) else
        match Append(suite, h, key, m.vault, plain, m.vault.headSequence + 1, nonce)
        case Err(e) => (s, Err(InvalidFormat(e)))
        case Ok((vault, c)) =>
          var (storage, error) := Put(s.storage, c);
          if error.Some? then (Service(storage, s.sessions, Some(m.(vault := vault))), Err(error.value))
          else (Service(storage, s.sessions, Some(Memory(m.header, vault, ApplyEffect(m.keys, effect)))), Ok(()))
  }

  /** The header is read first, then the session is checked. */
  function Enter(s: Service, sid: SessionId, now: nat): (r: (Service, Result<(Header, Session), ServiceError>))
    ensures r.1.Ok? ==> WellFormedHeader(r.1.value.0)
  {
    match LoadHeader(s.storage)
    case Err(e) => (s, Err(e))
    case Ok(h) =>
      match EnsureValid(s, sid, now)
      case (v, Err(e)) => (v, Err(e))
      case (v, Ok(session)) => (v, Ok((h, session)))
  }

  function Persist(suite: Suite, s: Service, sid: SessionId, now: nat, plain: RecordPlain, effect: Effect, nonce: Blob)
    : (Service, Result<(), ServiceError>)
    requires Fits(plain.payload)
  {
    match Enter(s, sid, now)
    case (v, Err(e)) => (v, Err(e))
    case (v, Ok((h, session))) => Store(suite, v, h, session.vaultKey, plain, effect, nonce)
  }

  /** Two records, the second only after the first. */
  function InitIdentity(suite: Suite, s: Service, sid: SessionId, now: nat, user: RecordPlain, userEffect: Effect,
                        userNonce: Blob, device: RecordPlain, deviceEffect: Effect, deviceNonce: Blob)
    : (Service, Result<(), ServiceError>)
    requires Fits(user.payload) && Fits(device.payload)
  {
    match Enter(s, sid, now)
    case (v, Err(e)) => (v, Err(e))
    case (v, Ok((h, session))) =>
      match Store(suite, v, h, session.vaultKey, user, userEffect, userNonce)
      case (w, Err(e)) => (w, Err(e))
      case (w, Ok(_)) => Store(suite, w, h, session.vaultKey, device, deviceEffect, deviceNonce)
  }

  function Rewrapped(suite: Suite, h: Header, kdf: Kdf, passphrase: ByteString, key: Message, nonce: Blob): Option<Header>
  {
    match WrapKey(suite, h.vaultId, h.userId, kdf, passphrase, key, nonce)
    case None => None
    case Some(wrap) => Some(h.(kdf := kdf, wrap := wrap))
  }

  lemma RewrappedIsWellFormed(suite: Suite, h: Header, kdf: Kdf, passphrase: ByteString, key: Message, nonce: Blob)
    requires WellFormedHeader(h) && Rewrapped(suite, h, kdf, passphrase, key, nonce).Some?
    ensures WellFormedHeader(Rewrapped(suite, h, kdf, passphrase, key, nonce).value)
  {
    hide KeywrapAad;
  }

  function ChangePassphrase(suite: Suite, s: Service, sid: SessionId, now: nat, passphrase: ByteString, kdf: Kdf,
                            nonce: Blob): (Service, Result<(), ServiceError>)
  {
    match Enter(s, sid, now)
    case (v, Err(e)) => (v, Err(e))
    case (v, Ok((h, session))) =>
      if session.kind != StepUp then (v, Err(StepUpRequired)) else
        match Rewrapped(suite, h, kdf, passphrase, session.vaultKey, nonce)
        case None => (v, Err(CryptoError))
        case Some(h') =>
          RewrappedIsWellFormed(suite, h, kdf, passphrase, session.vaultKey, nonce);
          (v.(storage := v.storage[HeaderKey := EncodeHeader(h')]), Ok(()))
  }

  // Export and import

  function Export(s: Service, sid: SessionId, now: nat): (Service, Result<ByteString, ServiceError>) {
    match EnsureValid(s, sid, now)
    case (v, Err(e)) => (v, Err(e))
    case (v, Ok(session)) =>
      if session.kind != StepUp then (v, Err(StepUpRequired)) else (v, Exported(v.storage))
  }

  /** The header and all records, read from storage. */
  function Exported(storage: Storage): Result<ByteString, ServiceError> {
    var h :- LoadHeader(storage);
    var records :- LoadContainers(storage);
    Invalid(EncodeSnapshot(VaultSnapshot(h, records)))
  }

  function FileAll(storage: Storage, records: seq<RecordContainer>): Storage {
    if records == [] then storage else
      var last := records[|records| - 1];
      FileAll(storage, records[..|records| - 1])[RecordKey(last.recordId) := EncodeContainer(last)]
  }

  function RecordIds(records: seq<RecordContainer>): (ids: seq<Utf8>)
    ensures |ids| == |records| && forall i :: 0 <= i < |ids| ==> ids[i] == records[i].recordId
  {
    seq(|records|, i requires 0 <= i < |records| => records[i].recordId)
  }

  function Imported(storage: Storage, snapshot: VaultSnapshot): Storage
    requires WellFormedSnapshot(snapshot)
  {
    FileAll(storage[HeaderKey := EncodeHeader(snapshot.header)], snapshot.records)
      [IndexKey := IndexBytes(RecordIds(snapshot.records))]
  }

  function Import(s: Service, sid: SessionId, now: nat, blob: ByteString): (Service, Result<(), ServiceError>) {
    match EnsureValid(s, sid, now)
    case (v, Err(e)) => (v, Err(e))
    case (v, Ok(session)) =>
      if session.kind != StepUp then (v, Err(StepUpRequired)) else
        match DecodeSnapshot(blob)
        case Err(e) => (v, Err(InvalidCbor(e)))
        case Ok(snapshot) => (v.(storage := Imported(v.storage, snapshot)), Ok(()))
  }
}
