/** The key vault: a hash-chained log of encrypted records, its replay into key maps, and appending to it. */
module KeyVault {
  import opened Wrappers
  import opened Bytes
  import opened Cbor
  import opened CanonicalCbor
  import opened CborDecoding
  import opened CborFields
  import opened Formats

  const TAG_LENGTH: nat := 16
  const KEY_LENGTH: nat := 32

  /** What can be sealed: with the tag it is still a byte string that can be written. */
  type Message = m: ByteString | |m| + TAG_LENGTH < U64_LIMIT

  /** The cryptographic primitives.  seal and open take key, associated data, nonce and message. */
  datatype Suite = Suite(
    hash: ByteString -> Blob,
    seal: (ByteString, ByteString, ByteString, ByteString) -> Blob,
    open: (ByteString, ByteString, ByteString, ByteString) -> Option<Message>,
    deriveKek: (ByteString, Kdf) -> Option<ByteString>,
    userKeyOk: (Blob, Blob) -> bool)

  /** Decryption undoes encryption under the same key, associated data and nonce; sizes are those of AES-GCM and
      SHA-256. */
  ghost predicate Sound(suite: Suite) {
    && (forall k, a, n, m: Message :: suite.open(k, a, n, suite.seal(k, a, n, m)) == Some(m))
    && (forall k, a, n, m: Message :: |suite.seal(k, a, n, m)| == |m| + TAG_LENGTH)
    && (forall m :: |suite.hash(m)| == HASH_LENGTH)
  }

  /** A suite that hides nothing: a tag of zeros behind the message. */
  function PlainSuite(): Suite {
    Suite(m => Zeros(HASH_LENGTH),
          (k, a, n, m) => if |m| + TAG_LENGTH < U64_LIMIT then m + Zeros(TAG_LENGTH) else [],
          (k, a, n, c) => if TAG_LENGTH <= |c| < U64_LIMIT then Some(c[..|c| - TAG_LENGTH]) else None,
          (passphrase, kdf) => Some(Zeros(KEY_LENGTH)),
          (priv, pub) => true)
  }

  /** There are suites that satisfy the laws. */
  lemma PlainSuiteIsSound()
    ensures Sound(PlainSuite())
  {
    var s := PlainSuite();
    forall k: ByteString, a: ByteString, n: ByteString, m: Message
      ensures s.open(k, a, n, s.seal(k, a, n, m)) == Some(m) && |s.seal(k, a, n, m)| == |m| + TAG_LENGTH
    {
      assert (m + Zeros(TAG_LENGTH))[..|m|] == m;
    }
  }

  datatype VaultError =
    | SequenceMismatch | DuplicateId | ChainMismatch | DecryptFailed | BadRecord(error: FormatError) | IdMismatch
    | UnsupportedKey | BadKeyLength

  // Key maps

  datatype UserKey = UserKey(priv: Blob, pub: Blob)
  datatype DeviceKeys = DeviceKeys(edPriv: Blob, edPub: Blob, mlPriv: Blob, mlPub: Blob)
  type ScopeKeyId = (Utf8, U64)
  type ResourceKeyId = (Utf8, Utf8)

  datatype KeyMaps = KeyMaps(
    userKey: Option<UserKey>, deviceKeys: map<Utf8, DeviceKeys>, scopeKeys: map<ScopeKeyId, Blob>,
    resourceKeys: map<ResourceKeyId, Blob>)

  const NO_KEYS: KeyMaps := KeyMaps(None, map[], map[], map[])

  /** What a decoded record does to the key maps; other kinds do nothing. */
  datatype Effect =
    | SetUserKey(user: UserKey) | SetDevice(device: Utf8, keys: DeviceKeys)
    | SetScope(scope: ScopeKeyId, key: Blob) | SetResource(resource: ResourceKeyId, key: Blob) | NoEffect

  function EffectOf(suite: Suite, r: RecordPlain): Result<Effect, FormatError> {
    if r.kind == 1 then
      var m :- AsMap(r.payload);
      var priv :- ReqBytes(m, 0);
      var pub :- ReqBytes(m, 1);
      if suite.userKeyOk(priv, pub) then Ok(SetUserKey(UserKey(priv, pub))) else Err(UnknownId)
    else if r.kind == 2 then
      var m :- AsMap(r.payload);
      var device :- ReqText(m, 0);
      var edPriv :- ReqBytes(m, 1);
      var edPub :- ReqBytes(m, 2);
      var _ :- ReqName(m, 3, HYBRID_SIG_1);
      var mlPriv :- ReqBytes(m, 4);
      var mlPub :- ReqBytes(m, 5);
      Ok(SetDevice(device, DeviceKeys(edPriv, edPub, mlPriv, mlPub)))
    else if r.kind == 3 then
      var m :- AsMap(r.payload);
      var scope :- ReqText(m, 0);
      var epoch :- ReqUint(m, 1);
      var key :- ReqBytes(m, 2);
      Ok(SetScope((scope, epoch), key))
    else if r.kind == 4 then
      var m :- AsMap(r.payload);
      var resource :- ReqText(m, 0);
      var keyId :- ReqText(m, 1);
      var key :- ReqBytes(m, 2);
      Ok(SetResource((resource, keyId), key))
    else Ok(NoEffect)
  }

  function ApplyEffect(keys: KeyMaps, e: Effect): KeyMaps {
    match e
    case SetUserKey(user) => keys.(userKey := Some(user))
    case SetDevice(device, d) => keys.(deviceKeys := keys.deviceKeys[device := d])
    case SetScope(scope, key) => keys.(scopeKeys := keys.scopeKeys[scope := key])
    case SetResource(resource, key) => keys.(resourceKeys := keys.resourceKeys[resource := key])
    case NoEffect => keys
  }

  // The log

  datatype Vault = Vault(headSequence: nat, headHash: Blob, records: seq<RecordContainer>)

  function Zeros(n: nat): (r: ByteString)
    ensures |r| == n && forall i :: 0 <= i < n ==> r[i] == 0
  {
    if n == 0 then [] else Zeros(n - 1) + [0]
  }

  const GENESIS_HASH: Blob := Zeros(HASH_LENGTH)
  const EMPTY_VAULT: Vault := Vault(0, GENESIS_HASH, [])

  /** "mo-keyvault-record-aad-v1" */
  const RECORD_TAG: Utf8 := Ascii([109, 111, 45, 107, 101, 121, 118, 97, 117, 108, 116, 45, 114, 101, 99, 111, 114, 100,
                                   45, 97, 97, 100, 45, 118, 49])

  lemma TextsFit(texts: seq<Utf8>)
    requires |texts| <= KEY_LIMIT
    ensures Fits(MapOf(Numbered(0, TextValues(texts))))
  {
    hide IsUtf8;
    RisingFits(Numbered(0, TextValues(texts)));
  }

  function TextValues(texts: seq<Utf8>): (r: seq<Value>)
    ensures |r| == |texts| && forall i :: 0 <= i < |r| ==> r[i] == Text(texts[i])
  {
    seq(|texts|, i requires 0 <= i < |texts| => Text(texts[i]))
  }

  /** What a record's encryption is bound to: the vault, the user and the record's id. */
  function RecordAad(header: Header, recordId: Utf8): ByteString {
    var texts := [RECORD_TAG, header.vaultId, header.userId, AEAD_1, recordId];
    TextsFit(texts);
    EncodeCanonical(MapOf(Numbered(0, TextValues(texts))))
  }

  function HashOf(suite: Suite, c: RecordContainer): Blob {
    suite.hash(EncodeContainer(c))
  }

  /** Decrypting and decoding one container. */
  function OpenRecord(suite: Suite, header: Header, key: ByteString, c: RecordContainer)
    : Result<RecordPlain, VaultError>
  {
    if |key| != KEY_LENGTH || |c.nonce| != NONCE_LENGTH then Err(DecryptFailed) else
      match suite.open(key, RecordAad(header, c.recordId), c.nonce, c.ct)
      case None => Err(DecryptFailed)
      case Some(plaintext) =>
        match DecodePlain(plaintext)
        case Err(e) => Err(BadRecord(e))
        case Ok(r) => if r.recordId != c.recordId then Err(IdMismatch) else Ok(r)
  }

  /** The state of the replay between two containers. */
  datatype Replayed = Replayed(vault: Vault, keys: KeyMaps, expected: nat, seen: set<Utf8>)

  const START: Replayed := Replayed(EMPTY_VAULT, NO_KEYS, 1, {})

  function ReplayOne(suite: Suite, header: Header, key: ByteString, p: Replayed, c: RecordContainer)
    : Result<Replayed, VaultError>
  {
    if c.sequence != p.expected then Err(SequenceMismatch)
    else if c.recordId in p.seen then Err(DuplicateId)
    else if c.prevHash != p.vault.headHash then Err(ChainMismatch)
    else
      var r :- OpenRecord(suite, header, key, c);
      match EffectOf(suite, r)
      case Err(e) => Err(BadRecord(e))
      case Ok(effect) =>
        Ok(Replayed(Vault(c.sequence, HashOf(suite, c), p.vault.records + [c]), ApplyEffect(p.keys, effect),
                    if p.expected < U64_LIMIT - 1 then p.expected + 1 else p.expected, p.seen + {c.recordId}))
  }

  function ReplayAll(suite: Suite, header: Header, key: ByteString, containers: seq<RecordContainer>)
    : Result<Replayed, VaultError>
  {
    if containers == [] then Ok(START) else
      var front :- ReplayAll(suite, header, key, containers[..|containers| - 1]);
      ReplayOne(suite, header, key, front, containers[|containers| - 1])
  }

  function PlaceBySequence(sorted: seq<RecordContainer>, c: RecordContainer): (r: seq<RecordContainer>)
    ensures |r| == |sorted| + 1 && forall x :: x in r ==> x in sorted || x == c
  {
    if sorted == [] || sorted[|sorted| - 1].sequence <= c.sequence then sorted + [c]
    else PlaceBySequence(sorted[..|sorted| - 1], c) + [sorted[|sorted| - 1]]
  }

  /** A stable sort. */
  function SortBySequence(containers: seq<RecordContainer>): (r: seq<RecordContainer>)
    ensures |r| == |containers| && forall x :: x in r ==> x in containers
  {
    if containers == [] then []
    else PlaceBySequence(SortBySequence(containers[..|containers| - 1]), containers[|containers| - 1])
  }

  function Apply(suite: Suite, header: Header, key: ByteString, containers: seq<RecordContainer>)
    : Result<(Vault, KeyMaps), VaultError>
  {
    match ReplayAll(suite, header, key, SortBySequence(containers))
    case Err(e) => Err(e)
    case Ok(p) => Ok((p.vault, p.keys))
  }

  method ApplyContainers(suite: Suite, header: Header, key: ByteString, containers: seq<RecordContainer>)
    returns (r: Result<(Vault, KeyMaps), VaultError>)
    ensures r == Apply(suite, header, key, containers)
  {
    hide OpenRecord, EffectOf, HashOf, SortBySequence;
    var sorted := SortBySequence(containers);
    var headSequence, headHash, records: seq<RecordContainer> := 0, GENESIS_HASH, [];
    var keys, expected, seen: set<Utf8> := NO_KEYS, 1, {};
    for k := 0 to |sorted|
      invariant ReplayAll(suite, header, key, sorted[..k]) ==
                  Ok(Replayed(Vault(headSequence, headHash, records), keys, expected, seen))
    {
      var c := sorted[k];
      ghost var now := Replayed(Vault(headSequence, headHash, records), keys, expected, seen);
      assert sorted[..k + 1][..k] == sorted[..k];
      assert ReplayAll(suite, header, key, sorted[..k + 1]) == ReplayOne(suite, header, key, now, c);
      if ReplayOne(suite, header, key, now, c).Err? {
        FirstErrorStands(suite, header, key, sorted, k + 1);
      }
      if c.sequence != expected {
        return Err(SequenceMismatch);
      }
      expected := if expected < U64_LIMIT - 1 then expected + 1 else expected;
      if c.recordId in seen {
        return Err(DuplicateId);
      }
      seen := seen + {c.recordId};
      var hash := HashOf(suite, c);
      if c.prevHash != headHash {
        return Err(ChainMismatch);
      }
      var plain := OpenRecord(suite, header, key, c);
      if plain.Err? {
        return Err(plain.error);
      }
      var effect := EffectOf(suite, plain.value);
      if effect.Err? {
        return Err(BadRecord(effect.error));
      }
      keys := ApplyEffect(keys, effect.value);
      headSequence, headHash, records := c.sequence, hash, records + [c];
    }
    assert sorted[..|sorted|] == sorted;
    return Ok((Vault(headSequence, headHash, records), keys));
  }

  lemma {:induction false} FirstErrorStands(suite: Suite, header: Header, key: ByteString,
                                            containers: seq<RecordContainer>, k: nat)
    requires k <= |containers| && ReplayAll(suite, header, key, containers[..k]).Err?
    ensures ReplayAll(suite, header, key, containers) == ReplayAll(suite, header, key, containers[..k])
    decreases |containers|
  {
    hide ReplayOne;
    if k == |containers| {
      assert containers[..k] == containers;
    } else {
      var init := containers[..|containers| - 1];
      assert init[..k] == containers[..k];
      FirstErrorStands(suite, header, key, init, k);
    }
  }

  // Appending

  /** A new record sealed and chained to the head; nothing changes when it is refused. */
  function Append(suite: Suite, header: Header, key: ByteString, vault: Vault, plain: RecordPlain, sequence: U64,
                  nonce: Blob): Result<(Vault, RecordContainer), VaultError>
    requires Fits(plain.payload)
  {
    if sequence != vault.headSequence + 1 then Err(SequenceMismatch)
    else if exists i :: 0 <= i < |vault.records| && vault.records[i].recordId == plain.recordId then Err(DuplicateId)
    else if |key| != KEY_LENGTH || |nonce| != NONCE_LENGTH then Err(BadKeyLength)
    else
      var ct := suite.seal(key, RecordAad(header, plain.recordId), nonce, EncodePlain(plain));
      var c := RecordContainer(1, sequence, vault.headHash, plain.recordId, nonce, ct);
      Ok((Vault(sequence, HashOf(suite, c), vault.records + [c]), c))
  }

  /** A record that survives encoding and whose effect the replay accepts. */
  ghost predicate Recordable(suite: Suite, plain: RecordPlain) {
    Fits(plain.payload) && IsCanonical(plain.payload) && Encodable(PlainValue(plain)) && EffectOf(suite, plain).Ok?
  }

  // What an accepted log looks like

  function IdsOf(records: seq<RecordContainer>): set<Utf8> {
    set i | 0 <= i < |records| :: records[i].recordId
  }

  /** The record carries the hash of the one before. */
  ghost predicate Linked(suite: Suite, records: seq<RecordContainer>, i: nat)
    requires i < |records|
  {
    records[i].prevHash == if i == 0 then GENESIS_HASH else HashOf(suite, records[i - 1])
  }

  ghost predicate Chained(suite: Suite, records: seq<RecordContainer>) {
    && (forall i :: 0 <= i < |records| ==> records[i].sequence == i + 1)
    && (forall i :: 0 <= i < |records| ==> Linked(suite, records, i))
    && (forall i, j :: 0 <= i < j < |records| ==> records[i].recordId != records[j].recordId)
  }

  function VaultOf(suite: Suite, records: seq<RecordContainer>): Vault {
    if records == [] then EMPTY_VAULT
    else Vault(|records|, HashOf(suite, records[|records| - 1]), records)
  }

  /** The chain numbers its records 1, 2, ..., links each to the one before, and names each once; the state is
      determined by the records. */
  lemma {:induction false} ReplayedIsChained(suite: Suite, header: Header, key: ByteString,
                                             records: seq<RecordContainer>)
    requires |records| < U64_LIMIT && ReplayAll(suite, header, key, records).Ok?
    ensures Chained(suite, records)
    ensures var p := ReplayAll(suite, header, key, records).value;
            p.vault == VaultOf(suite, records) && p.seen == IdsOf(records)
            && p.expected == if |records| < U64_LIMIT - 1 then |records| + 1 else |records|
  {
    hide OpenRecord, EffectOf, HashOf, Chained, IdsOf, ApplyEffect;
    if records == [] {
      NoneChained(suite);
    } else {
      var init, c := records[..|records| - 1], records[|records| - 1];
      ReplayedIsChained(suite, header, key, init);
      assert records == init + [c];
      IdsSnoc(init, c);
      ChainedSnoc(suite, init, c);
    }
  }

  lemma NoneChained(suite: Suite)
    ensures Chained(suite, []) && IdsOf([]) == {}
  {
  }

  lemma ChainedSnoc(suite: Suite, records: seq<RecordContainer>, c: RecordContainer)
    requires Chained(suite, records) && c.sequence == |records| + 1 && c.recordId !in IdsOf(records)
    requires c.prevHash == VaultOf(suite, records).headHash
    ensures Chained(suite, records + [c])
  {
    hide HashOf;
    var r := records + [c];
    forall i, j | 0 <= i < j < |r| ensures r[i].recordId != r[j].recordId {
      assert records[i].recordId in IdsOf(records);
    }
    forall i: nat | i < |r| ensures Linked(suite, r, i) {
      if i < |records| { assert Linked(suite, records, i); }
    }
  }

  lemma IdsSnoc(records: seq<RecordContainer>, c: RecordContainer)
    ensures IdsOf(records + [c]) == IdsOf(records) + {c.recordId}
  {
    var r := records + [c];
    assert forall i :: 0 <= i < |records| ==> r[i] == records[i];
    assert r[|records|] == c;
    forall id | id in IdsOf(records) + {c.recordId} ensures id in IdsOf(r) {
      if id in IdsOf(records) {
        var i :| 0 <= i < |records| && records[i].recordId == id;
        assert r[i].recordId == id;
      }
    }
  }

  lemma RecordableIsMessage(suite: Suite, plain: RecordPlain)
    requires Recordable(suite, plain)
    ensures |EncodePlain(plain)| + TAG_LENGTH < U64_LIMIT
  {
  }

  lemma OpenOfSealed(suite: Suite, header: Header, key: ByteString, plain: RecordPlain, c: RecordContainer)
    requires Sound(suite) && Recordable(suite, plain) && |key| == KEY_LENGTH && |c.nonce| == NONCE_LENGTH
    requires c.recordId == plain.recordId
    requires c.ct == suite.seal(key, RecordAad(header, plain.recordId), c.nonce, EncodePlain(plain))
    ensures OpenRecord(suite, header, key, c) == Ok(plain)
  {
    hide RecordAad, EncodePlain, DecodePlain, PlainValue, Encodable, EffectOf, IsCanonical;
    PlainRoundTrip(plain);
    RecordableIsMessage(suite, plain);
  }

  /** Appending to a log that replays gives a log that replays, with exactly the record's effect on the keys. */
  lemma AppendKeepsReplay(suite: Suite, header: Header, key: ByteString, p: Replayed, plain: RecordPlain,
                          sequence: U64, nonce: Blob)
    requires Sound(suite) && Recordable(suite, plain)
    requires |p.vault.records| + 1 < U64_LIMIT && ReplayAll(suite, header, key, p.vault.records) == Ok(p)
    requires Append(suite, header, key, p.vault, plain, sequence, nonce).Ok?
    ensures var (vault, c) := Append(suite, header, key, p.vault, plain, sequence, nonce).value;
            && vault.records == p.vault.records + [c] && WellFormedContainer(c) && c.sequence == sequence
            && ReplayAll(suite, header, key, vault.records).Ok?
            && ReplayAll(suite, header, key, vault.records).value.vault == vault
            && ReplayAll(suite, header, key, vault.records).value.keys
               == ApplyEffect(p.keys, EffectOf(suite, plain).value)
  {
    hide RecordAad, EncodePlain, OpenRecord, EffectOf, HashOf, Recordable, Chained, ApplyEffect;
    RecordableEffect(suite, plain);
    var (vault, c) := Append(suite, header, key, p.vault, plain, sequence, nonce).value;
    ReplayedIsChained(suite, header, key, p.vault.records);
    OpenOfSealed(suite, header, key, plain, c);
    assert |p.vault.headHash| == HASH_LENGTH by { HeadHashLength(suite, p.vault.records); }
    assert c.recordId !in p.seen;
    assert vault.records[..|vault.records| - 1] == p.vault.records;
  }

  lemma RecordableEffect(suite: Suite, plain: RecordPlain)
    requires Recordable(suite, plain)
    ensures Fits(plain.payload) && EffectOf(suite, plain).Ok?
  {
  }

  lemma HeadHashLength(suite: Suite, records: seq<RecordContainer>)
    requires Sound(suite)
    ensures |VaultOf(suite, records).headHash| == HASH_LENGTH
  {
  }
}
