/** The vault at its limit: a run that fills it, and the record too many that makes it unloadable. */
module VaultLimit {
  import opened Wrappers
  import opened Bytes
  import opened Cbor
  import opened CanonicalCbor
  import opened CborDecoding
  import opened CborFields
  import opened Formats
  import opened KeyVault
  import opened KeyVaultReplay
  import opened VaultStorage
  import opened VaultService
  import opened VaultRuns
  import opened VaultSteps

  // What fits the limits

  /** Canonical, at most so many bytes long, and nested at most so deep. */
  ghost predicate Light(v: Value, levels: nat, size: nat) {
    && Fits(v) && IsCanonical(v) && |Encode(v)| <= size
    && forall depth: nat :: depth + levels <= DEFAULT_LIMITS.maxDepth ==> InLimits(v, DEFAULT_LIMITS, depth)
  }

  lemma LeafIsLight(v: Value, body: nat)
    requires IsLeaf(v) && (v.Int? ==> v.n >= 0) && body <= 1000
    requires (v.Bin? ==> |v.bytes| <= body) && (v.Text? ==> |v.text| <= body)
    ensures Light(v, 0, 9 + body)
  {
    hide IsUtf8, Head;
    LeafIsCanonical(v);
    match v
    case Int(n) => HeadLength(0, n);
    case Bin(b) => HeadLength(2, |b|);
    case Text(t) => HeadLength(3, |t|);
  }

  lemma Heavier(v: Value, levels: nat, size: nat, levels': nat, size': nat)
    requires Light(v, levels, size) && levels <= levels' && size <= size'
    ensures Light(v, levels', size')
  {
    hide Fits, IsCanonical, Encode, InLimits;
  }

  lemma {:induction false} EntriesAtMost(entries: seq<Entry>, size: nat)
    requires EntriesFit(entries) && forall i :: 0 <= i < |entries| ==> |EncodeEntry(entries[i])| <= size
    ensures |EncodeEntries(entries)| <= |entries| * size
    decreases |entries|
  {
    hide EncodeEntry, Fits;
    if entries != [] {
      EntriesAtMost(entries[1..], size);
      assert |entries| * size == size + |entries[1..]| * size;
    }
  }

  function RecordSize(n: nat, size: nat): nat { 9 + n * (1 + size) }

  lemma RecordIsLight(fields: seq<Field>, levels: nat, size: nat)
    requires Rising(fields) && forall i :: 0 <= i < |fields| ==> Light(fields[i].value, levels, size)
    ensures Light(MapOf(fields), levels + 1, RecordSize(|fields|, size))
  {
    hide IsUtf8, Encode, Less, Head, KeysAscend, RecordSize;
    RisingIsCanonical(fields);
    RecordLength(fields, size);
    var entries := MapOf(fields).entries;
    forall depth: nat | depth + levels + 1 <= DEFAULT_LIMITS.maxDepth ensures InLimits(MapOf(fields), DEFAULT_LIMITS, depth) {
      forall i | 0 <= i < |entries| ensures InLimits(entries[i].value, DEFAULT_LIMITS, depth + 1) {
        assert Light(fields[i].value, levels, size);
      }
    }
  }

  lemma RecordLength(fields: seq<Field>, size: nat)
    requires Rising(fields) && forall i :: 0 <= i < |fields| ==> |Encode(fields[i].value)| <= size
    ensures Fits(MapOf(fields)) && |Encode(MapOf(fields))| <= RecordSize(|fields|, size)
  {
    hide IsUtf8, Head, Rising;
    RisingFits(fields);
    var entries := MapOf(fields).entries;
    forall i | 0 <= i < |entries| ensures |EncodeEntry(entries[i])| <= 1 + size {
      SmallKeys(fields[i].key, 0);
    }
    EntriesAtMost(entries, 1 + size);
    HeadLength(5, |fields|);
    MapLength(MapOf(fields));
  }

  lemma LightIsEncodable(v: Value, levels: nat, size: nat)
    requires Light(v, levels, size) && levels <= DEFAULT_LIMITS.maxDepth && size <= DEFAULT_LIMITS.maxBytes
    ensures Encodable(v) && |EncodeCanonical(v)| <= size
  {
    hide Fits, IsCanonical, Encode, InLimits, Canon;
    CanonicalFixed(v);
  }

  // Records and headers that fit

  lemma ScopeRecordIsSmall(recordId: Utf8, scope: ScopeKeyId, key: Blob)
    requires |recordId| == ID_LENGTH && |scope.0| <= 1000 && |key| <= 1000
    ensures SmallRecord(StoreScopeKey(recordId, scope, key))
  {
    hide IsUtf8, Encode, Fits, IsCanonical, InLimits, Light, Rising, EncodeCanonical, Canon, Encodable;
    var values := [Text(scope.0), Int(scope.1), Bin(key)];
    LeavesRecord(values);
    var plain := StoreScopeKey(recordId, scope, key);
    forall i | 0 <= i < 3 ensures Light(Numbered(0, values)[i].value, 0, 1009) {
      LeafIsLight(values[i], 1000);
    }
    RecordIsLight(Numbered(0, values), 0, 1009);
    PlainRises(plain);
    var f := PlainFields(plain);
    LeafIsLight(f[0].value, 1000);
    LeafIsLight(f[1].value, 1000);
    forall i | 0 <= i < 3 ensures Light(f[i].value, 1, 3039) {
      Heavier(f[i].value, if i < 2 then 0 else 1, if i < 2 then 1009 else 3039, 1, 3039);
    }
    RecordIsLight(f, 1, 3039);
    LightIsEncodable(PlainValue(plain), 2, 9129);
  }

  predicate SmallKdf(kdf: Kdf) { |kdf.id| <= 1000 && |kdf.salt| <= 1000 }

  lemma KdfIsLight(kdf: Kdf)
    requires SmallKdf(kdf)
    ensures Light(MapOf(KdfFields(kdf)), 2, 9129)
  {
    hide IsUtf8, Encode, Fits, IsCanonical, InLimits, Light;
    var p, f := KdfParamFields(kdf), KdfFields(kdf);
    forall i | 0 <= i < 3 ensures Light(p[i].value, 0, 1009) {
      LeafIsLight(p[i].value, 1000);
    }
    KdfRises(kdf);
    RecordIsLight(p, 0, 1009);
    LeafIsLight(f[0].value, 1000);
    LeafIsLight(f[1].value, 1000);
    forall i | 0 <= i < 3 ensures Light(f[i].value, 1, 3039) {
      Heavier(f[i].value, if i < 2 then 0 else 1, if i < 2 then 1009 else 3039, 1, 3039);
    }
    RecordIsLight(f, 1, 3039);
  }

  lemma KdfRises(kdf: Kdf)
    ensures Rising(KdfParamFields(kdf)) && Rising(KdfFields(kdf))
  {
    hide IsUtf8;
    RisingFits(KdfParamFields(kdf));
  }

  lemma WrapIsLight(w: VaultKeyWrap)
    requires |w.nonce| <= 1000 && |w.ct| <= 1000
    ensures Light(MapOf(WrapFields(w)), 1, 3039)
  {
    hide IsUtf8, Ascii, Encode, Fits, IsCanonical, InLimits, Light;
    var f := WrapFields(w);
    assert Rising(f) by { WrapRises(w); }
    assert |AEAD_1| == 6 by { AeadLength(); }
    forall i | 0 <= i < 3 ensures Light(f[i].value, 0, 1009) {
      LeafIsLight(f[i].value, 1000);
    }
    RecordIsLight(f, 0, 1009);
  }

  lemma WrapRises(w: VaultKeyWrap)
    ensures Rising(WrapFields(w))
  {
    hide IsUtf8, Ascii;
  }

  lemma AeadLength()
    ensures |AEAD_1| == 6
  {
    hide IsUtf8;
  }

  lemma EmptyArrayIsLight()
    ensures Light(Array([]), 0, 9)
  {
    HeadLength(4, 0);
  }

  /** The header of a new vault. */
  lemma NewHeaderIsSmall(h: Header)
    requires WellFormedHeader(h) && h.records == [] && SmallKdf(h.kdf)
    requires |h.vaultId| <= 1000 && |h.userId| <= 1000 && |h.wrap.ct| <= 1000
    ensures Fits(HeaderValue(h)) && Encodable(HeaderValue(h))
  {
    hide IsUtf8, Ascii, Encode, Fits, IsCanonical, InLimits, Light, Rising, MapOf, KdfFields, WrapFields, Encodable;
    HeaderRises(h);
    KdfIsLight(h.kdf);
    WrapIsLight(h.wrap);
    EmptyArrayIsLight();
    AeadLength();
    var f := HeaderFields(h);
    assert ContainerValues(h.records) == [];
    forall i | 0 <= i < 7 ensures Light(f[i].value, 2, 9129) {
      if i == 3 {
      } else if i == 5 {
        Heavier(f[i].value, 0, 9, 2, 9129);
      } else if i == 6 {
        Heavier(f[i].value, 1, 3039, 2, 9129);
      } else {
        LeafIsLight(f[i].value, 1000);
        Heavier(f[i].value, 0, 1009, 2, 9129);
      }
    }
    RecordIsLight(f, 2, 9129);
    LightIsEncodable(HeaderValue(h), 3, 63919);
  }

  // The run that fills a vault

  /** Distinct ids of the right length, by the digits of a number. */
  function Id(n: nat): (id: Utf8)
    requires n <= 4096
    ensures |id| == ID_LENGTH && id[0] == 48 + n / 64 && id[1] == 48 + n % 64
  {
    var digits := [48 + n / 64, 48 + n % 64] + Zeros(ID_LENGTH - 2);
    AsciiIsUtf8(digits);
    digits
  }

  function Ids(n: nat): (ids: seq<Utf8>)
    requires n <= 4096
    ensures |ids| == n && forall i :: 0 <= i < n ==> ids[i] == Id(i)
  {
    seq(n, i requires 0 <= i < n => Id(i))
  }

  lemma NewId(n: nat)
    requires n <= 4096
    ensures Id(n) !in Ids(n)
  {
    forall i | 0 <= i < n ensures Ids(n)[i] != Id(n) {
      assert 64 * (i / 64) + i % 64 == i && 64 * (n / 64) + n % 64 == n;
      assert Id(i)[0] != Id(n)[0] || Id(i)[1] != Id(n)[1];
    }
  }

  const NO_TEXT: Utf8 := Ascii([])
  const SESSION: SessionId := "s"
  const NONCE: Blob := Zeros(NONCE_LENGTH)
  const VAULT_KEY: Message := Zeros(KEY_LENGTH)

  function ScopeOf(n: nat): ScopeKeyId
    requires n <= 4096
  {
    (NO_TEXT, n)
  }

  function Storing(n: nat): Step
    requires n <= 4096
  {
    PersistScopeKey(SESSION, 0, Id(n), ScopeOf(n), [], Id(n)[..NONCE_LENGTH])
  }

  function StoringAll(from: nat, n: nat): (steps: seq<Step>)
    requires from <= n <= 4096
    decreases n - from
  {
    if from == n then [] else [Storing(from)] + StoringAll(from + 1, n)
  }

  /** A new vault, unlocked, with n records stored. */
  function Filling(passphrase: ByteString, kdf: Kdf, n: nat): seq<Step>
    requires n <= 4096
  {
    [Create(NO_TEXT, passphrase, kdf, NO_TEXT, VAULT_KEY, NONCE), UnlockWith(passphrase, 0, 0, SESSION)] + StoringAll(0, n)
  }

  /** The vault is in memory, under a session that has not run out. */
  ghost predicate Open(s: Service) {
    && s.state.Some? && SESSION in s.sessions && s.sessions[SESSION] == Session(0, Normal, VAULT_KEY)
    && LoadHeader(s.storage).Ok?
  }

  lemma ScopeRecordIsStorable(suite: Suite, n: nat)
    requires n <= 4096
    ensures var plain := StoreScopeKey(Id(n), ScopeOf(n), []);
            SmallRecord(plain) && Storable(suite, plain, SetScope(ScopeOf(n), [])) && plain.recordId == Id(n)
  {
    hide IsUtf8, SmallRecord, EffectOf, IsCanonical, MapOf;
    assert |NO_TEXT| == 0;
    ScopeRecordIsSmall(Id(n), ScopeOf(n), []);
    StoredScopeKey(suite, Id(n), ScopeOf(n), []);
  }

  function Stored(suite: Suite, s: Service, n: nat): (Service, Result<(), ServiceError>)
    requires n <= 4096
  {
    Persist(suite, s, SESSION, 0, StoreScopeKey(Id(n), ScopeOf(n), []), SetScope(ScopeOf(n), []), Id(n)[..NONCE_LENGTH])
  }

  /** Storing record n into an open vault with the first n. */
  lemma StoreNext(suite: Suite, s: Service, n: nat, containers: seq<RecordContainer>) returns (c: RecordContainer)
    requires Sound(suite) && n <= 4096 && Open(s) && OkWith(suite, s, Ids(n), containers)
    ensures var (after, r) := Stored(suite, s, n);
            && r.Ok? && Open(after) && Count(s) == n
            && LoadHeader(after.storage) == LoadHeader(s.storage)
            && (n < 4096 ==> OkWith(suite, after, Ids(n + 1), containers + [c]))
            && (n == 4096 ==> LoadContainers(after.storage).Err?)
  {
    hide IsUtf8, OkWith, Store, Storable, LoadHeader, StoreScopeKey, LoadContainers, EnsureValid, SmallRecord, Id;
    var h, plain, effect := LoadHeader(s.storage).value, StoreScopeKey(Id(n), ScopeOf(n), []), SetScope(ScopeOf(n), []);
    var nonce: Blob := Id(n)[..NONCE_LENGTH];
    ScopeRecordIsStorable(suite, n);
    NewId(n);
    CountIs(suite, s, Ids(n), containers);
    SameLength(suite, s, Ids(n), containers);
    StoreSucceedsIff(suite, s, h, SESSION, plain, effect, nonce, Ids(n), containers);
    c := StoreKeepsOk(suite, s, h, SESSION, plain, effect, nonce, Ids(n), containers);
    assert Enter(s, SESSION, 0) == (s, Ok((h, s.sessions[SESSION]))) by { Entered(s); }
    assert n < 4096 ==> Ids(n + 1) == Ids(n) + [Id(n)];
  }

  lemma SameLength(suite: Suite, s: Service, ids: seq<Utf8>, containers: seq<RecordContainer>)
    requires OkWith(suite, s, ids, containers)
    ensures |containers| == |ids|
  {
    hide InStep, AllUuids, IsUtf8;
  }

  lemma Entered(s: Service)
    requires Open(s)
    ensures Enter(s, SESSION, 0) == (s, Ok((LoadHeader(s.storage).value, s.sessions[SESSION])))
  {
    hide LoadHeader;
  }

  lemma {:induction false} StoreRest(suite: Suite, s: Service, from: nat, n: nat, containers: seq<RecordContainer>)
    returns (all: seq<RecordContainer>)
    requires Sound(suite) && from <= n <= 4096 && Open(s) && OkWith(suite, s, Ids(from), containers)
    ensures Legal(suite, s, StoringAll(from, n))
    ensures var after := Run(suite, s, StoringAll(from, n)); Open(after) && OkWith(suite, after, Ids(n), all)
    decreases n - from
  {
    hide IsUtf8, OkWith, Persist, Storable, LoadHeader, StoreScopeKey, SmallRecord, Id, Open, Count;
    all := containers;
    if from < n {
      var steps := StoringAll(from, n);
      assert steps[0] == Storing(from) && steps[1..] == StoringAll(from + 1, n);
      var c := StoreNext(suite, s, from, containers);
      ScopeRecordIsStorable(suite, from);
      all := StoreRest(suite, Next(suite, s, Storing(from)), from + 1, n, containers + [c]);
    }
  }

  /** Creating and unlocking a vault: it is empty and open. */
  lemma NewVaultIsOpen(suite: Suite, passphrase: ByteString, kdf: Kdf)
    requires Sound(suite) && SmallKdf(kdf) && suite.deriveKek(passphrase, kdf).Some?
    ensures var s := Unlock(suite, CreateVault(suite, IDLE, NO_TEXT, passphrase, kdf, NO_TEXT, VAULT_KEY, NONCE).0,
                            passphrase, 0, 0, SESSION).0;
            Open(s) && OkWith(suite, s, [], [])
  {
    hide IsUtf8, KeywrapAad, EncodeHeader, DecodeHeader, HeaderValue, Encodable, Tidy, LoadContainers;
    var wrap := WrapKey(suite, NO_TEXT, NO_TEXT, kdf, passphrase, VAULT_KEY, NONCE).value;
    var h := Header(1, NO_TEXT, NO_TEXT, kdf, Aead1, [], wrap);
    assert |NO_TEXT| == 0;
    NewHeaderIsSmall(h);
    HeaderRoundTrip(h);
    UnwrapOfWrap(suite, h, passphrase, VAULT_KEY, NONCE);
    var storage := IDLE.storage[HeaderKey := EncodeHeader(h)][IndexKey := []];
    EmptyIsTidy(storage);
    TidyLoads(storage, [], []);
    var s := Unlock(suite, CreateVault(suite, IDLE, NO_TEXT, passphrase, kdf, NO_TEXT, VAULT_KEY, NONCE).0,
                    passphrase, 0, 0, SESSION).0;
    assert InStepWith(suite, s, [], s.sessions[SESSION].vaultKey);
  }

  /** Under any sound suite a vault can be filled, by a run that meets every hypothesis, to any number of records up
      to 4096. */
  lemma VaultFills(suite: Suite, passphrase: ByteString, kdf: Kdf, n: nat) returns (containers: seq<RecordContainer>)
    requires Sound(suite) && SmallKdf(kdf) && suite.deriveKek(passphrase, kdf).Some? && n <= 4096
    ensures Legal(suite, IDLE, Filling(passphrase, kdf, n))
    ensures var s := Run(suite, IDLE, Filling(passphrase, kdf, n)); Open(s) && OkWith(suite, s, Ids(n), containers)
  {
    hide IsUtf8, OkWith, CreateVault, Unlock, Open, StoringAll, Id;
    var steps := Filling(passphrase, kdf, n);
    var made := Next(suite, IDLE, steps[0]);
    var open := Next(suite, made, steps[1]);
    NewVaultIsOpen(suite, passphrase, kdf);
    assert Ids(0) == [];
    containers := StoreRest(suite, open, 0, n, []);
    assert steps[1..][0] == steps[1] && steps[1..][1..] == StoringAll(0, n);
    assert made.sessions == map[] by { NotLoggedIn(suite, passphrase, kdf); }
  }

  lemma NotLoggedIn(suite: Suite, passphrase: ByteString, kdf: Kdf)
    ensures CreateVault(suite, IDLE, NO_TEXT, passphrase, kdf, NO_TEXT, VAULT_KEY, NONCE).0.sessions == map[]
  {
    hide KeywrapAad, EncodeHeader;
  }

  /** One record more than 4096 is stored, with success, and from then on the vault cannot be loaded: locking it and
      unlocking it again fails. */
  lemma FullVaultIsLost(suite: Suite, passphrase: ByteString, kdf: Kdf)
    requires Sound(suite) && SmallKdf(kdf) && suite.deriveKek(passphrase, kdf).Some?
    ensures Legal(suite, IDLE, Filling(passphrase, kdf, 4096))
    ensures var s := Run(suite, IDLE, Filling(passphrase, kdf, 4096)); Count(s) == 4096 && LostByStoring(suite, s, passphrase)
  {
    hide IsUtf8, OkWith, Filling, Legal, Run, LoadContainers, LoadHeader, Open, LostByStoring;
    var containers := VaultFills(suite, passphrase, kdf, 4096);
    var s := Run(suite, IDLE, Filling(passphrase, kdf, 4096));
    var c := StoreNext(suite, s, 4096, containers);
    CannotReopen(suite, s, passphrase);
  }

  /** The 4097th record is stored, yet after locking the vault cannot be unlocked. */
  ghost predicate LostByStoring(suite: Suite, s: Service, passphrase: ByteString) {
    var (after, r) := Stored(suite, s, 4096);
    && r.Ok? && Lock(after, SESSION).1.Ok?
    && Unlock(suite, Lock(after, SESSION).0, passphrase, 0, 0, SESSION).1.Err?
  }

  lemma CannotReopen(suite: Suite, s: Service, passphrase: ByteString)
    requires var (after, r) := Stored(suite, s, 4096); r.Ok? && Open(after) && LoadContainers(after.storage).Err?
    ensures LostByStoring(suite, s, passphrase)
  {
    hide Stored, LoadContainers, LoadHeader, UnwrapKey;
  }

  /** And there is such a suite, so there is such a run. */
  lemma SomeVaultIsLost()
    ensures var suite, kdf := PlainSuite(), Kdf(NO_TEXT, [], 0, 0, 0);
            && Sound(suite) && Legal(suite, IDLE, Filling([], kdf, 4096))
            && LostByStoring(suite, Run(suite, IDLE, Filling([], kdf, 4096)), [])
  {
    hide IsUtf8, Filling, Legal, Run, LostByStoring;
    var kdf := Kdf(NO_TEXT, [], 0, 0, 0);
    assert |NO_TEXT| == 0;
    PlainSuiteIsSound();
    FullVaultIsLost(PlainSuite(), [], kdf);
  }
}
