/** What the replay of a vault log depends on: not the order it is given in, but its head hash; and what it yields:
    for every key the last record that wrote it. */
module KeyVaultReplay {
  import opened Wrappers
  import opened Bytes
  import opened Cbor
  import opened CanonicalCbor
  import opened CborFields
  import opened Formats
  import opened KeyVault

  // Order

  ghost predicate BySequence(containers: seq<RecordContainer>) {
    forall i, j :: 0 <= i < j < |containers| ==> containers[i].sequence <= containers[j].sequence
  }

  lemma {:induction false} PlaceKeepsMembers(sorted: seq<RecordContainer>, c: RecordContainer)
    ensures multiset(PlaceBySequence(sorted, c)) == multiset(sorted) + multiset{c}
  {
    if sorted != [] && sorted[|sorted| - 1].sequence > c.sequence {
      PlaceKeepsMembers(sorted[..|sorted| - 1], c);
      assert sorted == sorted[..|sorted| - 1] + [sorted[|sorted| - 1]];
    }
  }

  lemma {:induction false} PlaceSorts(sorted: seq<RecordContainer>, c: RecordContainer)
    requires BySequence(sorted)
    ensures BySequence(PlaceBySequence(sorted, c))
    ensures forall x :: x in PlaceBySequence(sorted, c) ==> x == c || x in sorted
  {
    if sorted != [] && sorted[|sorted| - 1].sequence > c.sequence {
      var init, last := sorted[..|sorted| - 1], sorted[|sorted| - 1];
      var placed := PlaceBySequence(init, c);
      PlaceSorts(init, c);
      forall i | 0 <= i < |placed| ensures placed[i].sequence <= last.sequence {
        assert placed[i] in placed;
      }
    }
  }

  lemma {:induction false} SortSorts(containers: seq<RecordContainer>)
    ensures BySequence(SortBySequence(containers))
    ensures multiset(SortBySequence(containers)) == multiset(containers)
  {
    hide PlaceBySequence;
    if containers != [] {
      var init, last := containers[..|containers| - 1], containers[|containers| - 1];
      SortSorts(init);
      PlaceSorts(SortBySequence(init), last);
      PlaceKeepsMembers(SortBySequence(init), last);
      assert containers == init + [last];
    }
  }

  ghost predicate Numbered1(s: seq<RecordContainer>) {
    forall i :: 0 <= i < |s| ==> s[i].sequence == i + 1
  }

  lemma SameLast(s: seq<RecordContainer>, t: seq<RecordContainer>)
    requires Numbered1(s) && BySequence(t) && multiset(s) == multiset(t) && s != [] && t != []
    ensures s[|s| - 1] == t[|t| - 1]
  {
    var x, y := s[|s| - 1], t[|t| - 1];
    assert x in multiset(s) && y in multiset(t);
    var k :| 0 <= k < |t| && t[k] == x;
    var m :| 0 <= m < |s| && s[m] == y;
    assert m + 1 == y.sequence >= x.sequence == |s|;
  }

  lemma WithoutLast<T>(s: seq<T>, t: seq<T>)
    requires s != [] && t != [] && s[|s| - 1] == t[|t| - 1] && multiset(s) == multiset(t)
    ensures multiset(s[..|s| - 1]) == multiset(t[..|t| - 1])
  {
    var x := s[|s| - 1];
    assert s == s[..|s| - 1] + [x] && t == t[..|t| - 1] + [x];
    assert multiset(s[..|s| - 1]) == multiset(s) - multiset{x};
    assert multiset(t[..|t| - 1]) == multiset(t) - multiset{x};
  }

  /** A list numbered 1, 2, ... is the only sorted arrangement of its members. */
  lemma {:induction false} NumberedIsSorted(s: seq<RecordContainer>, t: seq<RecordContainer>)
    requires Numbered1(s) && BySequence(t) && multiset(s) == multiset(t)
    ensures s == t
    decreases |s|
  {
    hide Numbered1, BySequence;
    assert |s| == |multiset(s)| == |multiset(t)| == |t|;
    if s != [] {
      SameLast(s, t);
      WithoutLast(s, t);
      InitNumbered(s);
      InitBySequence(t);
      NumberedIsSorted(s[..|s| - 1], t[..|t| - 1]);
      assert s == s[..|s| - 1] + [s[|s| - 1]] && t == t[..|t| - 1] + [t[|t| - 1]];
    }
  }

  lemma InitNumbered(s: seq<RecordContainer>)
    requires Numbered1(s) && s != []
    ensures Numbered1(s[..|s| - 1])
  {
  }

  lemma InitBySequence(t: seq<RecordContainer>)
    requires BySequence(t) && t != []
    ensures BySequence(t[..|t| - 1])
  {
  }

  /** A log that is accepted in one order is accepted in every order, with the same state and the same keys. */
  lemma AnyOrder(suite: Suite, header: Header, key: ByteString, a: seq<RecordContainer>, b: seq<RecordContainer>)
    requires |a| < U64_LIMIT && Apply(suite, header, key, a).Ok? && multiset(a) == multiset(b)
    ensures Apply(suite, header, key, b) == Apply(suite, header, key, a)
  {
    hide ReplayAll, SortBySequence, HashOf;
    SortSorts(a);
    SortSorts(b);
    var s := SortBySequence(a);
    assert |s| == |multiset(s)| == |multiset(a)| == |a|;
    ReplayedIsChained(suite, header, key, s);
    NumberedIsSorted(s, SortBySequence(b));
  }

  /** An accepted log keeps its records, by sequence; its head is their number. */
  lemma AppliedVault(suite: Suite, header: Header, key: ByteString, containers: seq<RecordContainer>)
    requires |containers| < U64_LIMIT && Apply(suite, header, key, containers).Ok?
    ensures var vault := Apply(suite, header, key, containers).value.0;
            && vault.records == SortBySequence(containers) && |vault.records| == |containers|
            && vault == VaultOf(suite, vault.records) && Chained(suite, vault.records)
            && ReplayAll(suite, header, key, vault.records).Ok?
            && vault.headSequence == |containers|
  {
    hide ReplayAll, SortBySequence, HashOf, Chained;
    SortSorts(containers);
    var s := SortBySequence(containers);
    assert |s| == |multiset(s)| == |multiset(containers)| == |containers|;
    ReplayedIsChained(suite, header, key, s);
  }

  lemma SortOfNumbered(s: seq<RecordContainer>)
    requires Numbered1(s)
    ensures SortBySequence(s) == s
  {
    SortSorts(s);
    NumberedIsSorted(s, SortBySequence(s));
  }

  // Logs built by appending

  datatype Draft = Draft(plain: RecordPlain, nonce: Blob)

  ghost predicate AllRecordable(suite: Suite, entries: seq<Draft>) {
    forall i :: 0 <= i < |entries| ==> Recordable(suite, entries[i].plain)
  }

  /** Records appended one after the other to the empty vault. */
  ghost function AppendEach(suite: Suite, header: Header, key: ByteString, entries: seq<Draft>): Result<Vault, VaultError>
    requires AllRecordable(suite, entries)
  {
    if entries == [] then Ok(EMPTY_VAULT) else
      var last := |entries| - 1;
      match AppendEach(suite, header, key, entries[..last])
      case Err(e) => Err(e)
      case Ok(vault) =>
        if vault.headSequence + 1 >= U64_LIMIT then Err(SequenceMismatch) else
          match Append(suite, header, key, vault, entries[last].plain, vault.headSequence + 1, entries[last].nonce)
          case Err(e) => Err(e)
          case Ok((next, _)) => Ok(next)
  }

  /** The keys the records say, one after the other. */
  ghost function Written(suite: Suite, entries: seq<Draft>): KeyMaps
    requires AllRecordable(suite, entries)
  {
    if entries == [] then NO_KEYS else
      ApplyEffect(Written(suite, entries[..|entries| - 1]), EffectOf(suite, entries[|entries| - 1].plain).value)
  }

  lemma {:induction false} AppendedReplays(suite: Suite, header: Header, key: ByteString, entries: seq<Draft>)
    requires Sound(suite) && |entries| < U64_LIMIT - 1
    requires AllRecordable(suite, entries) && AppendEach(suite, header, key, entries).Ok?
    ensures var vault := AppendEach(suite, header, key, entries).value;
            && |vault.records| == vault.headSequence == |entries|
            && ReplayAll(suite, header, key, vault.records).Ok?
            && ReplayAll(suite, header, key, vault.records).value.vault == vault
            && ReplayAll(suite, header, key, vault.records).value.keys == Written(suite, entries)
  {
    hide Append, ReplayAll, EffectOf, ApplyEffect, Recordable;
    if entries == [] {
      EmptyReplays(suite, header, key);
    } else {
      var init, e := entries[..|entries| - 1], entries[|entries| - 1];
      AppendedReplays(suite, header, key, init);
      var vault := AppendEach(suite, header, key, init).value;
      RecordableEffect(suite, e.plain);
      AppendKeepsReplay(suite, header, key, ReplayAll(suite, header, key, vault.records).value, e.plain,
                        vault.headSequence + 1, e.nonce);
      AppendMovesHead(suite, header, key, vault, e.plain, vault.headSequence + 1, e.nonce);
    }
  }

  lemma EmptyReplays(suite: Suite, header: Header, key: ByteString)
    ensures ReplayAll(suite, header, key, []) == Ok(START)
  {
  }

  lemma AppendMovesHead(suite: Suite, header: Header, key: ByteString, vault: Vault, plain: RecordPlain, sequence: U64,
                        nonce: Blob)
    requires Fits(plain.payload) && Append(suite, header, key, vault, plain, sequence, nonce).Ok?
    ensures Append(suite, header, key, vault, plain, sequence, nonce).value.0.headSequence == sequence
         == vault.headSequence + 1
  {
  }

  /** Whatever has been appended can be replayed from its containers in any order, and gives back the vault and the
      keys the records wrote. */
  lemma AppendedInAnyOrder(suite: Suite, header: Header, key: ByteString, entries: seq<Draft>,
                           containers: seq<RecordContainer>)
    requires Sound(suite) && |entries| < U64_LIMIT - 1
    requires AllRecordable(suite, entries) && AppendEach(suite, header, key, entries).Ok?
    requires multiset(containers) == multiset(AppendEach(suite, header, key, entries).value.records)
    ensures Apply(suite, header, key, containers)
         == Ok((AppendEach(suite, header, key, entries).value, Written(suite, entries)))
  {
    hide AppendEach, Written, ReplayAll, Recordable, HashOf, SortBySequence;
    AppendedReplays(suite, header, key, entries);
    var records := AppendEach(suite, header, key, entries).value.records;
    ReplayedIsChained(suite, header, key, records);
    SortOfNumbered(records);
    AnyOrder(suite, header, key, records, containers);
  }

  // The last writer wins

  /** A place in the key maps. */
  datatype Slot = UserSlot | DeviceSlot(device: Utf8) | ScopeSlot(scope: ScopeKeyId) | ResourceSlot(resource: ResourceKeyId)

  function Target(e: Effect): Option<Slot> {
    match e
    case SetUserKey(_) => Some(UserSlot)
    case SetDevice(device, _) => Some(DeviceSlot(device))
    case SetScope(scope, _) => Some(ScopeSlot(scope))
    case SetResource(resource, _) => Some(ResourceSlot(resource))
    case NoEffect => None
  }

  /** The write that put what is in the slot. */
  function Standing(keys: KeyMaps, slot: Slot): Option<Effect> {
    match slot
    case UserSlot => if keys.userKey.Some? then Some(SetUserKey(keys.userKey.value)) else None
    case DeviceSlot(d) => if d in keys.deviceKeys then Some(SetDevice(d, keys.deviceKeys[d])) else None
    case ScopeSlot(k) => if k in keys.scopeKeys then Some(SetScope(k, keys.scopeKeys[k])) else None
    case ResourceSlot(k) => if k in keys.resourceKeys then Some(SetResource(k, keys.resourceKeys[k])) else None
  }

  /** The effect of a container that can be opened. */
  function EffectIn(suite: Suite, header: Header, key: ByteString, c: RecordContainer): Effect {
    match OpenRecord(suite, header, key, c)
    case Err(_) => NoEffect
    case Ok(r) =>
      match EffectOf(suite, r)
      case Err(_) => NoEffect
      case Ok(e) => e
  }

  /** The record writes the slot and no later one does. */
  ghost predicate WritesLast(suite: Suite, header: Header, key: ByteString, records: seq<RecordContainer>, slot: Slot,
                             e: Effect, i: nat)
  {
    && i < |records| && EffectIn(suite, header, key, records[i]) == e && Target(e) == Some(slot)
    && forall j :: i < j < |records| ==> Target(EffectIn(suite, header, key, records[j])) != Some(slot)
  }

  ghost predicate LastWrite(suite: Suite, header: Header, key: ByteString, records: seq<RecordContainer>, slot: Slot,
                            e: Effect)
  {
    exists i: nat :: WritesLast(suite, header, key, records, slot, e, i)
  }

  lemma WritesLastSnoc(suite: Suite, header: Header, key: ByteString, records: seq<RecordContainer>, slot: Slot,
                       e: Effect, i: nat)
    requires records != []
    ensures var init, w := records[..|records| - 1], EffectIn(suite, header, key, records[|records| - 1]);
            WritesLast(suite, header, key, records, slot, e, i) <==>
              if i == |init| then e == w && Target(w) == Some(slot)
              else WritesLast(suite, header, key, init, slot, e, i) && Target(w) != Some(slot)
  {
    hide EffectIn, Target;
    var init := records[..|records| - 1];
    assert records == init + [records[|records| - 1]];
  }

  lemma LastWriteSnoc(suite: Suite, header: Header, key: ByteString, records: seq<RecordContainer>, slot: Slot,
                      e: Effect)
    requires records != []
    ensures var init, w := records[..|records| - 1], EffectIn(suite, header, key, records[|records| - 1]);
            LastWrite(suite, header, key, records, slot, e) <==>
              if Target(w) == Some(slot) then e == w else LastWrite(suite, header, key, init, slot, e)
  {
    hide EffectIn, Target, WritesLast;
    var init, last: nat := records[..|records| - 1], |records| - 1;
    WritesLastSnoc(suite, header, key, records, slot, e, last);
    if i: nat :| WritesLast(suite, header, key, records, slot, e, i) {
      WritesLastSnoc(suite, header, key, records, slot, e, i);
    }
    if i: nat :| WritesLast(suite, header, key, init, slot, e, i) {
      InRange(suite, header, key, init, slot, e, i);
      WritesLastSnoc(suite, header, key, records, slot, e, i);
    }
  }

  lemma InRange(suite: Suite, header: Header, key: ByteString, records: seq<RecordContainer>, slot: Slot, e: Effect,
                i: nat)
    ensures WritesLast(suite, header, key, records, slot, e, i) ==> i < |records|
  {
  }

  lemma EffectStands(keys: KeyMaps, w: Effect, slot: Slot)
    ensures Standing(ApplyEffect(keys, w), slot) == if Target(w) == Some(slot) then Some(w) else Standing(keys, slot)
  {
  }

  /** In an accepted log every slot holds what the last record for it wrote. */
  lemma {:induction false} LastWriterWins(suite: Suite, header: Header, key: ByteString,
                                          records: seq<RecordContainer>, slot: Slot, e: Effect)
    requires ReplayAll(suite, header, key, records).Ok?
    ensures Standing(ReplayAll(suite, header, key, records).value.keys, slot) == Some(e)
       <==> LastWrite(suite, header, key, records, slot, e)
  {
    hide OpenRecord, EffectOf, ApplyEffect, LastWrite, Standing, HashOf;
    if records == [] {
      NothingStands(suite, header, key, slot, e);
    } else {
      var init, c := records[..|records| - 1], records[|records| - 1];
      LastWriterWins(suite, header, key, init, slot, e);
      LastWriteSnoc(suite, header, key, records, slot, e);
      EffectStands(ReplayAll(suite, header, key, init).value.keys, EffectIn(suite, header, key, c), slot);
    }
  }

  lemma NothingStands(suite: Suite, header: Header, key: ByteString, slot: Slot, e: Effect)
    ensures Standing(NO_KEYS, slot) == None && !LastWrite(suite, header, key, [], slot, e)
  {
  }

  // The head hash

  /** Two different encodings among the containers of the two logs that are hashed alike. */
  ghost predicate Collide(suite: Suite, a: seq<RecordContainer>, b: seq<RecordContainer>) {
    exists i, j :: 0 <= i < |a| && 0 <= j < |b|
                && EncodeContainer(a[i]) != EncodeContainer(b[j]) && HashOf(suite, a[i]) == HashOf(suite, b[j])
  }

  lemma EncodeContainerIsInjective(a: RecordContainer, b: RecordContainer)
    requires EncodeContainer(a) == EncodeContainer(b)
    ensures a == b
  {
    hide Encode, Canon, IsUtf8, Fits, IsCanonical, MapOf;
    ContainerIsCanonical(a);
    ContainerIsCanonical(b);
    assert Encode(ContainerValue(a)) + [] == Encode(ContainerValue(b)) + [];
    EncodeIsInjective(ContainerValue(a), ContainerValue(b), [], []);
    SameContainerValue(a, b);
  }

  lemma SameContainerValue(a: RecordContainer, b: RecordContainer)
    requires ContainerValue(a) == ContainerValue(b)
    ensures a == b
  {
    hide IsUtf8, Fits;
    var f, g, v := ContainerFields(a), ContainerFields(b), ContainerValue(a);
    assert v.entries[0].value == f[0].value == g[0].value && v.entries[1].value == f[1].value == g[1].value;
    assert v.entries[2].value == f[2].value == g[2].value && v.entries[3].value == f[3].value == g[3].value;
    assert v.entries[4].value == f[4].value == g[4].value && v.entries[5].value == f[5].value == g[5].value;
  }

  lemma {:induction false} SameHeadSameRecords(suite: Suite, a: seq<RecordContainer>, b: seq<RecordContainer>)
    requires Chained(suite, a) && Chained(suite, b) && a != [] && b != [] && !Collide(suite, a, b)
    requires HashOf(suite, a[|a| - 1]) == HashOf(suite, b[|b| - 1])
    ensures a == b
    decreases |a|
  {
    hide Chained, HashOf, Collide;
    var x, y := a[|a| - 1], b[|b| - 1];
    SameHashSameContainer(suite, a, b, |a| - 1, |b| - 1);
    ChainedLast(suite, a);
    ChainedLast(suite, b);
    var a', b' := a[..|a| - 1], b[..|b| - 1];
    assert a == a' + [x] && b == b' + [y];
    if a' != [] {
      assert !Collide(suite, a', b') by { PrefixesCollide(suite, a, b, |a| - 1, |b| - 1); }
      SameHeadSameRecords(suite, a', b');
    }
  }

  lemma SameHashSameContainer(suite: Suite, a: seq<RecordContainer>, b: seq<RecordContainer>, i: nat, j: nat)
    requires i < |a| && j < |b| && HashOf(suite, a[i]) == HashOf(suite, b[j]) && !Collide(suite, a, b)
    ensures a[i] == b[j]
  {
    hide EncodeContainer, HashOf;
    EncodeContainerIsInjective(a[i], b[j]);
  }

  lemma PrefixesCollide(suite: Suite, a: seq<RecordContainer>, b: seq<RecordContainer>, m: nat, n: nat)
    requires m <= |a| && n <= |b|
    ensures Collide(suite, a[..m], b[..n]) ==> Collide(suite, a, b)
  {
    hide EncodeContainer, HashOf;
    if i, j :| 0 <= i < m && 0 <= j < n && EncodeContainer(a[..m][i]) != EncodeContainer(b[..n][j])
               && HashOf(suite, a[..m][i]) == HashOf(suite, b[..n][j]) {
      assert a[..m][i] == a[i] && b[..n][j] == b[j];
    }
  }

  lemma ChainedLast(suite: Suite, a: seq<RecordContainer>)
    requires Chained(suite, a) && a != []
    ensures var init, x := a[..|a| - 1], a[|a| - 1];
            && Chained(suite, init) && x.sequence == |a|
            && (init != [] ==> x.prevHash == HashOf(suite, init[|init| - 1]))
  {
    hide HashOf;
    var init := a[..|a| - 1];
    forall i: nat | i < |init| ensures Linked(suite, init, i) {
      assert Linked(suite, a, i);
    }
    assert Linked(suite, a, |a| - 1);
  }

  /** The head hash determines the log: two non-empty accepted logs with the same head hash are the same records, of
      whatever vaults and under whatever keys they were accepted, or a container of the one and a different one of the
      other are hashed alike. */
  lemma HeadHashDeterminesLog(suite: Suite, header: Header, key: ByteString, a: seq<RecordContainer>,
                              header': Header, key': ByteString, b: seq<RecordContainer>)
    requires 0 < |a| < U64_LIMIT && 0 < |b| < U64_LIMIT
    requires Apply(suite, header, key, a).Ok? && Apply(suite, header', key', b).Ok?
    requires Apply(suite, header, key, a).value.0.headHash == Apply(suite, header', key', b).value.0.headHash
    ensures SortBySequence(a) == SortBySequence(b) || Collide(suite, SortBySequence(a), SortBySequence(b))
  {
    hide Apply, SortBySequence, Chained, Collide, HashOf, ReplayAll;
    AppliedVault(suite, header, key, a);
    AppliedVault(suite, header', key', b);
    if !Collide(suite, SortBySequence(a), SortBySequence(b)) {
      SameHeadSameRecords(suite, SortBySequence(a), SortBySequence(b));
    }
  }

  // The records the service writes

  lemma LeavesRecord(values: seq<Value>)
    requires |values| <= KEY_LIMIT && AllLeaves(values)
    ensures Rising(Numbered(0, values))
    ensures var v := MapOf(Numbered(0, values));
            Fits(v) && IsCanonical(v) && forall i :: 0 <= i < |values| ==> MapGetOpt(v.entries, i) == Some(values[i])
  {
    hide IsUtf8, Encode, EncodeCanonical, Canon, MapGetOpt, Fits;
    var f := Numbered(0, values);
    forall i | 0 <= i < |values| ensures Fits(values[i]) && IsCanonical(values[i]) {
      LeafIsCanonical(values[i]);
    }
    RisingIsCanonical(f);
    forall i | 0 <= i < |values| ensures MapGetOpt(MapOf(f).entries, i) == Some(values[i]) {
      FieldAt(f, i);
    }
  }

  function StoreUserKey(recordId: Utf8, user: UserKey): (r: RecordPlain)
    ensures Fits(r.payload)
  {
    var values := [Bin(user.priv), Bin(user.pub)];
    LeavesRecord(values);
    RecordPlain(recordId, 1, MapOf(Numbered(0, values)))
  }

  function StoreDeviceKeys(recordId: Utf8, device: Utf8, k: DeviceKeys): (r: RecordPlain)
    ensures Fits(r.payload)
  {
    DeviceFits(device, k);
    RecordPlain(recordId, 2, MapOf(Numbered(0, DeviceValues(device, k))))
  }

  function DeviceValues(device: Utf8, k: DeviceKeys): (r: seq<Value>)
    ensures |r| == 6
  {
    [Text(device), Bin(k.edPriv), Bin(k.edPub), Text(HYBRID_SIG_1), Bin(k.mlPriv), Bin(k.mlPub)]
  }

  lemma DeviceFits(device: Utf8, k: DeviceKeys)
    ensures Fits(MapOf(Numbered(0, DeviceValues(device, k))))
  {
    hide IsUtf8, Ascii, MapOf, Rising, Fits;
    LeavesRecord(DeviceValues(device, k));
  }

  function StoreScopeKey(recordId: Utf8, scope: ScopeKeyId, key: Blob): (r: RecordPlain)
    ensures Fits(r.payload)
  {
    var values := [Text(scope.0), Int(scope.1), Bin(key)];
    LeavesRecord(values);
    RecordPlain(recordId, 3, MapOf(Numbered(0, values)))
  }

  function StoreResourceKey(recordId: Utf8, resource: ResourceKeyId, key: Blob): (r: RecordPlain)
    ensures Fits(r.payload)
  {
    var values := [Text(resource.0), Text(resource.1), Bin(key)];
    LeavesRecord(values);
    RecordPlain(recordId, 4, MapOf(Numbered(0, values)))
  }

  lemma StoredUserKey(suite: Suite, recordId: Utf8, user: UserKey)
    requires suite.userKeyOk(user.priv, user.pub)
    ensures var r := StoreUserKey(recordId, user);
            Fits(r.payload) && IsCanonical(r.payload) && EffectOf(suite, r) == Ok(SetUserKey(user))
  {
    hide IsUtf8, Ascii, MapGetOpt, Rising, Fits, IsCanonical, MapOf;
    var values := [Bin(user.priv), Bin(user.pub)];
    LeavesRecord(values);
    assert MapGetOpt(MapOf(Numbered(0, values)).entries, 0) == Some(values[0]);
    assert MapGetOpt(MapOf(Numbered(0, values)).entries, 1) == Some(values[1]);
  }

  lemma StoredDeviceKeys(suite: Suite, recordId: Utf8, device: Utf8, k: DeviceKeys)
    ensures var r := StoreDeviceKeys(recordId, device, k);
            Fits(r.payload) && IsCanonical(r.payload) && EffectOf(suite, r) == Ok(SetDevice(device, k))
  {
    hide IsUtf8, Ascii, MapGetOpt, Rising, Fits, IsCanonical, MapOf;
    var values := DeviceValues(device, k);
    LeavesRecord(values);
    var m := MapOf(Numbered(0, values)).entries;
    assert MapGetOpt(m, 0) == Some(values[0]) && MapGetOpt(m, 1) == Some(values[1]) && MapGetOpt(m, 2) == Some(values[2]);
    assert MapGetOpt(m, 3) == Some(values[3]) && MapGetOpt(m, 4) == Some(values[4]) && MapGetOpt(m, 5) == Some(values[5]);
  }

  lemma StoredScopeKey(suite: Suite, recordId: Utf8, scope: ScopeKeyId, key: Blob)
    ensures var r := StoreScopeKey(recordId, scope, key);
            Fits(r.payload) && IsCanonical(r.payload) && EffectOf(suite, r) == Ok(SetScope(scope, key))
  {
    hide IsUtf8, Ascii, MapGetOpt, Rising, Fits, IsCanonical, MapOf;
    var values := [Text(scope.0), Int(scope.1), Bin(key)];
    LeavesRecord(values);
    var m := MapOf(Numbered(0, values)).entries;
    assert MapGetOpt(m, 0) == Some(values[0]) && MapGetOpt(m, 1) == Some(values[1]) && MapGetOpt(m, 2) == Some(values[2]);
  }

  lemma StoredResourceKey(suite: Suite, recordId: Utf8, resource: ResourceKeyId, key: Blob)
    ensures var r := StoreResourceKey(recordId, resource, key);
            Fits(r.payload) && IsCanonical(r.payload) && EffectOf(suite, r) == Ok(SetResource(resource, key))
  {
    hide IsUtf8, Ascii, MapGetOpt, Rising, Fits, IsCanonical, MapOf;
    var values := [Text(resource.0), Text(resource.1), Bin(key)];
    LeavesRecord(values);
    var m := MapOf(Numbered(0, values)).entries;
    assert MapGetOpt(m, 0) == Some(values[0]) && MapGetOpt(m, 1) == Some(values[1]) && MapGetOpt(m, 2) == Some(values[2]);
  }
}
