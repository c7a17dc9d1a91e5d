/** What the encodings look like byte by byte, in the terms of RFC 8949, sections 3 and 3.1. */
module CborShape {
  import opened Wrappers
  import opened Bytes
  import opened Cbor

  /** 256 to the power of k. */
  function Scale(k: nat): nat
    requires k < 8
  {
    [1, 0x100, 0x1_0000, 0x100_0000, 0x1_0000_0000, 0x100_0000_0000, 0x1_0000_0000_0000, 0x100_0000_0000_0000][k]
  }

  /** How many bytes follow the initial byte: none below 24, and otherwise the fewest that hold the argument. */
  function Following(arg: nat): (n: nat)
    ensures n <= 8
  {
    if arg < 24 then 0 else if arg < 0x100 then 1 else if arg < 0x1_0000 then 2 else if arg < 0x1_0000_0000 then 4 else 8
  }

  predicate ByteOf(b: ByteString, arg: nat, k: nat, i: nat)
    requires i < k <= 8 && k < |b|
  {
    b[1 + i] == (arg / Scale(k - 1 - i)) % 256
  }

  /** The initial byte has the major type in its high three bits and the argument, or how many bytes hold it, in the
      other five; then the argument, most significant byte first; then the body. */
  predicate Shaped(b: ByteString, major: nat, arg: nat, body: ByteString) {
    var k := Following(arg);
    && |b| == 1 + k + |body|
    && b[0] / 32 == major
    && b[0] % 32 == (if k == 0 then arg else if k == 1 then 24 else if k == 2 then 25 else if k == 4 then 26 else 27)
    && (forall i :: 0 <= i < k ==> ByteOf(b, arg, k, i))
    && b[1 + k..] == body
  }

  lemma {:induction false} BigEndianAt(n: nat, k: nat, i: nat)
    requires i < k <= 8
    ensures BigEndian(n, k)[i] == (n / Scale(k - 1 - i)) % 256
  {
    var init := BigEndian(n / 256, k - 1);
    if i < k - 1 {
      BigEndianAt(n / 256, k - 1, i);
      ScaleStep(n, k - 2 - i);
      assert BigEndian(n, k)[i] == init[i];
    }
  }

  lemma ScaleStep(n: nat, k: nat)
    requires k < 7
    ensures n / 256 / Scale(k) == n / Scale(k + 1)
  {
    if k == 0 { assert n / 256 / 1 == n / 0x100; }
    else if k == 1 { assert n / 256 / 0x100 == n / 0x1_0000; }
    else if k == 2 { assert n / 256 / 0x1_0000 == n / 0x100_0000; }
    else if k == 3 { assert n / 256 / 0x100_0000 == n / 0x1_0000_0000; }
    else if k == 4 { assert n / 256 / 0x1_0000_0000 == n / 0x100_0000_0000; }
    else if k == 5 { assert n / 256 / 0x100_0000_0000 == n / 0x1_0000_0000_0000; }
    else { assert n / 256 / 0x1_0000_0000_0000 == n / 0x100_0000_0000_0000; }
  }

  lemma HeadIsShaped(major: nat, arg: nat, body: ByteString)
    requires major < 8 && arg < U64_LIMIT
    ensures Shaped(Head(major, arg) + body, major, arg, body)
  {
    hide BigEndian, Scale, ByteOf;
    var b, k := Head(major, arg) + body, Following(arg);
    assert k > 0 ==> b[1..1 + k] == BigEndian(arg, k);
    forall i | 0 <= i < k ensures ByteOf(b, arg, k, i) {
      FollowingByte(b, arg, k, i);
    }
  }

  lemma FollowingByte(b: ByteString, arg: nat, k: nat, i: nat)
    requires i < k <= 8 && k < |b| && b[1..1 + k] == BigEndian(arg, k)
    ensures ByteOf(b, arg, k, i)
  {
    hide Scale;
    BigEndianAt(arg, k, i);
    assert b[1 + i] == b[1..1 + k][i];
  }

  /** The encodings of the items one after the other. */
  function Joined(items: seq<Value>): ByteString
    requires AllFit(items)
  {
    if items == [] then [] else Joined(items[..|items| - 1]) + Encode(items[|items| - 1])
  }

  /** The encodings of key and value, entry after entry. */
  function JoinedEntries(entries: seq<Entry>): ByteString
    requires EntriesFit(entries)
  {
    if entries == [] then [] else
      var e := entries[|entries| - 1];
      JoinedEntries(entries[..|entries| - 1]) + Encode(e.key) + Encode(e.value)
  }

  lemma {:induction false} AllIsJoined(items: seq<Value>, n: nat)
    requires AllFit(items) && n <= |items|
    ensures EncodeAll(items) == Joined(items[..n]) + EncodeAll(items[n..])
  {
    hide Encode, Fits;
    if n == 0 {
      assert items[0..] == items && items[..0] == [];
    } else {
      AllIsJoined(items, n - 1);
      assert items[..n][..n - 1] == items[..n - 1] && items[n - 1..][1..] == items[n..];
      assert items[..n][n - 1] == items[n - 1..][0] == items[n - 1];
    }
  }

  lemma AllAreJoined(items: seq<Value>)
    requires AllFit(items)
    ensures EncodeAll(items) == Joined(items)
  {
    hide Encode, Fits, Joined;
    AllIsJoined(items, |items|);
    assert items[..|items|] == items && items[|items|..] == [];
    assert Joined(items) + [] == Joined(items);
  }

  lemma AllEntriesAreJoined(entries: seq<Entry>)
    requires EntriesFit(entries)
    ensures EncodeEntries(entries) == JoinedEntries(entries)
  {
    hide Encode, Fits, JoinedEntries;
    EntriesAreJoined(entries, |entries|);
    assert entries[..|entries|] == entries && entries[|entries|..] == [];
    assert JoinedEntries(entries) + [] == JoinedEntries(entries);
  }

  lemma {:induction false} EntriesAreJoined(entries: seq<Entry>, n: nat)
    requires EntriesFit(entries) && n <= |entries|
    ensures EncodeEntries(entries) == JoinedEntries(entries[..n]) + EncodeEntries(entries[n..])
  {
    hide Encode, Fits;
    if n == 0 {
      assert entries[0..] == entries && entries[..0] == [];
    } else {
      EntriesAreJoined(entries, n - 1);
      assert entries[..n][..n - 1] == entries[..n - 1] && entries[n - 1..][1..] == entries[n..];
      assert entries[..n][n - 1] == entries[n - 1..][0] == entries[n - 1];
    }
  }

  /** Every value under its major type, with the argument and the body the standard gives it: an integer alone, a
      negative one as -1 minus itself, the bytes of a string, the items of an array, the entries of a map. */
  lemma EncodingIsShaped(v: Value)
    requires Fits(v)
    ensures match v
            case Int(n) => Shaped(Encode(v), if n >= 0 then 0 else 1, if n >= 0 then n else -1 - n, [])
            case Bin(bytes) => Shaped(Encode(v), 2, |bytes|, bytes)
            case Text(text) => Shaped(Encode(v), 3, |text|, text)
            case Array(items) => Shaped(Encode(v), 4, |items|, Joined(items))
            case Map(entries) => Shaped(Encode(v), 5, |entries|, JoinedEntries(entries))
  {
    hide IsUtf8, Head, Shaped;
    match v
    case Int(n) =>
      HeadIsShaped(if n >= 0 then 0 else 1, if n >= 0 then n else -1 - n, []);
      assert Encode(v) + [] == Encode(v);
    case Bin(bytes) => HeadIsShaped(2, |bytes|, bytes);
    case Text(text) => HeadIsShaped(3, |text|, text);
    case Array(items) =>
      AllAreJoined(items);
      HeadIsShaped(4, |items|, EncodeAll(items));
    case Map(entries) =>
      AllEntriesAreJoined(entries);
      HeadIsShaped(5, |entries|, EncodeEntries(entries));
  }
}
