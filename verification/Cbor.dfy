/** CBOR values and their encoding (RFC 8949, section 3) on the part of the format the key vault uses: integers,
    byte strings, text, arrays and maps of definite length. */
module Cbor {
  import opened Wrappers
  import opened Bytes

  const U64_LIMIT: int := 0x1_0000_0000_0000_0000

  /** UTF-8 (RFC 3629, section 4). */
  predicate IsUtf8(s: ByteString) {
    if s == [] then true
    else if s[0] < 0x80 then IsUtf8(s[1..])
    else if 0xC2 <= s[0] < 0xE0 then |s| >= 2 && IsTail(s[1]) && IsUtf8(s[2..])
    else if 0xE0 <= s[0] < 0xF0 then
      |s| >= 3 && IsTail(s[1]) && IsTail(s[2]) && (s[0] == 0xE0 ==> s[1] >= 0xA0) && (s[0] == 0xED ==> s[1] < 0xA0)
      && IsUtf8(s[3..])
    else if 0xF0 <= s[0] < 0xF5 then
      |s| >= 4 && IsTail(s[1]) && IsTail(s[2]) && IsTail(s[3]) && (s[0] == 0xF0 ==> s[1] >= 0x90)
      && (s[0] == 0xF4 ==> s[1] < 0x90) && IsUtf8(s[4..])
    else false
  }

  predicate IsTail(b: Byte) { 0x80 <= b < 0xC0 }

  type CborInt = n: int | -U64_LIMIT <= n < U64_LIMIT
  type Blob = s: ByteString | |s| < U64_LIMIT
  type Utf8 = s: ByteString | |s| < U64_LIMIT && IsUtf8(s)

  datatype Value =
    | Int(n: CborInt) | Bin(bytes: Blob) | Text(text: Utf8) | Array(items: seq<Value>) | Map(entries: seq<Entry>)
  datatype Entry = Entry(key: Value, value: Value)

  /** Every array and map has a 64-bit length, as any in memory has. */
  predicate Fits(v: Value)
    decreases v
  {
    match v
    case Array(items) => |items| < U64_LIMIT && forall i :: 0 <= i < |items| ==> Fits(items[i])
    case Map(entries) =>
      |entries| < U64_LIMIT && forall i :: 0 <= i < |entries| ==> Fits(entries[i].key) && Fits(entries[i].value)
    case _ => true
  }

  predicate AllFit(items: seq<Value>) {
    forall i :: 0 <= i < |items| ==> Fits(items[i])
  }

  predicate EntriesFit(entries: seq<Entry>) {
    forall i :: 0 <= i < |entries| ==> Fits(entries[i].key) && Fits(entries[i].value)
  }

  datatype CborError = Truncated | Unsupported | InvalidText | TooLarge | DepthExceeded | TooManyItems | NonCanonical

  datatype Parsed<T> = Parsed(value: T, rest: ByteString)
  datatype HeadOf = HeadOf(major: nat, arg: nat)

  // Heads

  /** The shortest head for this major type and argument. */
  function Head(major: nat, arg: nat): (h: ByteString)
    requires major < 8 && arg < U64_LIMIT
    ensures |h| > 0
  {
    if arg < 24 then [major * 32 + arg]
    else if arg < 0x100 then [major * 32 + 24] + BigEndian(arg, 1)
    else if arg < 0x1_0000 then [major * 32 + 25] + BigEndian(arg, 2)
    else if arg < 0x1_0000_0000 then [major * 32 + 26] + BigEndian(arg, 4)
    else [major * 32 + 27] + BigEndian(arg, 8)
  }

  function ArgBytes(info: nat): nat
    requires 24 <= info < 28
  {
    if info == 24 then 1 else if info == 25 then 2 else if info == 26 then 4 else 8
  }

  /** Any head of definite length, shortest or not. */
  function ParseHead(b: ByteString): (r: Result<Parsed<HeadOf>, CborError>)
    ensures r.Ok? ==> |r.value.rest| < |b| && r.value.value.major < 8 && r.value.value.arg < U64_LIMIT
  {
    if b == [] then Err(Truncated) else
      var major, info := b[0] / 32, b[0] % 32;
      if info < 24 then Ok(Parsed(HeadOf(major, info), b[1..]))
      else if info >= 28 then Err(Unsupported)
      else
        var n := ArgBytes(info);
        if |b| < 1 + n then Err(Truncated) else
          BigEndianOfFrom(b[1..1 + n]);
          PowersOf256();
          Ok(Parsed(HeadOf(major, FromBigEndian(b[1..1 + n])), b[1 + n..]))
  }

  lemma PowersOf256()
    ensures Power256(1) == 0x100 && Power256(2) == 0x1_0000 && Power256(4) == 0x1_0000_0000 && Power256(8) == U64_LIMIT
  {
    assert Power256(3) == 0x100_0000;
    assert Power256(5) == 0x100_0000_0000 && Power256(6) == 0x1_0000_0000_0000 && Power256(7) == 0x100_0000_0000_0000;
  }

  lemma ParseOfHead(major: nat, arg: nat, tail: ByteString)
    requires major < 8 && arg < U64_LIMIT
    ensures ParseHead(Head(major, arg) + tail) == Ok(Parsed(HeadOf(major, arg), tail))
  {
    hide BigEndian, FromBigEndian, Power256;
    PowersOf256();
    var h := Head(major, arg);
    var b := h + tail;
    if arg < 24 {
      assert b[1..] == tail;
    } else {
      var n := |h| - 1;
      FromOfBigEndian(arg, n);
      assert b[1..1 + n] == BigEndian(arg, n) && b[1 + n..] == tail;
    }
  }

  /** Whatever head the parser accepts, the one the printer writes for it is the shortest, and the only one of its
      length. */
  lemma HeadIsShortest(b: ByteString)
    requires ParseHead(b).Ok?
    ensures var p := ParseHead(b).value;
            && |Head(p.value.major, p.value.arg)| + |p.rest| <= |b|
            && (|Head(p.value.major, p.value.arg)| + |p.rest| == |b| <==> b == Head(p.value.major, p.value.arg) + p.rest)
  {
    hide BigEndian, FromBigEndian, Power256;
    PowersOf256();
    var p := ParseHead(b).value;
    var info := b[0] % 32;
    if info < 24 {
      assert b == [b[0]] + b[1..];
    } else {
      var n := ArgBytes(info);
      BigEndianOfFrom(b[1..1 + n]);
      assert b == [b[0]] + b[1..1 + n] + b[1 + n..];
    }
  }

  // Values

  function Encode(v: Value): (b: ByteString)
    requires Fits(v)
    ensures |b| > 0
    decreases v
  {
    match v
    case Int(n) => if n >= 0 then Head(0, n) else Head(1, -1 - n)
    case Bin(bytes) => Head(2, |bytes|) + bytes
    case Text(text) => Head(3, |text|) + text
    case Array(items) => Head(4, |items|) + EncodeAll(items)
    case Map(entries) => Head(5, |entries|) + EncodeEntries(entries)
  }

  function EncodeAll(items: seq<Value>): ByteString
    requires AllFit(items)
    decreases items
  {
    if items == [] then [] else Encode(items[0]) + EncodeAll(items[1..])
  }

  function EncodeEntries(entries: seq<Entry>): ByteString
    requires EntriesFit(entries)
    decreases entries
  {
    if entries == [] then [] else EncodeEntry(entries[0]) + EncodeEntries(entries[1..])
  }

  function EncodeEntry(e: Entry): ByteString
    requires Fits(e.key) && Fits(e.value)
    decreases e
  {
    Encode(e.key) + Encode(e.value)
  }

  /** The parser: one value from the front; bytes after it are left alone. */
  function Parse(b: ByteString): (r: Result<Parsed<Value>, CborError>)
    ensures r.Ok? ==> |r.value.rest| < |b| && Fits(r.value.value)
    decreases |b|, 0
  {
    match ParseHead(b)
    case Err(e) => Err(e)
    case Ok(Parsed(HeadOf(major, arg), rest)) =>
      if major == 0 then Ok(Parsed(Int(arg), rest))
      else if major == 1 then Ok(Parsed(Int(-1 - arg), rest))
      else if major == 2 then
        if |rest| < arg then Err(Truncated) else Ok(Parsed(Bin(rest[..arg]), rest[arg..]))
      else if major == 3 then
        if |rest| < arg then Err(Truncated)
        else if !IsUtf8(rest[..arg]) then Err(InvalidText)
        else Ok(Parsed(Text(rest[..arg]), rest[arg..]))
      else if major == 4 then
        match ParseItems(rest, arg)
        case Err(e) => Err(e)
        case Ok(Parsed(items, tail)) => Ok(Parsed(Array(items), tail))
      else if major == 5 then
        match ParseEntries(rest, arg)
        case Err(e) => Err(e)
        case Ok(Parsed(entries, tail)) => Ok(Parsed(Map(entries), tail))
      else Err(Unsupported)
  }

  function ParseItems(b: ByteString, n: nat): (r: Result<Parsed<seq<Value>>, CborError>)
    ensures r.Ok? ==> |r.value.value| == n && |r.value.rest| <= |b| && AllFit(r.value.value)
    decreases |b|, n
  {
    if n == 0 then Ok(Parsed([], b)) else
      match Parse(b)
      case Err(e) => Err(e)
      case Ok(Parsed(first, rest)) =>
        match ParseItems(rest, n - 1)
        case Err(e) => Err(e)
        case Ok(Parsed(others, tail)) => Ok(Parsed([first] + others, tail))
  }

  function ParseEntries(b: ByteString, n: nat): (r: Result<Parsed<seq<Entry>>, CborError>)
    ensures r.Ok? ==> |r.value.value| == n && |r.value.rest| <= |b| && EntriesFit(r.value.value)
    decreases |b|, n
  {
    if n == 0 then Ok(Parsed([], b)) else
      match Parse(b)
      case Err(e) => Err(e)
      case Ok(Parsed(key, rest)) =>
        match Parse(rest)
        case Err(e) => Err(e)
        case Ok(Parsed(value, rest')) =>
          match ParseEntries(rest', n - 1)
          case Err(e) => Err(e)
          case Ok(Parsed(others, tail)) => Ok(Parsed([Entry(key, value)] + others, tail))
  }

  /** The parser undoes the printer on every value, whatever follows it. */
  lemma {:induction false} ParseOfEncode(v: Value, tail: ByteString)
    requires Fits(v)
    ensures Parse(Encode(v) + tail) == Ok(Parsed(v, tail))
    decreases v
  {
    hide Head, ParseHead, IsUtf8;
    match v
    case Int(n) => ParseOfHead(if n >= 0 then 0 else 1, if n >= 0 then n else -1 - n, tail);
    case Bin(bytes) =>
      AfterHead(2, |bytes|, bytes, tail);
      assert (bytes + tail)[..|bytes|] == bytes && (bytes + tail)[|bytes|..] == tail;
    case Text(text) =>
      AfterHead(3, |text|, text, tail);
      assert (text + tail)[..|text|] == text && (text + tail)[|text|..] == tail;
    case Array(items) =>
      AfterHead(4, |items|, EncodeAll(items), tail);
      ParseOfEncodeAll(items, tail);
    case Map(entries) =>
      AfterHead(5, |entries|, EncodeEntries(entries), tail);
      ParseOfEncodeEntries(entries, tail);
  }

  lemma AfterHead(major: nat, arg: nat, body: ByteString, tail: ByteString)
    requires major < 8 && arg < U64_LIMIT
    ensures ParseHead(Head(major, arg) + body + tail) == Ok(Parsed(HeadOf(major, arg), body + tail))
  {
    hide Head, ParseHead;
    ParseOfHead(major, arg, body + tail);
    assert Head(major, arg) + body + tail == Head(major, arg) + (body + tail);
  }

  lemma {:induction false} ParseOfEncodeAll(items: seq<Value>, tail: ByteString)
    requires AllFit(items)
    ensures ParseItems(EncodeAll(items) + tail, |items|) == Ok(Parsed(items, tail))
    decreases items
  {
    hide Parse, Encode;
    if items == [] {
      assert EncodeAll(items) + tail == tail;
    } else {
      var others := EncodeAll(items[1..]);
      ParseOfEncode(items[0], others + tail);
      ParseOfEncodeAll(items[1..], tail);
      assert EncodeAll(items) + tail == Encode(items[0]) + (others + tail);
      assert items == [items[0]] + items[1..];
    }
  }

  lemma {:induction false} ParseOfEncodeEntries(entries: seq<Entry>, tail: ByteString)
    requires EntriesFit(entries)
    ensures ParseEntries(EncodeEntries(entries) + tail, |entries|) == Ok(Parsed(entries, tail))
    decreases entries
  {
    hide Parse, Encode;
    if entries == [] {
      assert EncodeEntries(entries) + tail == tail;
    } else {
      var e, others := entries[0], EncodeEntries(entries[1..]);
      ParseOfEncodeEntry(e, others + tail);
      ParseOfEncodeEntries(entries[1..], tail);
      assert EncodeEntries(entries) + tail == Encode(e.key) + (Encode(e.value) + (others + tail));
      assert entries == [e] + entries[1..];
    }
  }

  lemma {:induction false} ParseOfEncodeEntry(e: Entry, tail: ByteString)
    requires Fits(e.key) && Fits(e.value)
    ensures Parse(Encode(e.key) + (Encode(e.value) + tail)) == Ok(Parsed(e.key, Encode(e.value) + tail))
    ensures Parse(Encode(e.value) + tail) == Ok(Parsed(e.value, tail))
    decreases e
  {
    ParseOfEncode(e.key, Encode(e.value) + tail);
    ParseOfEncode(e.value, tail);
  }

  /** No encoding is a prefix of another, and different values have different encodings. */
  lemma EncodeIsInjective(v: Value, w: Value, a: ByteString, b: ByteString)
    requires Fits(v) && Fits(w) && Encode(v) + a == Encode(w) + b
    ensures v == w && a == b
  {
    hide Parse, Encode;
    ParseOfEncode(v, a);
    ParseOfEncode(w, b);
  }
}
