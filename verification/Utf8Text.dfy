/** What a text is: the bytes of a string of Unicode scalar values (RFC 3629, section 3). */
module Utf8Text {
  import opened Bytes
  import opened Cbor

  /** A Unicode code point that is not a surrogate. */
  predicate IsScalar(u: nat) { u < 0xD800 || 0xE000 <= u < 0x11_0000 }

  type Scalar = u: nat | IsScalar(u)

  /** Six bits of the scalar, behind the mark of a continuation byte. */
  function Tail(n: nat): (b: Byte)
    ensures IsTail(b) && b == 0x80 + n % 0x40
  {
    0x80 + n % 0x40
  }

  function EncodeScalar(u: Scalar): (b: ByteString)
    ensures 1 <= |b| <= 4
  {
    assert IsScalar(u);
    if u < 0x80 then var lead: Byte := u; [lead]
    else if u < 0x800 then var lead: Byte := 0xC0 + u / 0x40; [lead, Tail(u)]
    else if u < 0x1_0000 then var lead: Byte := 0xE0 + u / 0x1000; [lead, Tail(u / 0x40), Tail(u)]
    else var lead: Byte := 0xF0 + u / 0x4_0000; [lead, Tail(u / 0x1000), Tail(u / 0x40), Tail(u)]
  }

  function EncodeText(us: seq<Scalar>): ByteString {
    if us == [] then [] else EncodeScalar(us[0]) + EncodeText(us[1..])
  }

  /** Digits to the base 64 add up to the number. */
  lemma Digits(u: nat)
    ensures u / 0x40 / 0x40 == u / 0x1000 && u / 0x1000 / 0x40 == u / 0x4_0000
    ensures u == u / 0x40 * 0x40 + u % 0x40
    ensures u / 0x40 == u / 0x1000 * 0x40 + u / 0x40 % 0x40
    ensures u / 0x1000 == u / 0x4_0000 * 0x40 + u / 0x1000 % 0x40
  {
  }

  lemma FromDigits(w: nat, x: nat, y: nat, z: nat)
    requires x < 0x40 && y < 0x40 && z < 0x40
    ensures var u := w * 0x4_0000 + x * 0x1000 + y * 0x40 + z;
            && u / 0x4_0000 == w && u / 0x1000 == w * 0x40 + x && u / 0x40 == w * 0x1000 + x * 0x40 + y
            && u / 0x1000 % 0x40 == x && u / 0x40 % 0x40 == y && u % 0x40 == z
  {
    var u := w * 0x4_0000 + x * 0x1000 + y * 0x40 + z;
    assert u / 0x40 == w * 0x1000 + x * 0x40 + y;
    assert u / 0x1000 == w * 0x40 + x;
  }

  lemma ScalarIsSequence(u: Scalar)
    ensures IsSequence(EncodeScalar(u))
  {
    assert IsScalar(u);
    Digits(u);
  }

  /** One well-formed sequence of bytes, as the table of RFC 3629, section 4 lists them. */
  predicate IsSequence(b: ByteString) {
    || (|b| == 1 && b[0] < 0x80)
    || (|b| == 2 && 0xC2 <= b[0] < 0xE0 && IsTail(b[1]))
    || (|b| == 3 && 0xE0 <= b[0] < 0xF0 && IsTail(b[1]) && IsTail(b[2]) && (b[0] == 0xE0 ==> b[1] >= 0xA0)
        && (b[0] == 0xED ==> b[1] < 0xA0))
    || (|b| == 4 && 0xF0 <= b[0] < 0xF5 && IsTail(b[1]) && IsTail(b[2]) && IsTail(b[3])
        && (b[0] == 0xF0 ==> b[1] >= 0x90) && (b[0] == 0xF4 ==> b[1] < 0x90))
  }

  lemma ScalarThenRest(u: Scalar, rest: ByteString)
    ensures IsUtf8(EncodeScalar(u) + rest) <==> IsUtf8(rest)
  {
    hide EncodeScalar;
    ScalarIsSequence(u);
    var b := EncodeScalar(u);
    var s := b + rest;
    assert s[|b|..] == rest && s[0] == b[0];
    assert |b| > 1 ==> s[1] == b[1];
    assert |b| > 2 ==> s[2] == b[2];
    assert |b| > 3 ==> s[3] == b[3];
  }

  lemma {:induction false} EncodedIsUtf8(us: seq<Scalar>)
    ensures IsUtf8(EncodeText(us))
  {
    if us != [] {
      EncodedIsUtf8(us[1..]);
      ScalarThenRest(us[0], EncodeText(us[1..]));
    }
  }

  lemma SequenceIsScalar(b: ByteString) returns (u: Scalar)
    requires IsSequence(b)
    ensures EncodeScalar(u) == b
  {
    if |b| == 1 {
      u := b[0];
    } else if |b| == 2 {
      u := ScalarOf(0, 0, b[0] as int - 0xC0, b[1] as int - 0x80);
    } else if |b| == 3 {
      u := ScalarOf(0, b[0] as int - 0xE0, b[1] as int - 0x80, b[2] as int - 0x80);
    } else {
      u := ScalarOf(b[0] as int - 0xF0, b[1] as int - 0x80, b[2] as int - 0x80, b[3] as int - 0x80);
    }
  }

  lemma ScalarOf(w: nat, x: nat, y: nat, z: nat) returns (u: Scalar)
    requires x < 0x40 && y < 0x40 && z < 0x40 && IsScalar(w * 0x4_0000 + x * 0x1000 + y * 0x40 + z)
    ensures u / 0x4_0000 == w && u / 0x1000 == w * 0x40 + x && u / 0x40 == w * 0x1000 + x * 0x40 + y
    ensures u / 0x1000 % 0x40 == x && u / 0x40 % 0x40 == y && u % 0x40 == z
    ensures u == w * 0x4_0000 + x * 0x1000 + y * 0x40 + z
  {
    FromDigits(w, x, y, z);
    u := w * 0x4_0000 + x * 0x1000 + y * 0x40 + z;
  }

  lemma FirstScalar(s: ByteString) returns (u: Scalar)
    requires s != [] && IsUtf8(s)
    ensures var n := |EncodeScalar(u)|; n <= |s| && s[..n] == EncodeScalar(u) && IsUtf8(s[n..])
  {
    var n := if s[0] < 0x80 then 1 else if s[0] < 0xE0 then 2 else if s[0] < 0xF0 then 3 else 4;
    assert IsSequence(s[..n]);
    u := SequenceIsScalar(s[..n]);
  }

  lemma OneMoreScalar(u: Scalar, us: seq<Scalar>)
    ensures EncodeText([u] + us) == EncodeScalar(u) + EncodeText(us)
  {
    assert ([u] + us)[1..] == us;
  }

  lemma {:induction false} ScalarsOf(s: ByteString) returns (us: seq<Scalar>)
    requires IsUtf8(s)
    ensures EncodeText(us) == s
    decreases |s|
  {
    hide EncodeScalar, IsUtf8;
    if s == [] {
      us := [];
    } else {
      var u := FirstScalar(s);
      var n := |EncodeScalar(u)|;
      var rest := ScalarsOf(s[n..]);
      us := [u] + rest;
      OneMoreScalar(u, rest);
      assert s == s[..n] + s[n..];
    }
  }

  /** A byte string is accepted as a text if and only if it is the encoding of some string of scalar values. */
  lemma Utf8Iff(s: ByteString)
    ensures IsUtf8(s) <==> exists us :: EncodeText(us) == s
  {
    hide EncodeText, IsUtf8;
    if us :| EncodeText(us) == s {
      EncodedIsUtf8(us);
    }
    if IsUtf8(s) {
      var us := ScalarsOf(s);
    }
  }
}
