/** Bytes, big-endian numbers and the order of byte strings. */
module Bytes {
  type Byte = b: nat | b < 256
  type ByteString = seq<Byte>

  function Power256(k: nat): (p: nat)
    ensures p > 0
  {
    if k == 0 then 1 else 256 * Power256(k - 1)
  }

  /** The k low bytes of n, most significant first. */
  function BigEndian(n: nat, k: nat): (s: ByteString)
    ensures |s| == k
  {
    if k == 0 then [] else BigEndian(n / 256, k - 1) + [n % 256]
  }

  function FromBigEndian(s: ByteString): nat {
    if s == [] then 0 else FromBigEndian(s[..|s| - 1]) * 256 + s[|s| - 1]
  }

  lemma {:induction false} FromOfBigEndian(n: nat, k: nat)
    requires n < Power256(k)
    ensures FromBigEndian(BigEndian(n, k)) == n
  {
    if k > 0 {
      FromOfBigEndian(n / 256, k - 1);
      var s := BigEndian(n, k);
      assert s[..k - 1] == BigEndian(n / 256, k - 1);
    }
  }

  lemma {:induction false} BigEndianOfFrom(s: ByteString)
    ensures FromBigEndian(s) < Power256(|s|)
    ensures BigEndian(FromBigEndian(s), |s|) == s
  {
    if s != [] {
      var init, last := s[..|s| - 1], s[|s| - 1];
      BigEndianOfFrom(init);
      assert FromBigEndian(s) / 256 == FromBigEndian(init) && FromBigEndian(s) % 256 == last;
      assert s == init + [last];
    }
  }

  /** Byte by byte; a proper prefix comes first. */
  predicate Less(a: ByteString, b: ByteString) {
    if a == [] then b != []
    else b != [] && (a[0] < b[0] || (a[0] == b[0] && Less(a[1..], b[1..])))
  }

  lemma {:induction false} LessIsIrreflexive(a: ByteString)
    ensures !Less(a, a)
  {
    if a != [] {
      LessIsIrreflexive(a[1..]);
    }
  }

  lemma {:induction false} LessIsTotal(a: ByteString, b: ByteString)
    ensures Less(a, b) ==> a != b && !Less(b, a)
    ensures a != b ==> Less(a, b) || Less(b, a)
    decreases |a|
  {
    LessIsIrreflexive(a);
    if a != [] && b != [] {
      LessIsTotal(a[1..], b[1..]);
      if a[0] == b[0] && a[1..] == b[1..] {
        assert a == [a[0]] + a[1..] == b;
      }
    }
  }

  lemma {:induction false} LessIsTransitive(a: ByteString, b: ByteString, c: ByteString)
    requires Less(a, b) && Less(b, c)
    ensures Less(a, c)
    decreases |b|
  {
    if a != [] && a[0] == b[0] == c[0] {
      LessIsTransitive(a[1..], b[1..], c[1..]);
    }
  }

  /** The first i bytes agree, and then a ends or is lower. */
  predicate LowerAt(a: ByteString, b: ByteString, i: nat) {
    i <= |a| && i < |b| && a[..i] == b[..i] && (i == |a| || a[i] < b[i])
  }

  lemma LowerAtRest(a: ByteString, b: ByteString, i: nat)
    requires a != [] && b != [] && a[0] == b[0]
    ensures LowerAt(a, b, i + 1) <==> LowerAt(a[1..], b[1..], i)
  {
    if i < |a| && i < |b| {
      assert a[..i + 1] == [a[0]] + a[1..][..i] && b[..i + 1] == [b[0]] + b[1..][..i];
      assert a[..i + 1][1..] == a[1..][..i] && b[..i + 1][1..] == b[1..][..i];
    }
  }

  lemma LowerAtFirst(a: ByteString, b: ByteString)
    ensures LowerAt(a, b, 0) <==> b != [] && (a == [] || a[0] < b[0])
    ensures forall i: nat :: LowerAt(a, b, i) && i > 0 ==> a != [] && b != [] && a[0] == b[0]
  {
    forall i: nat | LowerAt(a, b, i) && i > 0 ensures a != [] && b != [] && a[0] == b[0] {
      assert a[..i][0] == a[0] && b[..i][0] == b[0];
    }
  }

  /** The order is decided at the first byte in which the two differ, and a proper prefix comes first. */
  lemma {:induction false} LessIff(a: ByteString, b: ByteString)
    ensures Less(a, b) <==> exists i: nat :: LowerAt(a, b, i)
    decreases |a|
  {
    hide LowerAt;
    LowerAtFirst(a, b);
    if a != [] && b != [] && a[0] == b[0] {
      LessIff(a[1..], b[1..]);
      if i: nat :| LowerAt(a[1..], b[1..], i) {
        LowerAtRest(a, b, i);
      }
      if i: nat :| LowerAt(a, b, i) {
        assert i > 0;
        LowerAtRest(a, b, i - 1);
      }
    } else if i: nat :| LowerAt(a, b, i) {
      assert i == 0;
    } else {
      assert !LowerAt(a, b, 0);
    }
  }
}
