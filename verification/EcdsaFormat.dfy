/**
 ECDSA signatures: the DER form of section 2.2.3 of RFC 3279 and the Cryptoki [R,S] form.
 */
module EcdsaFormat {
  import opened Common
  import opened BigEndian

  /* ---------- DER ---------- */

  const INTEGER: byte := 0x02
  const SEQUENCE: byte := 0x30

  /** Lengths that the long form can express. */
  predicate Encodable(n: nat) {
    NumBytes(n) <= 126
  }

  function DerLen(n: nat): Bytes
    requires Encodable(n)
  {
    if n < 128 then [n as byte] else [(128 + NumBytes(n)) as byte] + Padded(n, NumBytes(n))
  }

  function Tlv(tag: byte, content: Bytes): Bytes
    requires Encodable(|content|)
  {
    [tag] + (DerLen(|content|) + content)
  }

  /** A non-negative integer in the fewest octets of two's complement. */
  function IntContent(n: nat): (r: Bytes)
    ensures r != []
  {
    var o := Padded(n, NumBytes(n));
    if n == 0 || o[0] >= 128 then [0] + o else o
  }

  function ParseLen(bs: Bytes): (r: Option<(nat, Bytes)>)
    ensures r.Some? ==> |r.value.1| < |bs|
  {
    if bs == [] then None
    else if bs[0] < 128 then Some((bs[0] as nat, bs[1..]))
    else
      var k := bs[0] as nat - 128;
      if k == 0 || k > 126 || k >= |bs| || bs[1] == 0 || Value(bs[1..1 + k]) < 128 then None
      else Some((Value(bs[1..1 + k]), bs[1 + k..]))
  }

  /** The content of the first element and what follows it. */
  function ParseTlv(tag: byte, bs: Bytes): Option<(Bytes, Bytes)> {
    if bs == [] || bs[0] != tag then None
    else
      var l := ParseLen(bs[1..]);
      if l.None? || l.value.0 > |l.value.1| then None
      else Some((l.value.1[..l.value.0], l.value.1[l.value.0..]))
  }

  function ParseUint(c: Bytes): Option<nat> {
    if c == [] || c[0] >= 128 || (|c| > 1 && c[0] == 0 && c[1] < 128) then None else Some(Value(c))
  }

  /** A SEQUENCE of exactly two non-negative INTEGERs; what follows it is not looked at. */
  function ParseSig(bs: Bytes): Option<(nat, nat)> {
    var outer := ParseTlv(SEQUENCE, bs);
    if outer.None? then None
    else
      var first := ParseTlv(INTEGER, outer.value.0);
      if first.None? then None
      else
        var second := ParseTlv(INTEGER, first.value.1);
        if second.None? || second.value.1 != [] then None
        else
          var r, s := ParseUint(first.value.0), ParseUint(second.value.0);
          if r.None? || s.None? then None else Some((r.value, s.value))
  }

  /** The two integers, one after the other. */
  function Pair(r: nat, s: nat): Bytes
    requires Encodable(|IntContent(r)|) && Encodable(|IntContent(s)|)
  {
    Tlv(INTEGER, IntContent(r)) + Tlv(INTEGER, IntContent(s))
  }

  predicate DerFits(r: nat, s: nat) {
    Encodable(|IntContent(r)|) && Encodable(|IntContent(s)|) && Encodable(|Pair(r, s)|)
  }

  function DerSig(r: nat, s: nat): Bytes
    requires DerFits(r, s)
  {
    Tlv(SEQUENCE, Pair(r, s))
  }

  lemma LenRoundTrip(n: nat, rest: Bytes)
    requires Encodable(n)
    ensures ParseLen(DerLen(n) + rest) == Some((n, rest))
  {
    var bs := DerLen(n) + rest;
    if n >= 128 {
      ShortestForm(n);
      var k := NumBytes(n);
      assert bs[1..1 + k] == Padded(n, k);
      assert bs[1] == Padded(n, k)[0];
      assert bs[1 + k..] == rest;
    } else {
      assert bs[1..] == rest;
    }
  }

  lemma LenCanonical(bs: Bytes)
    requires ParseLen(bs).Some?
    ensures var (n, rest) := ParseLen(bs).value; Encodable(n) && bs == DerLen(n) + rest
  {
    if bs[0] >= 128 {
      var k := bs[0] as nat - 128;
      var o := bs[1..1 + k];
      FullWidth(o);
      PaddedValue(o);
      assert bs == [bs[0]] + o + bs[1 + k..];
    } else {
      assert NumBytes(bs[0] as nat) <= 1;
      assert bs == [bs[0]] + bs[1..];
    }
  }

  lemma TlvRoundTrip(tag: byte, content: Bytes, rest: Bytes)
    requires Encodable(|content|)
    ensures ParseTlv(tag, Tlv(tag, content) + rest) == Some((content, rest))
  {
    var bs := Tlv(tag, content) + rest;
    assert bs[1..] == DerLen(|content|) + (content + rest);
    LenRoundTrip(|content|, content + rest);
    assert (content + rest)[..|content|] == content && (content + rest)[|content|..] == rest;
  }

  lemma TlvCanonical(tag: byte, bs: Bytes)
    requires ParseTlv(tag, bs).Some?
    ensures var (content, rest) := ParseTlv(tag, bs).value;
            Encodable(|content|) && bs == Tlv(tag, content) + rest
  {
    LenCanonical(bs[1..]);
    var (n, tail) := ParseLen(bs[1..]).value;
    assert tail == tail[..n] + tail[n..];
    assert bs == [tag] + bs[1..];
  }

  lemma UintRoundTrip(n: nat)
    ensures ParseUint(IntContent(n)) == Some(n)
  {
    ShortestForm(n);
    var o := Padded(n, NumBytes(n));
    ValueLeadingZero(o);
    if n > 0 && o[0] >= 128 {
      assert IntContent(n)[1] == o[0];
    }
  }

  lemma UintCanonical(c: Bytes)
    requires ParseUint(c).Some?
    ensures c == IntContent(ParseUint(c).value)
  {
    if c[0] != 0 {
      FullWidth(c);
      PaddedValue(c);
    } else if |c| == 1 {
      assert c[..0] == [];
      assert Value(c) == 0;
    } else {
      var o := c[1..];
      assert c == [0] + o;
      ValueLeadingZero(o);
      FullWidth(o);
      PaddedValue(o);
    }
  }

  /** Decoding an encoded pair gives it back, whatever follows. */
  lemma SigRoundTrip(r: nat, s: nat, rest: Bytes)
    requires DerFits(r, s)
    ensures ParseSig(DerSig(r, s) + rest) == Some((r, s))
  {
    TlvRoundTrip(SEQUENCE, Pair(r, s), rest);
    var second := Tlv(INTEGER, IntContent(s));
    TlvRoundTrip(INTEGER, IntContent(r), second);
    assert second + [] == second;
    TlvRoundTrip(INTEGER, IntContent(s), []);
    UintRoundTrip(r);
    UintRoundTrip(s);
  }

  /** Only one encoding of a pair is accepted. */
  lemma SigCanonical(bs: Bytes)
    requires ParseSig(bs).Some?
    ensures var (r, s) := ParseSig(bs).value; DerFits(r, s) && DerSig(r, s) <= bs
  {
    TlvCanonical(SEQUENCE, bs);
    var inner := ParseTlv(SEQUENCE, bs).value.0;
    TlvCanonical(INTEGER, inner);
    var (c1, rest) := ParseTlv(INTEGER, inner).value;
    TlvCanonical(INTEGER, rest);
    var (c2, end) := ParseTlv(INTEGER, rest).value;
    UintCanonical(c1);
    UintCanonical(c2);
    assert rest == Tlv(INTEGER, c2);
    assert inner == Pair(Value(c1), Value(c2));
  }

  /* ---------- The bytes ---------- */

  /** A non-negative integer in two's complement without a byte to spare. */
  predicate Minimal(c: Bytes) {
    c != [] && c[0] < 128 && (|c| > 1 && c[0] == 0 ==> c[1] >= 128)
  }

  /** One length byte below 128, and otherwise one that counts the length bytes after it. */
  lemma LengthBytes(n: nat)
    requires n < 0x1_0000
    ensures Encodable(n)
    ensures DerLen(n) == if n < 128 then [n as byte] else if n < 256 then [0x81, n as byte]
                         else [0x82, (n / 256) as byte, (n % 256) as byte]
  {
    var m := n / 256;
    assert m < 256 && m / 256 == 0 && NumBytes(0) == 0;
    assert NumBytes(m) == if m == 0 then 0 else 1;
    assert NumBytes(n) == if n == 0 then 0 else 1 + NumBytes(m);
    assert Padded(m, 1) == [m as byte];
    assert Padded(n, 1) == [(n % 256) as byte];
    assert Padded(n, 2) == Padded(m, 1) + [(n % 256) as byte];
  }

  /** An element byte by byte: tag, length, content. */
  lemma ElementBytes(tag: byte, content: Bytes)
    requires |content| < 0x1_0000
    ensures Encodable(|content|) && Tlv(tag, content) == [tag] + DerLen(|content|) + content
    ensures |Tlv(tag, content)| <= |content| + 4
  {
    LengthBytes(|content|);
    var len := DerLen(|content|);
    assert [tag] + (len + content) == [tag] + len + content;
  }

  /** A signature is a SEQUENCE (0x30) of two INTEGERs (0x02). */
  lemma SigBytes(a: Bytes, b: Bytes)
    requires Minimal(a) && Minimal(b) && |a| + |b| < 0x1_0000 - 8
    ensures DerFits(Value(a), Value(b)) && Encodable(|a|) && Encodable(|b|)
    ensures Encodable(|Tlv(0x02, a) + Tlv(0x02, b)|)
    ensures DerSig(Value(a), Value(b)) == Tlv(0x30, Tlv(0x02, a) + Tlv(0x02, b))
  {
    UintCanonical(a);
    UintCanonical(b);
    ElementBytes(0x02, a);
    ElementBytes(0x02, b);
    PairBytes(Tlv(0x02, a), Tlv(0x02, b));
  }

  lemma PairBytes(x: Bytes, y: Bytes)
    requires |x| + |y| < 0x1_0000
    ensures Encodable(|x + y|)
  {
    LengthBytes(|x + y|);
  }

  /** R = 1 and S = 255: the second integer takes a leading zero. */
  lemma SigExample()
    ensures DerFits(1, 255) && DerSig(1, 255) == [0x30, 7, 0x02, 1, 1, 0x02, 2, 0, 255]
  {
    var a: Bytes, b: Bytes := [1], [0, 255];
    assert a[..0] == [] && b[..1] == [0] && b[..1][..0] == [];
    assert Value(b[..1]) == 0 && Value(a) == 1 && Value(b) == 255;
    SigBytes(a, b);
    ElementBytes(0x02, a);
    ElementBytes(0x02, b);
    var x, y := Tlv(0x02, a), Tlv(0x02, b);
    assert x == [0x02, 1, 1] && y == [0x02, 2, 0, 255];
    assert x + y == [0x02, 1, 1, 0x02, 2, 0, 255];
    ElementBytes(0x30, x + y);
  }

  /* ---------- [R,S] ---------- */

  function First(c: Bytes): Bytes {
    c[..|c| / 2]
  }

  function Second(c: Bytes): Bytes {
    c[|c| / 2..]
  }

  function Max(a: nat, b: nat): nat {
    if a >= b then a else b
  }

  /** Both numbers padded to the longer of the two. */
  function Ckrs(r: nat, s: nat): Bytes {
    var n := Max(NumBytes(r), NumBytes(s));
    Padded(r, n) + Padded(s, n)
  }

  lemma CkrsHalves(r: nat, s: nat)
    ensures var c := Ckrs(r, s);
            var n := Max(NumBytes(r), NumBytes(s));
            && |c| == 2 * n && First(c) == Padded(r, n) && Second(c) == Padded(s, n)
            && Value(First(c)) == r && Value(Second(c)) == s
  {
    var n := Max(NumBytes(r), NumBytes(s));
    NumBytesBound(r, n);
    NumBytesBound(s, n);
    ValuePadded(r, n);
    ValuePadded(s, n);
  }

  /** Some half starts with a nonzero byte, or there is nothing. */
  predicate FullLength(c: Bytes) {
    c == [] || c[0] != 0 || c[|c| / 2] != 0
  }

  lemma CkrsOfHalves(a: Bytes, b: Bytes)
    requires |a| == |b| && a != []
    ensures Max(NumBytes(Value(a)), NumBytes(Value(b))) <= |a|
    ensures Max(NumBytes(Value(a)), NumBytes(Value(b))) == |a| <==> a[0] != 0 || b[0] != 0
    ensures a[0] != 0 || b[0] != 0 ==> Ckrs(Value(a), Value(b)) == a + b
  {
    FullWidth(a);
    FullWidth(b);
    PaddedValue(a);
    PaddedValue(b);
  }

  /** [R,S] bytes are what their values give back exactly when no common zero column leads them. */
  lemma CkrsSame(c: Bytes)
    requires |c| % 2 == 0
    ensures |Ckrs(Value(First(c)), Value(Second(c)))| <= |c|
    ensures Ckrs(Value(First(c)), Value(Second(c))) == c <==> FullLength(c)
  {
    if c != [] {
      var a, b := First(c), Second(c);
      CkrsOfHalves(a, b);
      assert a + b == c;
      assert b[0] == c[|c| / 2];
    }
  }
}
