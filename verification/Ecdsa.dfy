/**
 The conversions between the two signature forms, in both directions.
 */
module Ecdsa {
  import opened Common
  import opened BigEndian
  import opened EcdsaFormat

  /* ---------- How long the DER form gets ---------- */

  function LenLen(n: nat): nat {
    if n < 128 then 1 else 1 + NumBytes(n)
  }

  /** The most that a SEQUENCE of two integers of `n` bytes can take. */
  function SigMaxLen(n: nat): nat {
    var both := 2 * (1 + LenLen(n + 1) + (n + 1));
    1 + LenLen(both) + both
  }

  lemma {:induction false} NumBytesMono(a: nat, b: nat)
    requires a <= b
    ensures NumBytes(a) <= NumBytes(b)
  {
    if a > 0 {
      NumBytesMono(a / 256, b / 256);
    }
  }

  lemma LenLenMono(a: nat, b: nat)
    requires a <= b
    ensures LenLen(a) <= LenLen(b)
  {
    NumBytesMono(a, b);
  }

  lemma TlvLen(tag: byte, content: Bytes, bound: nat)
    requires Encodable(|content|) && |content| <= bound
    ensures |Tlv(tag, content)| <= 1 + LenLen(bound) + bound
  {
    LenLenMono(|content|, bound);
  }

  /** Everything below 2^65 is encodable. */
  lemma SmallEncodable(n: nat)
    requires n < 2 * U64_SIZE
    ensures Encodable(n)
  {
    assert Pow256(2) == 0x1_0000;
    assert Pow256(4) == 0x1_0000_0000;
    assert Pow256(6) == 0x1_0000_0000_0000;
    assert Pow256(8) == U64_SIZE;
    NumBytesBound(n, 9);
  }

  lemma PairLen(r: nat, s: nat, n: nat)
    requires NumBytes(r) <= n && NumBytes(s) <= n && n < U64_SIZE
    ensures Encodable(|IntContent(r)|) && Encodable(|IntContent(s)|)
    ensures |Pair(r, s)| <= 2 * (1 + LenLen(n + 1) + (n + 1))
  {
    SmallEncodable(|IntContent(r)|);
    SmallEncodable(|IntContent(s)|);
    TlvLen(INTEGER, IntContent(r), n + 1);
    TlvLen(INTEGER, IntContent(s), n + 1);
  }

  /** The DER form of numbers of at most `n` bytes exists and fits the buffer made for it. */
  lemma DerSigFits(r: nat, s: nat, n: nat)
    requires NumBytes(r) <= n && NumBytes(s) <= n && n < U64_SIZE / 2
    ensures DerFits(r, s) && |DerSig(r, s)| <= SigMaxLen(n)
  {
    PairLen(r, s, n);
    var both := 2 * (1 + LenLen(n + 1) + (n + 1));
    SmallEncodable(n + 1);
    LenEnough(n + 1);
    SmallEncodable(|Pair(r, s)|);
    TlvLen(SEQUENCE, Pair(r, s), both);
  }

  lemma LenEnough(n: nat)
    requires n < U64_SIZE
    ensures LenLen(n) <= 9
  {
    assert Pow256(2) == 0x1_0000;
    assert Pow256(4) == 0x1_0000_0000;
    assert Pow256(6) == 0x1_0000_0000_0000;
    assert Pow256(8) == U64_SIZE;
    NumBytesBound(n, 8);
  }

  /* ---------- [R,S] to DER and back ---------- */

  /** A Cryptoki signature: two halves, in addressable memory. */
  predicate IsCkrs(c: Bytes) {
    |c| % 2 == 0 && |c| < U64_SIZE
  }

  lemma HalvesFit(c: Bytes)
    requires IsCkrs(c)
    ensures var r, s := Value(First(c)), Value(Second(c));
            DerFits(r, s) && |DerSig(r, s)| <= SigMaxLen(|c| / 2)
  {
    var a, b := First(c), Second(c);
    PaddedValue(a);
    PaddedValue(b);
    NumBytesBound(Value(a), |a|);
    NumBytesBound(Value(b), |b|);
    DerSigFits(Value(a), Value(b), |c| / 2);
  }

  function CkrsToDer(c: Bytes): Bytes
    requires IsCkrs(c)
  {
    HalvesFit(c);
    DerSig(Value(First(c)), Value(Second(c)))
  }

  function DerToCkrs(der: Bytes): Option<Bytes> {
    var sig := ParseSig(der);
    if sig.None? then None else Some(Ckrs(sig.value.0, sig.value.1))
  }

  /** [R,S] to DER and back: R and S keep their values whatever follows the DER, the result is no
      longer, and it is the same bytes exactly when some half has a nonzero leading byte. */
  lemma CkrsThereAndBack(c: Bytes, padding: Bytes)
    requires IsCkrs(c)
    ensures var back := DerToCkrs(CkrsToDer(c) + padding);
            && back.Some? && |back.value| % 2 == 0 && |back.value| <= |c|
            && Value(First(back.value)) == Value(First(c)) && Value(Second(back.value)) == Value(Second(c))
            && (back.value == c <==> FullLength(c))
  {
    HalvesFit(c);
    var r, s := Value(First(c)), Value(Second(c));
    SigRoundTrip(r, s, padding);
    CkrsHalves(r, s);
    CkrsSame(c);
  }

  /** DER to [R,S] and back: the DER bytes themselves, without what followed them. */
  lemma DerThereAndBack(der: Bytes)
    requires DerToCkrs(der).Some? && |DerToCkrs(der).value| < U64_SIZE
    ensures var c := DerToCkrs(der).value;
            && IsCkrs(c) && FullLength(c)
            && CkrsToDer(c) <= der
  {
    SigCanonical(der);
    var (r, s) := ParseSig(der).value;
    CkrsHalves(r, s);
    CkrsSame(Ckrs(r, s));
  }

  lemma DerOfPrefix(der: Bytes, c: Bytes)
    requires IsCkrs(c) && FullLength(c) && CkrsToDer(c) <= der
    ensures DerToCkrs(der) == Some(c)
  {
    var d := CkrsToDer(c);
    PrefixSplit(d, der);
    CkrsThereAndBack(c, der[|d|..]);
  }

  lemma PrefixSplit(a: Bytes, b: Bytes)
    requires a <= b
    ensures a + b[|a|..] == b
  {
  }

  /** Bytes convert to a given [R,S] form exactly when they start with its DER form. */
  lemma CkrsDecided(der: Bytes, c: Bytes)
    requires IsCkrs(c) && FullLength(c)
    ensures DerToCkrs(der) == Some(c) <==> CkrsToDer(c) <= der
  {
    if DerToCkrs(der) == Some(c) {
      DerThereAndBack(der);
    } else if CkrsToDer(c) <= der {
      DerOfPrefix(der, c);
    }
  }

  /* ---------- The conversions as the code makes them ---------- */

  /** Write a number into `k` bytes of a buffer, from its low end; refuse one that needs more. */
  method FillPadded(dst: array<byte>, at: nat, k: nat, n: nat) returns (ok: bool)
    requires at + k <= dst.Length
    modifies dst
    ensures ok <==> NumBytes(n) <= k
    ensures ok ==> dst[..] == old(dst[..at]) + Padded(n, k) + old(dst[at + k..])
  {
    var left: nat, i: nat := n, k;
    ghost var tail := dst[at + k..];
    while i > 0
      invariant i <= k
      invariant NumBytes(n) <= k <==> NumBytes(left) <= i
      invariant Padded(n, k) == Padded(left, i) + dst[at + i..at + k]
      invariant dst[..at] == old(dst[..at]) && dst[at + k..] == tail
    {
      ghost var low := dst[at + i..at + k];
      i := i - 1;
      dst[at + i] := (left % 256) as byte;
      assert dst[at + i..at + k] == [dst[at + i]] + low;
      left := left / 256;
    }
    ok := left == 0;
    assert dst[..] == dst[..at] + dst[at..at + k] + dst[at + k..];
  }

  /** DER to [R,S], or None for bytes that do not start with a signature. */
  method SigDerToCkrs(der: Bytes) returns (r: Option<Bytes>)
    ensures r == DerToCkrs(der)
  {
    var sig := ParseSig(der);
    if sig.None? {
      return None;
    }
    var (bnR, bnS) := sig.value;
    var rLen, sLen := NumBytes(bnR), NumBytes(bnS);
    var orderLen := if rLen >= sLen then rLen else sLen;
    var ret := new byte[2 * orderLen](_ => 0);
    var ok := FillPadded(ret, 0, orderLen, bnR);
    if !ok {
      return None;
    }
    ghost var half := ret[..orderLen];
    assert half == Padded(bnR, orderLen);
    ok := FillPadded(ret, orderLen, orderLen, bnS);
    if !ok {
      return None;
    }
    assert ret[..] == half + Padded(bnS, orderLen);
    r := Some(ret[..]);
  }

  /** [R,S] to DER, by way of a buffer that is large enough and is then cut to size. */
  method SigCkrsToDer(ckrs: Bytes) returns (der: Bytes)
    requires IsCkrs(ckrs)
    ensures der == CkrsToDer(ckrs)
  {
    HalvesFit(ckrs);
    var bnR, bnS := Value(ckrs[..|ckrs| / 2]), Value(ckrs[|ckrs| / 2..]);
    var buf := new byte[SigMaxLen(|ckrs| / 2)](_ => 0);
    var len := Marshal(DerSig(bnR, bnS), buf);
    der := buf[..len];
  }

  method Marshal(src: Bytes, dst: array<byte>) returns (len: nat)
    requires |src| <= dst.Length
    modifies dst
    ensures len == |src| && dst[..] == src + old(dst[|src|..])
  {
    forall i | 0 <= i < |src| {
      dst[i] := src[i];
    }
    len := |src|;
    assert dst[..] == dst[..len] + dst[len..];
  }
}
