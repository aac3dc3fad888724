/**
 Single-part signing and verification: what length is advertised, what is delivered, and when the
 module accepts its own signatures.
 */
module Signing {
  import opened Common
  import opened OutputConvention
  import opened BigEndian
  import opened EcdsaFormat
  import opened Ecdsa

  /** A key as far as signature sizes go: its bits (the modulus, or the order of the curve). */
  datatype Key = Rsa(bits: nat) | Ec(bits: nat, order: nat)

  function Pow2(k: nat): nat {
    if k == 0 then 1 else 2 * Pow2(k - 1)
  }

  function ByteLen(bits: nat): nat {
    (bits + 7) / 8
  }

  predicate GoodKey(key: Key) {
    0 < key.bits < 0x8000_0000 && (key.Ec? ==> key.order < Pow2(key.bits))
  }

  /** The size of the signature as the crypto library writes it. */
  function SigLen(key: Key): nat {
    match key
    case Rsa(bits) => ByteLen(bits)
    case Ec(bits, _) => SigMaxLen(ByteLen(bits))
  }

  /** The size advertised to callers. */
  function SigLenCk(key: Key): nat {
    match key
    case Rsa(_) => SigLen(key)
    case Ec(bits, _) => ByteLen(bits) * 2
  }

  /** What the crypto library computes: it may refuse the data. */
  datatype Raw = RsaSig(bytes: Bytes) | EcSig(r: nat, s: nat) | Refused

  datatype Lib = Lib(sign: Bytes -> Raw, accept: (Bytes, Bytes) -> bool)

  predicate RawFits(key: Key, raw: Raw) {
    match raw
    case RsaSig(bytes) => key.Rsa? && |bytes| == SigLen(key)
    case EcSig(r, s) => key.Ec? && r < key.order && s < key.order
    case Refused => true
  }

  /** The library's contract for signing: the size of an RSA signature, and numbers below the order. */
  ghost predicate LawfulSigner(key: Key, lib: Lib) {
    forall data :: RawFits(key, lib.sign(data))
  }

  /** The library's own form of a signature. */
  function Form(raw: Raw): Bytes
    requires raw.EcSig? ==> DerFits(raw.r, raw.s)
  {
    match raw
    case RsaSig(bytes) => bytes
    case EcSig(r, s) => DerSig(r, s)
    case Refused => []
  }

  lemma {:induction false} Pow2Mono(a: nat, b: nat)
    requires a <= b
    ensures Pow2(a) <= Pow2(b)
  {
    if a < b {
      Pow2Mono(a, b - 1);
    }
  }

  lemma Pow2Four(k: nat)
    ensures Pow2(k + 4) == 16 * Pow2(k)
  {
    assert Pow2(k + 2) == 2 * Pow2(k + 1);
    assert Pow2(k + 4) == 2 * Pow2(k + 3);
  }

  lemma {:induction false} Pow2OfBytes(k: nat)
    ensures Pow2(8 * k) == Pow256(k)
  {
    if k > 0 {
      Pow2OfBytes(k - 1);
      Pow2Four(8 * (k - 1));
      Pow2Four(8 * (k - 1) + 4);
    }
  }

  lemma BitsInBytes(bits: nat)
    ensures Pow2(bits) <= Pow256(ByteLen(bits))
  {
    Pow2Mono(bits, 8 * ByteLen(bits));
    Pow2OfBytes(ByteLen(bits));
  }

  /** R and S below the order fit the advertised halves, and their DER form the signature buffer. */
  lemma RawFormFits(key: Key, raw: Raw)
    requires GoodKey(key) && RawFits(key, raw)
    ensures raw.EcSig? ==> NumBytes(raw.r) <= ByteLen(key.bits) && NumBytes(raw.s) <= ByteLen(key.bits)
    ensures raw.EcSig? ==> DerFits(raw.r, raw.s)
    ensures |Form(raw)| <= SigLen(key)
  {
    if raw.EcSig? {
      BitsInBytes(key.bits);
      NumBytesBound(raw.r, ByteLen(key.bits));
      NumBytesBound(raw.s, ByteLen(key.bits));
      DerSigFits(raw.r, raw.s, ByteLen(key.bits));
    }
  }

  function Zeros(n: nat): (r: Bytes)
    ensures |r| == n
  {
    seq(n, _ => 0)
  }

  /** The signature buffer after the library wrote to its start. */
  function SigBuffer(key: Key, raw: Raw): Bytes
    requires GoodKey(key) && RawFits(key, raw)
  {
    RawFormFits(key, raw);
    Form(raw) + Zeros(SigLen(key) - |Form(raw)|)
  }

  /** The signature handed out. */
  function CkSig(key: Key, raw: Raw): Option<Bytes>
    requires GoodKey(key) && RawFits(key, raw)
  {
    if raw.Refused? then None
    else if key.Ec? then DerToCkrs(SigBuffer(key, raw))
    else Some(SigBuffer(key, raw))
  }

  /** Converting the buffer ignores the zeros after the DER form. */
  lemma EcBuffer(key: Key, r: nat, s: nat)
    requires GoodKey(key) && RawFits(key, EcSig(r, s))
    ensures DerToCkrs(SigBuffer(key, EcSig(r, s))) == Some(Ckrs(r, s))
  {
    RawFormFits(key, EcSig(r, s));
    SigRoundTrip(r, s, Zeros(SigLen(key) - |DerSig(r, s)|));
  }

  lemma CkrsLength(r: nat, s: nat, k: nat)
    requires k > 0 && NumBytes(r) <= k && NumBytes(s) <= k
    ensures |Ckrs(r, s)| <= 2 * k
    ensures |Ckrs(r, s)| == 2 * k <==> r >= Pow256(k - 1) || s >= Pow256(k - 1)
  {
    NumBytesBound(r, k - 1);
    NumBytesBound(s, k - 1);
  }

  lemma EcLength(key: Key, r: nat, s: nat)
    requires GoodKey(key) && RawFits(key, EcSig(r, s))
    ensures |Ckrs(r, s)| <= SigLenCk(key)
    ensures |Ckrs(r, s)| == SigLenCk(key) <==> FullRange(key, r, s)
  {
    RawFormFits(key, EcSig(r, s));
    CkrsLength(r, s, ByteLen(key.bits));
  }

  lemma EcFits(key: Key, r: nat, s: nat)
    requires GoodKey(key) && RawFits(key, EcSig(r, s))
    ensures CkSig(key, EcSig(r, s)) == Some(Ckrs(r, s))
    ensures var sig := Ckrs(r, s);
            && |sig| % 2 == 0 && |sig| <= SigLenCk(key)
            && Value(First(sig)) == r && Value(Second(sig)) == s
            && (|sig| == SigLenCk(key) <==> FullRange(key, r, s))
  {
    EcBuffer(key, r, s);
    EcLength(key, r, s);
    CkrsHalves(r, s);
  }

  lemma RsaFits(key: Key, bytes: Bytes)
    requires GoodKey(key) && RawFits(key, RsaSig(bytes))
    ensures CkSig(key, RsaSig(bytes)) == Some(bytes) && |bytes| == SigLenCk(key)
  {
    assert bytes + Zeros(0) == bytes;
  }

  /** Output always fits: the signature is what the library computed, no longer than advertised; an
      RSA signature has exactly that length, an ECDSA one exactly when R or S takes all its bytes. */
  lemma SigFits(key: Key, raw: Raw)
    requires GoodKey(key) && RawFits(key, raw)
    ensures CkSig(key, raw).None? <==> raw.Refused?
    ensures raw.RsaSig? ==> CkSig(key, raw) == Some(raw.bytes) && |raw.bytes| == SigLenCk(key)
    ensures raw.EcSig? ==>
              var sig := CkSig(key, raw).value;
              && |sig| % 2 == 0 && |sig| <= SigLenCk(key)
              && Value(First(sig)) == raw.r && Value(Second(sig)) == raw.s
              && (|sig| == SigLenCk(key) <==> FullRange(key, raw.r, raw.s))
  {
    match raw
    case RsaSig(bytes) => RsaFits(key, bytes);
    case EcSig(r, s) => EcFits(key, r, s);
    case Refused =>
  }

  /** R or S needs every byte of the order's length. */
  predicate FullRange(key: Key, r: nat, s: nat)
    requires key.bits > 0
  {
    r >= Pow256(ByteLen(key.bits) - 1) || s >= Pow256(ByteLen(key.bits) - 1)
  }

  /* ---------- The signing and verifying calls ---------- */

  /** A context: a direct one has no phases, one that digests first does. */
  datatype Ctx = Direct | Digesting(phase: Phase)

  predicate CanSingle(ctx: Ctx) {
    ctx.Digesting? ==> CanEnter(ctx.phase, SinglepartActive)
  }

  function Entered(ctx: Ctx): Ctx {
    if ctx.Direct? then Direct else Digesting(SinglepartActive)
  }

  function SignStep(key: Key, lib: Lib, ctx: Option<Ctx>, data: Option<Bytes>, out: Out): (Option<Ctx>, Reply)
    requires GoodKey(key) && forall d :: data == Some(d) ==> RawFits(key, lib.sign(d))
  {
    var need := SigLenCk(key);
    if ctx.None? then (None, Failed(CkrOperationNotInitialized))
    else if !CanSingle(ctx.value) then (None, Failed(CkrOperationActive))
    else
      var early := Unproduced(out, need);
      if early.Some? then (if out.NullLen? then None else Some(Entered(ctx.value)), early.value)
      else if data.None? then (None, Reply(CkrArgumentsBad, Some(need), None))
      else
        var sig := CkSig(key, lib.sign(data.value));
        (None, if sig.None? then Reply(CkrGeneralError, Some(need), None) else Produced(sig.value, out.size, need))
  }

  function VerifyStep(key: Key, lib: Lib, ctx: Option<Ctx>, data: Option<Bytes>, sig: Option<Bytes>): Rv
    requires GoodKey(key)
  {
    if ctx.None? then CkrOperationNotInitialized
    else if !CanSingle(ctx.value) then CkrOperationActive
    else if data.None? || sig.None? then CkrArgumentsBad
    else if |sig.value| != SigLenCk(key) then CkrSignatureLenRange
    else
      var form := if key.Ec? then CkrsToDer(sig.value) else sig.value;
      if lib.accept(data.value, form) then CkrOk else CkrSignatureInvalid
  }

  /** The branch for a produced signature that is too long is never taken, and an OK answer with bytes
      reports exactly their number, within the buffer. */
  lemma SignReply(key: Key, lib: Lib, ctx: Option<Ctx>, data: Option<Bytes>, out: Out)
    requires GoodKey(key) && LawfulSigner(key, lib)
    ensures var (after, reply) := SignStep(key, lib, ctx, data, out);
            && !reply.rv.CkrDeviceError?
            && (reply.data.Some? ==>
                  && reply.rv.CkrOk? && out.Buf? && data.Some? && after.None?
                  && reply.len == Some(|reply.data.value|) && |reply.data.value| <= out.size
                  && reply.data == CkSig(key, lib.sign(data.value)))
            && (ctx.Some? ==> (after.Some? <==> CanSingle(ctx.value) && AsksAgain(out, SigLenCk(key))))
  {
    if data.Some? {
      assert RawFits(key, lib.sign(data.value));
      SigFits(key, lib.sign(data.value));
    }
  }

  /** Asking for the length, or bringing too small a buffer, any number of times changes nothing for
      the call that follows. */
  lemma {:induction false} RetrySign(key: Key, lib: Lib, ctx: Ctx, tries: seq<(Option<Bytes>, Out)>, data: Option<Bytes>, out: Out)
    requires GoodKey(key) && LawfulSigner(key, lib) && CanSingle(ctx)
    requires forall i | 0 <= i < |tries| :: AsksAgain(tries[i].1, SigLenCk(key))
    decreases |tries|
    ensures Tried(key, lib, Some(ctx), tries).Some?
    ensures SignStep(key, lib, Tried(key, lib, Some(ctx), tries), data, out) == SignStep(key, lib, Some(ctx), data, out)
  {
    if tries != [] {
      assert SignStep(key, lib, Some(ctx), tries[0].0, tries[0].1).0 == Some(Entered(ctx));
      RetrySign(key, lib, Entered(ctx), tries[1..], data, out);
    }
  }

  /** The context after some calls. */
  ghost function Tried(key: Key, lib: Lib, ctx: Option<Ctx>, tries: seq<(Option<Bytes>, Out)>): Option<Ctx>
    requires GoodKey(key) && LawfulSigner(key, lib)
    decreases |tries|
  {
    if tries == [] then ctx
    else Tried(key, lib, SignStep(key, lib, ctx, tries[0].0, tries[0].1).0, tries[1..])
  }

  /** The library accepts what it signed. */
  ghost predicate LawfulVerifier(key: Key, lib: Lib) {
    && LawfulSigner(key, lib)
    && forall data :: (lib.sign(data).EcSig? ==> DerFits(lib.sign(data).r, lib.sign(data).s))
                   && (!lib.sign(data).Refused? ==> lib.accept(data, Form(lib.sign(data))))
  }

  /** Verifying a signature that the module made succeeds exactly when the key is RSA or R or S takes
      all its bytes; otherwise the signature is refused for its length. */
  lemma SignThenVerify(key: Key, lib: Lib, sctx: Ctx, vctx: Ctx, data: Bytes, size: nat)
    requires GoodKey(key) && LawfulVerifier(key, lib) && CanSingle(sctx) && CanSingle(vctx)
    requires size >= SigLenCk(key) && !lib.sign(data).Refused?
    ensures var raw := lib.sign(data);
            var reply := SignStep(key, lib, Some(sctx), Some(data), Buf(size)).1;
            && reply.rv.CkrOk? && reply.data.Some?
            && VerifyStep(key, lib, Some(vctx), Some(data), reply.data)
               == if raw.EcSig? && !FullRange(key, raw.r, raw.s) then CkrSignatureLenRange else CkrOk
  {
    var raw := lib.sign(data);
    assert RawFits(key, raw);
    SigFits(key, raw);
    RawFormFits(key, raw);
    var sig := CkSig(key, raw).value;
    if raw.EcSig? && FullRange(key, raw.r, raw.s) {
      assert CkrsToDer(sig) == DerSig(raw.r, raw.s);
    }
  }

  /** The numbers that two halves of a signature stand for. */
  function Halves(sig: Bytes): (nat, nat) {
    (Value(sig[..|sig| / 2]), Value(sig[|sig| / 2..]))
  }

  /** The library accepts the signature for the data: an RSA signature as it is, an ECDSA one in its DER
      form, which is the only string without anything after it that reads as the numbers of the halves. */
  ghost predicate LibraryAccepts(key: Key, lib: Lib, data: Bytes, sig: Bytes) {
    match key
    case Rsa(_) => lib.accept(data, sig)
    case Ec(_, _) => exists der: Bytes :: IsDerOf(der, Halves(sig)) && lib.accept(data, der)
  }

  /** No shorter string reads as the pair. */
  ghost predicate IsDerOf(der: Bytes, pair: (nat, nat)) {
    ParseSig(der) == Some(pair) && forall n | 0 <= n < |der| :: ParseSig(der[..n]) != Some(pair)
  }

  lemma DerOfIs(der: Bytes, r: nat, s: nat)
    requires DerFits(r, s)
    ensures IsDerOf(der, (r, s)) <==> der == DerSig(r, s)
  {
    var d := DerSig(r, s);
    if IsDerOf(der, (r, s)) {
      SigCanonical(der);
      if |d| < |der| {
        assert der[..|d|] == d + [];
        SigRoundTrip(r, s, []);
      }
    }
    if der == d {
      SigRoundTrip(r, s, []);
      assert d + [] == d;
      forall n | 0 <= n < |d| ensures ParseSig(d[..n]) != Some((r, s)) {
        if ParseSig(d[..n]) == Some((r, s)) {
          SigCanonical(d[..n]);
        }
      }
    }
  }

  /** Single-part use of the context is let in. */
  predicate LetIn(ctx: Option<Ctx>) {
    ctx.Some? && (ctx.value.Direct? || ctx.value.phase.Initialized? || ctx.value.phase.SinglepartActive?)
  }

  /** What is verified: for every context, data and signature the answer is OK exactly when the call is let
      in, the signature has the advertised length and the library accepts it; each other answer has its
      cause, and what the library refuses is refused. */
  lemma VerifyAnswer(key: Key, lib: Lib, ctx: Option<Ctx>, data: Option<Bytes>, sig: Option<Bytes>)
    requires GoodKey(key)
    ensures var rv := VerifyStep(key, lib, ctx, data, sig);
            var fits := LetIn(ctx) && data.Some? && sig.Some? && |sig.value| == SigLenCk(key);
            && (rv == CkrOk <==> fits && LibraryAccepts(key, lib, data.value, sig.value))
            && (rv == CkrSignatureInvalid <==> fits && !LibraryAccepts(key, lib, data.value, sig.value))
            && (rv == CkrSignatureLenRange <==> LetIn(ctx) && data.Some? && sig.Some? && |sig.value| != SigLenCk(key))
            && (rv == CkrArgumentsBad <==> LetIn(ctx) && (data.None? || sig.None?))
            && (rv == CkrOperationActive <==> ctx.Some? && !LetIn(ctx))
            && (rv == CkrOperationNotInitialized <==> ctx.None?)
  {
    if key.Ec? && data.Some? && sig.Some? && |sig.value| == SigLenCk(key) {
      var c := sig.value;
      HalvesFit(c);
      var (r, s) := Halves(c);
      DerOfIs(CkrsToDer(c), r, s);
      if LibraryAccepts(key, lib, data.value, c) {
        var der :| IsDerOf(der, Halves(c)) && lib.accept(data.value, der);
        DerOfIs(der, r, s);
      }
    }
  }

  /** The bytes handed out for what the library computed. */
  ghost predicate IsCkSig(raw: Raw, sig: Bytes) {
    match raw
    case Refused => false
    case RsaSig(bytes) => sig == bytes
    case EcSig(r, s) => Halves(sig) == (r, s) && |sig| == 2 * Max(NumBytes(r), NumBytes(s))
  }

  lemma CkSigIs(key: Key, raw: Raw)
    requires GoodKey(key) && RawFits(key, raw)
    ensures CkSig(key, raw).None? <==> raw.Refused?
    ensures CkSig(key, raw).Some? ==> IsCkSig(raw, CkSig(key, raw).value) && |CkSig(key, raw).value| <= SigLenCk(key)
  {
    SigFits(key, raw);
    if raw.EcSig? {
      EcFits(key, raw.r, raw.s);
      CkrsHalves(raw.r, raw.s);
    }
  }

  /** What is signed: with room enough, exactly what the library computed, under the cause of every other
      answer. */
  lemma SignAnswer(key: Key, lib: Lib, ctx: Option<Ctx>, data: Option<Bytes>, out: Out)
    requires GoodKey(key) && LawfulSigner(key, lib)
    ensures var (reply, need) := (SignStep(key, lib, ctx, data, out).1, SigLenCk(key));
            && (ctx.None? ==> reply == Reply(CkrOperationNotInitialized, None, None))
            && (ctx.Some? && !LetIn(ctx) ==> reply == Reply(CkrOperationActive, None, None))
            && (LetIn(ctx) && out.NullLen? ==> reply == Reply(CkrArgumentsBad, None, None))
            && (LetIn(ctx) && out.NullBuf? ==> reply == Reply(CkrOk, Some(need), None))
            && (LetIn(ctx) && out.Buf? && out.size < need ==> reply == Reply(CkrBufferTooSmall, Some(need), None))
            && (LetIn(ctx) && out.Buf? && out.size >= need && data.None? ==> reply == Reply(CkrArgumentsBad, Some(need), None))
    ensures LetIn(ctx) && out.Buf? && out.size >= SigLenCk(key) && data.Some? ==>
              var reply := SignStep(key, lib, ctx, data, out).1;
              if lib.sign(data.value).Refused? then reply == Reply(CkrGeneralError, Some(SigLenCk(key)), None)
              else
                && reply.rv == CkrOk && reply.data.Some? && reply.len == Some(|reply.data.value|)
                && IsCkSig(lib.sign(data.value), reply.data.value)
  {
    if data.Some? {
      assert RawFits(key, lib.sign(data.value));
      CkSigIs(key, lib.sign(data.value));
    }
  }

  /** The advertised lengths: an RSA signature is as long as the modulus, an ECDSA one twice as long as the
      order, both in whole bytes. */
  lemma LengthIs(key: Key)
    ensures var k := ByteLen(key.bits);
            && 8 * k >= key.bits && (forall n: nat | 8 * n >= key.bits :: n >= k)
            && SigLenCk(key) == if key.Rsa? then k else 2 * k
  {
  }

  lemma OneOne()
    ensures Ckrs(1, 1) == [1, 1]
  {
    assert NumBytes(1) == 1;
    assert Padded(1, 1) == [1];
  }

  /** The shortest signature: for every curve whose order takes more than one byte, R = S = 1 is
      signed in two bytes, and the module refuses what it signed. */
  lemma ShortSignature(key: Key, lib: Lib, data: Bytes, sctx: Ctx, vctx: Ctx, size: nat)
    requires GoodKey(key) && key.Ec? && key.order > 1 && ByteLen(key.bits) > 1
    requires lib.sign(data) == EcSig(1, 1) && CanSingle(sctx) && CanSingle(vctx) && size >= SigLenCk(key)
    ensures SignStep(key, lib, Some(sctx), Some(data), Buf(size)).1 == Reply(CkrOk, Some(2), Some([1, 1]))
    ensures VerifyStep(key, lib, Some(vctx), Some(data), Some([1, 1])) == CkrSignatureLenRange
  {
    EcBuffer(key, 1, 1);
    OneOne();
  }

  /** The curve P-256. */
  const P256_ORDER: nat := 0xFFFF_FFFF_0000_0000_FFFF_FFFF_FFFF_FFFF_BCE6_FAAD_A717_9E84_F3B9_CAC2_FC63_2551

  lemma Pow256Of32()
    ensures Pow256(32) == 0x1_0000_0000_0000_0000_0000_0000_0000_0000_0000_0000_0000_0000_0000_0000_0000_0000
  {
    assert Pow256(2) == 0x1_0000;
    assert Pow256(4) == 0x1_0000_0000;
    assert Pow256(6) == 0x1_0000_0000_0000;
    assert Pow256(8) == 0x1_0000_0000_0000_0000;
    assert Pow256(10) == 0x1_0000_0000_0000_0000_0000;
    assert Pow256(12) == 0x1_0000_0000_0000_0000_0000_0000;
    assert Pow256(14) == 0x1_0000_0000_0000_0000_0000_0000_0000;
    assert Pow256(16) == 0x1_0000_0000_0000_0000_0000_0000_0000_0000;
    assert Pow256(18) == 0x1_0000_0000_0000_0000_0000_0000_0000_0000_0000;
    assert Pow256(20) == 0x1_0000_0000_0000_0000_0000_0000_0000_0000_0000_0000;
    assert Pow256(22) == 0x1_0000_0000_0000_0000_0000_0000_0000_0000_0000_0000_0000;
    assert Pow256(24) == 0x1_0000_0000_0000_0000_0000_0000_0000_0000_0000_0000_0000_0000;
    assert Pow256(26) == 0x1_0000_0000_0000_0000_0000_0000_0000_0000_0000_0000_0000_0000_0000;
    assert Pow256(28) == 0x1_0000_0000_0000_0000_0000_0000_0000_0000_0000_0000_0000_0000_0000_0000;
    assert Pow256(30) == 0x1_0000_0000_0000_0000_0000_0000_0000_0000_0000_0000_0000_0000_0000_0000_0000;
    assert Pow256(32) == 0x1_0000_0000_0000_0000_0000_0000_0000_0000_0000_0000_0000_0000_0000_0000_0000_0000;
  }

  lemma P256Good()
    ensures GoodKey(Ec(256, P256_ORDER)) && ByteLen(256) == 32 && SigLenCk(Ec(256, P256_ORDER)) == 64
  {
    Pow2OfBytes(32);
    Pow256Of32();
  }

  /** On P-256 that is a 2-byte signature where 64 bytes are advertised and asked for. */
  lemma ShortOnP256(lib: Lib, data: Bytes, sctx: Ctx, vctx: Ctx)
    requires lib.sign(data) == EcSig(1, 1) && CanSingle(sctx) && CanSingle(vctx)
    ensures GoodKey(Ec(256, P256_ORDER))
    ensures SignStep(Ec(256, P256_ORDER), lib, Some(sctx), Some(data), Buf(64)).1 == Reply(CkrOk, Some(2), Some([1, 1]))
    ensures VerifyStep(Ec(256, P256_ORDER), lib, Some(vctx), Some(data), Some([1, 1])) == CkrSignatureLenRange
  {
    P256Good();
    ShortSignature(Ec(256, P256_ORDER), lib, data, sctx, vctx, 64);
  }
}
