/**
 The single-part signing and verifying functions over a session's contexts.
 */
module SignApi {
  import opened Common
  import opened OutputConvention
  import opened CallerMemory
  import opened EcdsaFormat
  import opened Ecdsa
  import opened Signing

  class SignSession {
    const key: Key
    const lib: Lib
    var signCtx: Option<Ctx>
    var verifyCtx: Option<Ctx>

    constructor (k: Key, l: Lib)
      ensures key == k && lib == l && signCtx == None && verifyCtx == None
    {
      key, lib, signCtx, verifyCtx := k, l, None, None;
    }

    /** Let the library write into a zeroed buffer, then bring the signature into Cryptoki form. */
    method Produce(data: Bytes) returns (sig: Option<Bytes>)
      requires GoodKey(key) && RawFits(key, lib.sign(data))
      ensures sig == CkSig(key, lib.sign(data))
    {
      var raw := lib.sign(data);
      if raw.Refused? {
        return None;
      }
      RawFormFits(key, raw);
      var buf := new byte[SigLen(key)](_ => 0);
      ghost var zeros := buf[|Form(raw)|..];
      assert zeros == Zeros(SigLen(key) - |Form(raw)|);
      var _ := Marshal(Form(raw), buf);
      assert buf[..] == SigBuffer(key, raw);
      if key.Ec? {
        sig := SigDerToCkrs(buf[..]);
      } else {
        sig := Some(buf[..]);
      }
    }

    method Sign(data: Option<Bytes>, out: array?<byte>, len: LenCell?) returns (rv: Rv)
      requires GoodKey(key) && LawfulSigner(key, lib) && Sound(out, len)
      modifies this`signCtx, out, len
      ensures var r := SignStep(key, lib, old(signCtx), data, old(OutOf(out, len)));
              signCtx == r.0 && rv == r.1.rv && LenWritten(len, r.1) && BufWritten(out, r.1)
      ensures rv != CkrDeviceError
    {
      SignReply(key, lib, signCtx, data, OutOf(out, len));
      if signCtx.None? {
        return CkrOperationNotInitialized;
      }
      if !CanSingle(signCtx.value) {
        signCtx := None;
        return CkrOperationActive;
      }
      signCtx := Some(Entered(signCtx.value));
      var early, size := CheckOut(out, len, SigLenCk(key));
      if early.Some? {
        if len == null {
          signCtx := None;
        }
        return early.value;
      }
      signCtx := None;
      if data.None? {
        return CkrArgumentsBad;
      }
      var sig := Produce(data.value);
      if sig.None? {
        return CkrGeneralError;
      }
      rv := CopyOut(sig.value, out, size, len);
    }

    method Verify(data: Option<Bytes>, sig: Option<Bytes>) returns (rv: Rv)
      requires GoodKey(key)
      modifies this`verifyCtx
      ensures verifyCtx == None && rv == VerifyStep(key, lib, old(verifyCtx), data, sig)
    {
      var ctx := verifyCtx;
      verifyCtx := None;
      if ctx.None? {
        return CkrOperationNotInitialized;
      }
      if !CanSingle(ctx.value) {
        return CkrOperationActive;
      }
      if data.None? || sig.None? {
        return CkrArgumentsBad;
      }
      if |sig.value| != SigLenCk(key) {
        return CkrSignatureLenRange;
      }
      var form := sig.value;
      if key.Ec? {
        form := SigCkrsToDer(sig.value);
      }
      rv := if lib.accept(data.value, form) then CkrOk else CkrSignatureInvalid;
    }
  }
}
