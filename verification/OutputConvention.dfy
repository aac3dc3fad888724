/**
 Operation contexts and the output convention (section 5.2 of PKCS#11 v2.40).
 */
module OutputConvention {
  import opened Common

  datatype Phase = Initialized | SinglepartActive | MultipartActive | MultipartReady

  /** Which phase a context may enter from which. */
  predicate CanEnter(at: Phase, next: Phase) {
    match at
    case Initialized => true
    case SinglepartActive => next.SinglepartActive?
    case MultipartActive => next.MultipartActive? || next.MultipartReady?
    case MultipartReady => next.MultipartReady?
  }

  datatype Rv =
    | CkrOk
    | CkrArgumentsBad
    | CkrBufferTooSmall
    | CkrDeviceError
    | CkrGeneralError
    | CkrMechanismInvalid
    | CkrOperationActive
    | CkrOperationNotInitialized
    | CkrSignatureInvalid
    | CkrSignatureLenRange

  /** The output buffer and length pointer of a call; the length says how large the buffer is. */
  datatype Out = NullLen | NullBuf(size: nat) | Buf(size: nat)

  /** What a call answers: its code, what it wrote to the length pointer, and the bytes it wrote to
      the start of the output buffer. */
  datatype Reply = Reply(rv: Rv, len: Option<nat>, data: Option<Bytes>)

  function Failed(rv: Rv): Reply {
    Reply(rv, None, None)
  }

  /** The answer when nothing is produced yet, for an output of `need` bytes. */
  function Unproduced(out: Out, need: nat): Option<Reply> {
    match out
    case NullLen => Some(Failed(CkrArgumentsBad))
    case NullBuf(_) => Some(Reply(CkrOk, Some(need), None))
    case Buf(size) => if size < need then Some(Reply(CkrBufferTooSmall, Some(need), None)) else None
  }

  /** The answer when `src` is produced for a buffer found large enough for `need` bytes. */
  function Produced(src: Bytes, size: nat, need: nat): Reply {
    if size < |src| then Reply(CkrDeviceError, Some(need), None) else Reply(CkrOk, Some(|src|), Some(src))
  }

  /** A length query, or a buffer that is too small. */
  predicate AsksAgain(out: Out, need: nat) {
    out.NullBuf? || (out.Buf? && out.size < need)
  }
}
