/**
 Caller memory: output buffers and length cells, written as the output convention says.
 */
module CallerMemory {
  import opened Common
  import opened OutputConvention

  /** The cell behind a length pointer. */
  class LenCell {
    var v: nat

    constructor (n: nat)
      ensures v == n
    {
      v := n;
    }
  }

  /** The output arguments of a call. The caller's length never exceeds the buffer it describes. */
  function OutOf(buf: array?<byte>, len: LenCell?): Out
    reads len
  {
    if len == null then NullLen else if buf == null then NullBuf(len.v) else Buf(len.v)
  }

  ghost predicate Sound(buf: array?<byte>, len: LenCell?)
    reads len
  {
    buf != null && len != null ==> len.v <= buf.Length
  }

  /** The cell holds what the reply wrote there. */
  twostate predicate LenWritten(len: LenCell?, reply: Reply)
    reads len
  {
    len != null ==> len.v == if reply.len.Some? then reply.len.value else old(len.v)
  }

  /** The buffer starts with the reply's bytes and is otherwise untouched. */
  twostate predicate BufWritten(buf: array?<byte>, reply: Reply)
    reads buf
  {
    buf != null ==>
      if reply.data.Some?
      then |reply.data.value| <= buf.Length && buf[..] == reply.data.value + old(buf[..])[|reply.data.value|..]
      else buf[..] == old(buf[..])
  }

  /** Look at the output arguments: answer at once, or go on with a buffer of the given size. */
  method CheckOut(buf: array?<byte>, len: LenCell?, need: nat) returns (early: Option<Rv>, size: nat)
    modifies len
    ensures early == (match Unproduced(old(OutOf(buf, len)), need) case None => None case Some(reply) => Some(reply.rv))
    ensures len != null ==> len.v == need
    ensures early.None? ==> buf != null && len != null && size == old(len.v)
  {
    size := 0;
    if len == null {
      return Some(CkrArgumentsBad), 0;
    }
    size := len.v;
    len.v := need;
    if buf == null {
      return Some(CkrOk), size;
    }
    if size < need {
      return Some(CkrBufferTooSmall), size;
    }
    early := None;
  }

  /** Deliver an output into the first `size` bytes of the buffer. */
  method CopyOut(src: Bytes, buf: array<byte>, size: nat, len: LenCell) returns (rv: Rv)
    requires size <= buf.Length
    modifies buf, len
    ensures rv == Produced(src, size, old(len.v)).rv
    ensures BufWritten(buf, Produced(src, size, old(len.v))) && LenWritten(len, Produced(src, size, old(len.v)))
  {
    if size < |src| {
      return CkrDeviceError;
    }
    forall i | 0 <= i < |src| {
      buf[i] := src[i];
    }
    assert buf[..] == src + old(buf[..])[|src|..];
    len.v := |src|;
    rv := CkrOk;
  }
}
