/**
 The digest functions over a session's context, which they update, keep or drop.
 */
module DigestApi {
  import opened Common
  import opened OutputConvention
  import opened CallerMemory
  import opened DigestSpec

  class DigestCtx<S> {
    var phase: Phase
    const mech: Mech
    const hash: Hash<S>
    var state: S

    constructor (m: Mech, h: Hash<S>)
      ensures phase == Initialized && mech == m && hash == h && state == h.start
    {
      phase, mech, hash, state := Initialized, m, h, h.start;
    }

    function View(): Ctx<S>
      reads this
    {
      Ctx(phase, mech, state)
    }

    /** Move on to a phase if that is allowed. */
    method Enter(next: Phase) returns (ok: bool)
      modifies this`phase
      ensures ok == CanEnter(old(phase), next)
      ensures phase == if ok then next else old(phase)
    {
      ok := match phase
        case Initialized => true
        case SinglepartActive => next.SinglepartActive?
        case MultipartActive => next.MultipartActive? || next.MultipartReady?
        case MultipartReady => next.MultipartReady?;
      if ok {
        phase := next;
      }
    }

    method Absorb(data: Bytes) returns (ok: bool)
      modifies this
      ensures ok == CanEnter(old(phase), MultipartActive)
      ensures View() == if ok then Ctx(MultipartActive, mech, hash.absorb(old(state), data)) else old(View())
    {
      ok := Enter(MultipartActive);
      if ok {
        state := hash.absorb(state, data);
      }
    }
  }

  class DigestSession<S(!new)> {
    const lib: map<Mech, Hash<S>>
    var ctx: DigestCtx?<S>

    constructor (hashes: map<Mech, Hash<S>>)
      ensures lib == hashes && Valid() && View() == None
    {
      lib, ctx := hashes, null;
    }

    ghost predicate Valid()
      reads this, ctx
    {
      ctx != null ==> ctx.mech in lib && lib[ctx.mech] == ctx.hash
    }

    function View(): Slot<S>
      reads this, ctx
    {
      if ctx == null then None else Some(ctx.View())
    }

    method DigestInit(mech: Option<Mech>) returns (rv: Rv)
      requires Valid()
      modifies this
      ensures Valid() && (View(), rv) == (Step(lib, old(View()), Init(mech)).0, Step(lib, old(View()), Init(mech)).1.rv)
      ensures ctx == old(ctx) || fresh(ctx)
    {
      if mech.None? {
        return CkrArgumentsBad;
      }
      if mech.value !in lib {
        return CkrMechanismInvalid;
      }
      ctx := new DigestCtx(mech.value, lib[mech.value]);
      rv := CkrOk;
    }

    method DigestUpdate(part: Option<Bytes>) returns (rv: Rv)
      requires Valid()
      modifies this, ctx
      ensures Valid() && (View(), rv) == (Step(lib, old(View()), Update(part)).0, Step(lib, old(View()), Update(part)).1.rv)
      ensures ctx == old(ctx) || ctx == null
    {
      if part.None? {
        ctx := null;
        return CkrArgumentsBad;
      }
      if ctx == null {
        return CkrOperationNotInitialized;
      }
      var ok := ctx.Absorb(part.value);
      rv := if ok then CkrOk else CkrOperationActive;
    }

    method DigestOnce(data: Option<Bytes>, buf: array?<byte>, len: LenCell?) returns (rv: Rv)
      requires Valid() && Sound(buf, len)
      modifies this, ctx, buf, len
      ensures Valid()
      ensures var r := Step(lib, old(View()), Digest(data, old(OutOf(buf, len))));
              View() == r.0 && rv == r.1.rv && LenWritten(len, r.1) && BufWritten(buf, r.1)
    {
      if ctx == null {
        return CkrOperationNotInitialized;
      }
      var ok := ctx.Enter(SinglepartActive);
      if !ok {
        ctx := null;
        return CkrOperationActive;
      }
      var early, size := CheckOut(buf, len, ctx.hash.len);
      if early.Some? {
        if len == null {
          ctx := null;
        }
        return early.value;
      }
      if data.None? {
        ctx := null;
        return CkrArgumentsBad;
      }
      var digest := ctx.hash.whole(data.value);
      ctx := null;
      rv := CopyOut(digest, buf, size, len);
    }

    method DigestFinal(buf: array?<byte>, len: LenCell?) returns (rv: Rv)
      requires Valid() && Sound(buf, len)
      modifies this, ctx, buf, len
      ensures Valid()
      ensures var r := Step(lib, old(View()), Final(old(OutOf(buf, len))));
              View() == r.0 && rv == r.1.rv && LenWritten(len, r.1) && BufWritten(buf, r.1)
      ensures ctx == old(ctx) || ctx == null
    {
      if ctx == null {
        return CkrOperationNotInitialized;
      }
      var ok := ctx.Enter(MultipartReady);
      if !ok {
        ctx := null;
        return CkrOperationActive;
      }
      var early, size := CheckOut(buf, len, ctx.hash.len);
      if early.Some? {
        if len == null {
          ctx := null;
        }
        return early.value;
      }
      var digest := ctx.hash.finish(ctx.state);
      ctx := null;
      rv := CopyOut(digest, buf, size, len);
    }

    /** Ask for the length, then fetch the digest into a buffer of that size. */
    method Fetch() returns (digest: array<byte>)
      requires Valid() && ctx != null && CanEnter(ctx.phase, MultipartReady)
      requires |ctx.hash.finish(ctx.state)| == ctx.hash.len
      modifies this, ctx
      ensures ctx == null && digest[..] == old(ctx.hash.finish(ctx.state))
    {
      var len := new LenCell(0);
      var rv := DigestFinal(null, len);
      ghost var reply := Step(lib, View(), Final(Buf(len.v))).1;
      assert reply == Produced(ctx.hash.finish(ctx.state), len.v, ctx.hash.len);
      digest := new byte[len.v];
      rv := DigestFinal(digest, len);
      assert digest[..] == reply.data.value;
    }

    /** What an application does: initialise, feed the parts, fetch the digest. */
    method DigestParts(mech: Mech, parts: seq<Bytes>) returns (digest: array<byte>)
      requires Valid() && mech in lib && Lawful(lib[mech])
      modifies this, ctx
      ensures ctx == null && digest[..] == lib[mech].whole(Flatten(parts))
    {
      var rv := DigestInit(Some(mech));
      for i := 0 to |parts|
        invariant Valid() && ctx != null && (fresh(ctx) || ctx == old(ctx)) && ctx.mech == mech
        invariant ctx.state == Feed(lib[mech], parts[..i])
        invariant CanEnter(ctx.phase, MultipartActive)
      {
        assert parts[..i + 1][..i] == parts[..i];
        rv := DigestUpdate(Some(parts[i]));
      }
      assert parts[..|parts|] == parts;
      assert lib[mech].finish(Feed(lib[mech], parts)) == lib[mech].whole(Flatten(parts));
      digest := Fetch();
    }
  }
}
