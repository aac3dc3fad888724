/**
 The digest operation of one session: what every sequence of its calls answers.
 */
module DigestSpec {
  import opened Common
  import opened OutputConvention

  type Mech = nat

  /** A hash as the crypto library offers it: one call, or a context fed in parts. */
  datatype Hash<!S> = Hash(len: nat, start: S, absorb: (S, Bytes) -> S, finish: S -> Bytes, whole: Bytes -> Bytes)

  function Flatten(parts: seq<Bytes>): Bytes {
    if parts == [] then [] else Flatten(parts[..|parts| - 1]) + parts[|parts| - 1]
  }

  /** The library context after some updates. */
  function Feed<S>(h: Hash<S>, parts: seq<Bytes>): S {
    if parts == [] then h.start else h.absorb(Feed(h, parts[..|parts| - 1]), parts[|parts| - 1])
  }

  /** The library's contract: a digest of fixed size, the same in one call and in parts. */
  ghost predicate Lawful<S(!new)>(h: Hash<S>) {
    && (forall data :: |h.whole(data)| == h.len)
    && (forall parts :: h.finish(Feed(h, parts)) == h.whole(Flatten(parts)))
  }

  ghost predicate LawfulLib<S(!new)>(lib: map<Mech, Hash<S>>) {
    forall m | m in lib :: Lawful(lib[m])
  }

  datatype Ctx<S> = Ctx(phase: Phase, mech: Mech, state: S)

  /** The calls on a session; a null pointer is None. */
  datatype Call =
    | Init(mech: Option<Mech>)
    | Digest(data: Option<Bytes>, out: Out)
    | Update(part: Option<Bytes>)
    | Final(out: Out)

  type Slot<S> = Option<Ctx<S>>

  function InitStep<S>(lib: map<Mech, Hash<S>>, ctx: Slot<S>, mech: Option<Mech>): (Slot<S>, Reply) {
    if mech.None? then (ctx, Failed(CkrArgumentsBad))
    else if mech.value !in lib then (ctx, Failed(CkrMechanismInvalid))
    else (Some(Ctx(Initialized, mech.value, lib[mech.value].start)), Reply(CkrOk, None, None))
  }

  function DigestStep<S>(lib: map<Mech, Hash<S>>, ctx: Slot<S>, data: Option<Bytes>, out: Out): (Slot<S>, Reply)
    requires ctx.Some? ==> ctx.value.mech in lib
  {
    if ctx.None? then (None, Failed(CkrOperationNotInitialized))
    else if !CanEnter(ctx.value.phase, SinglepartActive) then (None, Failed(CkrOperationActive))
    else
      var h := lib[ctx.value.mech];
      var early := Unproduced(out, h.len);
      if early.Some? then
        (if out.NullLen? then None else Some(ctx.value.(phase := SinglepartActive)), early.value)
      else if data.None? then (None, Reply(CkrArgumentsBad, Some(h.len), None))
      else (None, Produced(h.whole(data.value), out.size, h.len))
  }

  function UpdateStep<S>(lib: map<Mech, Hash<S>>, ctx: Slot<S>, part: Option<Bytes>): (Slot<S>, Reply)
    requires ctx.Some? ==> ctx.value.mech in lib
  {
    if part.None? then (None, Failed(CkrArgumentsBad))
    else if ctx.None? then (None, Failed(CkrOperationNotInitialized))
    else if !CanEnter(ctx.value.phase, MultipartActive) then (ctx, Failed(CkrOperationActive))
    else
      var h := lib[ctx.value.mech];
      (Some(Ctx(MultipartActive, ctx.value.mech, h.absorb(ctx.value.state, part.value))), Reply(CkrOk, None, None))
  }

  function FinalStep<S>(lib: map<Mech, Hash<S>>, ctx: Slot<S>, out: Out): (Slot<S>, Reply)
    requires ctx.Some? ==> ctx.value.mech in lib
  {
    if ctx.None? then (None, Failed(CkrOperationNotInitialized))
    else if !CanEnter(ctx.value.phase, MultipartReady) then (None, Failed(CkrOperationActive))
    else
      var h := lib[ctx.value.mech];
      var early := Unproduced(out, h.len);
      if early.Some? then
        (if out.NullLen? then None else Some(ctx.value.(phase := MultipartReady)), early.value)
      else (None, Produced(h.finish(ctx.value.state), out.size, h.len))
  }

  function Step<S>(lib: map<Mech, Hash<S>>, ctx: Slot<S>, call: Call): (r: (Slot<S>, Reply))
    requires ctx.Some? ==> ctx.value.mech in lib
    ensures r.0.Some? ==> r.0.value.mech in lib
  {
    match call
    case Init(mech) => InitStep(lib, ctx, mech)
    case Digest(data, out) => DigestStep(lib, ctx, data, out)
    case Update(part) => UpdateStep(lib, ctx, part)
    case Final(out) => FinalStep(lib, ctx, out)
  }

  /** The context and the replies after a sequence of calls. */
  function Run<S>(lib: map<Mech, Hash<S>>, ctx: Slot<S>, calls: seq<Call>): (r: (Slot<S>, seq<Reply>))
    requires ctx.Some? ==> ctx.value.mech in lib
    ensures r.0.Some? ==> r.0.value.mech in lib
    ensures |r.1| == |calls|
  {
    if calls == [] then (ctx, [])
    else
      var before := Run(lib, ctx, calls[..|calls| - 1]);
      var last := Step(lib, before.0, calls[|calls| - 1]);
      (last.0, before.1 + [last.1])
  }

  /* ---------- What a caller can tell from calls and replies ---------- */

  /** Since the last successful initialisation: whether a context is still there, what was accepted
      by updates, and which kinds of use were accepted. */
  datatype Seen = Seen(live: bool, mech: Mech, parts: seq<Bytes>, single: bool, multi: bool, closing: bool)

  /** The operation was let in: it was answered with output or with its length. */
  predicate LetIn(reply: Reply) {
    reply.rv.CkrOk? || reply.rv.CkrBufferTooSmall?
  }

  /** Only a length was answered, so the caller may try again. */
  predicate Retryable(reply: Reply) {
    LetIn(reply) && reply.data.None?
  }

  function See(seen: Seen, call: Call, reply: Reply): Seen {
    match call
    case Init(mech) =>
      if reply.rv.CkrOk? && mech.Some? then Seen(true, mech.value, [], false, false, false) else seen
    case Digest(_, _) => seen.(live := seen.live && Retryable(reply), single := seen.single || LetIn(reply))
    case Update(part) =>
      if reply.rv.CkrOk? && part.Some? then seen.(parts := seen.parts + [part.value], multi := true)
      else seen.(live := seen.live && part.Some?)
    case Final(_) =>
      seen.(live := seen.live && Retryable(reply), multi := seen.multi || LetIn(reply),
            closing := seen.closing || LetIn(reply))
  }

  function History(calls: seq<Call>, replies: seq<Reply>): Seen
    requires |calls| == |replies|
  {
    if calls == [] then Seen(false, 0, [], false, false, false)
    else
      var n := |calls| - 1;
      See(History(calls[..n], replies[..n]), calls[n], replies[n])
  }

  /** The context agrees with what the caller saw. */
  ghost predicate Agrees<S(!new)>(lib: map<Mech, Hash<S>>, ctx: Slot<S>, seen: Seen) {
    && (ctx.Some? <==> seen.live)
    && !(seen.single && seen.multi)
    && (seen.closing || seen.parts != [] ==> seen.multi)
    && (ctx.Some? ==>
          && ctx.value.mech in lib
          && ctx.value.mech == seen.mech
          && ctx.value.state == Feed(lib[seen.mech], seen.parts)
          && match ctx.value.phase
             case Initialized => !seen.single && !seen.multi
             case SinglepartActive => seen.single
             case MultipartActive => seen.multi && !seen.closing
             case MultipartReady => seen.closing)
  }

  lemma UpdateAgrees<S(!new)>(lib: map<Mech, Hash<S>>, ctx: Slot<S>, seen: Seen, part: Option<Bytes>)
    requires LawfulLib(lib) && Agrees(lib, ctx, seen)
    ensures var r := UpdateStep(lib, ctx, part); Agrees(lib, r.0, See(seen, Update(part), r.1))
    ensures UpdateStep(lib, ctx, part).1.rv.CkrOk? ==> !seen.closing && !seen.single
  {
    if part.Some? && ctx.Some? && CanEnter(ctx.value.phase, MultipartActive) {
      var parts := seen.parts + [part.value];
      assert parts[..|parts| - 1] == seen.parts;
    }
  }

  lemma FinalAgrees<S(!new)>(lib: map<Mech, Hash<S>>, ctx: Slot<S>, seen: Seen, out: Out)
    requires LawfulLib(lib) && Agrees(lib, ctx, seen)
    ensures var r := FinalStep(lib, ctx, out); Agrees(lib, r.0, See(seen, Final(out), r.1))
    ensures var reply := FinalStep(lib, ctx, out).1;
            && !reply.rv.CkrDeviceError?
            && (reply.data.Some? ==>
                  seen.mech in lib && reply == Reply(CkrOk, Some(lib[seen.mech].len), Some(lib[seen.mech].whole(Flatten(seen.parts)))))
  {
    if ctx.Some? {
      var h := lib[ctx.value.mech];
      assert h.finish(Feed(h, seen.parts)) == h.whole(Flatten(seen.parts));
      assert |h.whole(Flatten(seen.parts))| == h.len;
    }
  }

  lemma DigestAgrees<S(!new)>(lib: map<Mech, Hash<S>>, ctx: Slot<S>, seen: Seen, data: Option<Bytes>, out: Out)
    requires LawfulLib(lib) && Agrees(lib, ctx, seen)
    ensures var r := DigestStep(lib, ctx, data, out); Agrees(lib, r.0, See(seen, Digest(data, out), r.1))
    ensures var reply := DigestStep(lib, ctx, data, out).1;
            && !reply.rv.CkrDeviceError?
            && (reply.data.Some? ==>
                  && data.Some? && !seen.multi && seen.mech in lib
                  && reply == Reply(CkrOk, Some(lib[seen.mech].len), Some(lib[seen.mech].whole(data.value))))
  {
    if ctx.Some? && data.Some? {
      var h := lib[ctx.value.mech];
      assert |h.whole(data.value)| == h.len;
    }
  }

  lemma StepAgrees<S(!new)>(lib: map<Mech, Hash<S>>, ctx: Slot<S>, seen: Seen, call: Call)
    requires LawfulLib(lib) && Agrees(lib, ctx, seen)
    ensures var r := Step(lib, ctx, call); Agrees(lib, r.0, See(seen, call, r.1))
  {
    match call
    case Init(_) =>
    case Digest(data, out) => DigestAgrees(lib, ctx, seen, data, out);
    case Update(part) => UpdateAgrees(lib, ctx, seen, part);
    case Final(out) => FinalAgrees(lib, ctx, seen, out);
  }

  /** After every sequence of calls, the replies alone tell whether a context is there and what went
      into it; single-part and multi-part use of one context are never both let in. */
  lemma {:induction false} RunAgrees<S(!new)>(lib: map<Mech, Hash<S>>, calls: seq<Call>)
    requires LawfulLib(lib)
    ensures var r := Run(lib, None, calls); Agrees(lib, r.0, History(calls, r.1))
  {
    if calls != [] {
      var n := |calls| - 1;
      RunAgrees(lib, calls[..n]);
      var before := Run(lib, None, calls[..n]);
      StepAgrees(lib, before.0, History(calls[..n], before.1), calls[n]);
      assert Run(lib, None, calls).1[..n] == before.1;
    }
  }

  /** Whatever was called before, a digest that is delivered is the one-shot digest of the parts
      accepted since the last initialisation, or of the data of a single-part call on a context never
      used in parts; it comes with its exact length; and the context is gone. */
  lemma Delivered<S(!new)>(lib: map<Mech, Hash<S>>, calls: seq<Call>, call: Call)
    requires LawfulLib(lib)
    ensures var before := Run(lib, None, calls);
            var seen := History(calls, before.1);
            var after := Step(lib, before.0, call);
            && !after.1.rv.CkrDeviceError?
            && (after.1.data.Some? ==>
                  && seen.live && seen.mech in lib && after.0.None?
                  && (call.Final? || (call.Digest? && call.data.Some? && seen.parts == [] && !seen.multi))
                  && var text := if call.Final? then Flatten(seen.parts) else call.data.value;
                     after.1 == Reply(CkrOk, Some(lib[seen.mech].len), Some(lib[seen.mech].whole(text))))
  {
    RunAgrees(lib, calls);
    var before := Run(lib, None, calls);
    var seen := History(calls, before.1);
    match call
    case Digest(data, out) => DigestAgrees(lib, before.0, seen, data, out);
    case Final(out) => FinalAgrees(lib, before.0, seen, out);
    case _ =>
  }

  /** The rules of use: no update is accepted once finalisation began or after single-part use, no
      single-part call is let in after a multi-part one, and the other way round. */
  lemma UseRules<S(!new)>(lib: map<Mech, Hash<S>>, calls: seq<Call>, call: Call)
    requires LawfulLib(lib)
    ensures var before := Run(lib, None, calls);
            var seen := History(calls, before.1);
            var reply := Step(lib, before.0, call).1;
            && !(seen.single && seen.multi)
            && (call.Update? && reply.rv.CkrOk? ==> !seen.closing && !seen.single)
            && (call.Digest? && LetIn(reply) ==> !seen.multi)
            && (call.Final? && LetIn(reply) ==> !seen.single)
            && (!call.Init? && LetIn(reply) ==> seen.live)
  {
    RunAgrees(lib, calls);
    var before := Run(lib, None, calls);
    var seen := History(calls, before.1);
    if call.Update? {
      UpdateAgrees(lib, before.0, seen, call.part);
    }
  }

  /** What a caller who has seen `seen` gets for an output of `need` bytes: `bytes` if there are any. */
  function OutputAnswer(out: Out, need: nat, bytes: Option<Bytes>): Reply {
    match out
    case NullLen => Reply(CkrArgumentsBad, None, None)
    case NullBuf(_) => Reply(CkrOk, Some(need), None)
    case Buf(size) =>
      if size < need then Reply(CkrBufferTooSmall, Some(need), None)
      else if bytes.None? then Reply(CkrArgumentsBad, Some(need), None)
      else Reply(CkrOk, Some(need), bytes)
  }

  /** Every answer in every run, from what the caller has seen alone: which calls are let in, with which
      code the others are refused, and what is delivered. */
  lemma Answered<S(!new)>(lib: map<Mech, Hash<S>>, calls: seq<Call>, call: Call)
    requires LawfulLib(lib)
    ensures var before := Run(lib, None, calls);
            var seen := History(calls, before.1);
            var reply := Step(lib, before.0, call).1;
            && (seen.live ==> seen.mech in lib)
            && match call
               case Init(mech) =>
                 reply == Reply(if mech.None? then CkrArgumentsBad else if mech.value in lib then CkrOk else CkrMechanismInvalid, None, None)
               case Digest(data, out) =>
                 if !seen.live then reply == Reply(CkrOperationNotInitialized, None, None)
                 else if seen.multi then reply == Reply(CkrOperationActive, None, None)
                 else reply == OutputAnswer(out, lib[seen.mech].len, if data.None? then None else Some(lib[seen.mech].whole(data.value)))
               case Update(part) =>
                 reply == Reply(if part.None? then CkrArgumentsBad else if !seen.live then CkrOperationNotInitialized
                                else if seen.single || seen.closing then CkrOperationActive else CkrOk, None, None)
               case Final(out) =>
                 if !seen.live then reply == Reply(CkrOperationNotInitialized, None, None)
                 else if seen.single then reply == Reply(CkrOperationActive, None, None)
                 else reply == OutputAnswer(out, lib[seen.mech].len, Some(lib[seen.mech].whole(Flatten(seen.parts))))
  {
    RunAgrees(lib, calls);
    var before := Run(lib, None, calls);
    var seen := History(calls, before.1);
    match call
    case Digest(data, out) => DigestAnswered(lib, before.0, seen, data, out);
    case Final(out) => FinalAnswered(lib, before.0, seen, out);
    case _ =>
  }

  lemma DigestAnswered<S(!new)>(lib: map<Mech, Hash<S>>, ctx: Slot<S>, seen: Seen, data: Option<Bytes>, out: Out)
    requires LawfulLib(lib) && Agrees(lib, ctx, seen)
    ensures seen.live && !seen.multi ==>
              DigestStep(lib, ctx, data, out).1
              == OutputAnswer(out, lib[seen.mech].len, if data.None? then None else Some(lib[seen.mech].whole(data.value)))
  {
    if ctx.Some? && data.Some? {
      assert |lib[seen.mech].whole(data.value)| == lib[seen.mech].len;
    }
  }

  lemma FinalAnswered<S(!new)>(lib: map<Mech, Hash<S>>, ctx: Slot<S>, seen: Seen, out: Out)
    requires LawfulLib(lib) && Agrees(lib, ctx, seen)
    ensures seen.live && !seen.single ==>
              FinalStep(lib, ctx, out).1 == OutputAnswer(out, lib[seen.mech].len, Some(lib[seen.mech].whole(Flatten(seen.parts))))
  {
    if ctx.Some? {
      var h := lib[seen.mech];
      assert h.finish(Feed(h, seen.parts)) == h.whole(Flatten(seen.parts));
      assert |h.whole(Flatten(seen.parts))| == h.len;
    }
  }

  /** A context survives a call exactly when the call only answered a length, or was an update with
      data (accepted or refused). */
  lemma Survives<S>(lib: map<Mech, Hash<S>>, ctx: Slot<S>, call: Call)
    requires ctx.Some? && ctx.value.mech in lib && !call.Init?
    ensures var after := Step(lib, ctx, call);
            && (after.0.Some? <==> if call.Update? then call.part.Some? else Retryable(after.1))
            && (after.0.Some? ==> after.0.value.mech == ctx.value.mech)
            && (after.0.Some? && !(call.Update? && after.1.rv.CkrOk?) ==> after.0.value.state == ctx.value.state)
  {
  }

  /* ---------- Streaming equals one shot ---------- */

  function Updates(parts: seq<Bytes>): (r: seq<Call>)
    ensures |r| == |parts|
  {
    if parts == [] then [] else Updates(parts[..|parts| - 1]) + [Update(Some(parts[|parts| - 1]))]
  }

  function Finals(outs: seq<Out>): (r: seq<Call>)
    ensures |r| == |outs|
  {
    if outs == [] then [] else Finals(outs[..|outs| - 1]) + [Final(outs[|outs| - 1])]
  }

  lemma {:induction false} RunApp<S>(lib: map<Mech, Hash<S>>, ctx: Slot<S>, a: seq<Call>, b: seq<Call>)
    requires ctx.Some? ==> ctx.value.mech in lib
    ensures var first := Run(lib, ctx, a);
            var rest := Run(lib, first.0, b);
            Run(lib, ctx, a + b) == (rest.0, first.1 + rest.1)
  {
    if b == [] {
      assert a + b == a;
      assert Run(lib, ctx, a).1 + [] == Run(lib, ctx, a).1;
    } else {
      var n := |b| - 1;
      RunApp(lib, ctx, a, b[..n]);
      assert (a + b)[..|a + b| - 1] == a + b[..n];
      var first := Run(lib, ctx, a);
      var mid := Run(lib, first.0, b[..n]);
      var last := Step(lib, mid.0, b[n]);
      assert first.1 + (mid.1 + [last.1]) == (first.1 + mid.1) + [last.1];
    }
  }

  lemma {:induction false} RunUpdates<S>(lib: map<Mech, Hash<S>>, mech: Mech, parts: seq<Bytes>)
    requires mech in lib
    ensures var start := Ctx(Initialized, mech, lib[mech].start);
            var r := Run(lib, Some(start), Updates(parts));
            && r.0 == Some(Ctx(if parts == [] then Initialized else MultipartActive, mech, Feed(lib[mech], parts)))
            && forall i | 0 <= i < |parts| :: r.1[i] == Reply(CkrOk, None, None)
  {
    if parts != [] {
      var n := |parts| - 1;
      RunUpdates(lib, mech, parts[..n]);
      assert Updates(parts)[..n] == Updates(parts[..n]);
    }
  }

  lemma {:induction false} RunRetries<S>(lib: map<Mech, Hash<S>>, ctx: Ctx<S>, outs: seq<Out>)
    requires ctx.mech in lib && CanEnter(ctx.phase, MultipartReady)
    requires forall i | 0 <= i < |outs| :: AsksAgain(outs[i], lib[ctx.mech].len)
    ensures var r := Run(lib, Some(ctx), Finals(outs));
            && r.0 == Some(if outs == [] then ctx else ctx.(phase := MultipartReady))
            && forall i | 0 <= i < |outs| ::
                 r.1[i] == Reply(if outs[i].NullBuf? then CkrOk else CkrBufferTooSmall, Some(lib[ctx.mech].len), None)
  {
    if outs != [] {
      var n := |outs| - 1;
      RunRetries(lib, ctx, outs[..n]);
      assert Finals(outs)[..n] == Finals(outs[..n]);
    }
  }

  function Last(replies: seq<Reply>): Reply
    requires replies != []
  {
    replies[|replies| - 1]
  }

  lemma RunOne<S>(lib: map<Mech, Hash<S>>, ctx: Slot<S>, calls: seq<Call>, call: Call)
    requires ctx.Some? ==> ctx.value.mech in lib
    ensures var before := Run(lib, ctx, calls);
            var last := Step(lib, before.0, call);
            Run(lib, ctx, calls + [call]) == (last.0, before.1 + [last.1])
  {
    assert (calls + [call])[..|calls|] == calls;
  }

  lemma RunInit<S>(lib: map<Mech, Hash<S>>, ctx: Slot<S>, mech: Mech)
    requires mech in lib && (ctx.Some? ==> ctx.value.mech in lib)
    ensures var r := Run(lib, ctx, [Init(Some(mech))]);
            r.0 == Some(Ctx(Initialized, mech, lib[mech].start)) && LetIn(r.1[0])
  {
    assert [Init(Some(mech))][..0] == [];
    assert Run(lib, ctx, [Init(Some(mech))][..0]) == (ctx, []);
  }

  /** The calls before the digest is asked for with room enough. */
  function Prelude(mech: Mech, parts: seq<Bytes>, retries: seq<Out>): (r: seq<Call>) {
    [Init(Some(mech))] + Updates(parts) + Finals(retries)
  }

  lemma PreludeFeeds<S>(lib: map<Mech, Hash<S>>, ctx: Slot<S>, mech: Mech, parts: seq<Bytes>)
    requires mech in lib && (ctx.Some? ==> ctx.value.mech in lib)
    ensures var r := Run(lib, ctx, [Init(Some(mech))] + Updates(parts));
            && r.0 == Some(Ctx(if parts == [] then Initialized else MultipartActive, mech, Feed(lib[mech], parts)))
            && forall i | 0 <= i < |r.1| :: LetIn(r.1[i])
  {
    RunInit(lib, ctx, mech);
    RunApp(lib, ctx, [Init(Some(mech))], Updates(parts));
    RunUpdates(lib, mech, parts);
  }

  lemma PreludeWaits<S>(lib: map<Mech, Hash<S>>, ctx: Slot<S>, mech: Mech, parts: seq<Bytes>, retries: seq<Out>)
    requires mech in lib && (ctx.Some? ==> ctx.value.mech in lib)
    requires forall i | 0 <= i < |retries| :: AsksAgain(retries[i], lib[mech].len)
    ensures var r := Run(lib, ctx, Prelude(mech, parts, retries));
            && r.0.Some? && r.0.value.mech == mech && r.0.value.state == Feed(lib[mech], parts)
            && CanEnter(r.0.value.phase, MultipartReady)
            && forall i | 0 <= i < |r.1| :: LetIn(r.1[i])
  {
    var a, c := [Init(Some(mech))] + Updates(parts), Finals(retries);
    PreludeFeeds(lib, ctx, mech, parts);
    RunApp(lib, ctx, a, c);
    RunRetries(lib, Run(lib, ctx, a).0.value, retries);
  }

  /** The same data in one call. */
  lemma OneShot<S(!new)>(lib: map<Mech, Hash<S>>, ctx: Slot<S>, mech: Mech, data: Bytes, room: nat)
    requires LawfulLib(lib) && mech in lib && (ctx.Some? ==> ctx.value.mech in lib) && room >= lib[mech].len
    ensures var r := Run(lib, ctx, [Init(Some(mech))] + [Digest(Some(data), Buf(room))]);
            r.0.None? && Last(r.1) == Reply(CkrOk, Some(lib[mech].len), Some(lib[mech].whole(data)))
  {
    RunInit(lib, ctx, mech);
    RunOne(lib, ctx, [Init(Some(mech))], Digest(Some(data), Buf(room)));
    assert |lib[mech].whole(data)| == lib[mech].len;
  }

  lemma FinalDelivers<S(!new)>(lib: map<Mech, Hash<S>>, ctx: Ctx<S>, parts: seq<Bytes>, room: nat)
    requires LawfulLib(lib) && ctx.mech in lib && CanEnter(ctx.phase, MultipartReady)
    requires ctx.state == Feed(lib[ctx.mech], parts) && room >= lib[ctx.mech].len
    ensures Step(lib, Some(ctx), Final(Buf(room)))
         == (None, Reply(CkrOk, Some(lib[ctx.mech].len), Some(lib[ctx.mech].whole(Flatten(parts)))))
  {
    var h := lib[ctx.mech];
    assert h.finish(Feed(h, parts)) == h.whole(Flatten(parts)) && |h.whole(Flatten(parts))| == h.len;
  }

  /** For every split of the data into updates, followed by any number of finalisations that only ask
      for the length or bring too small a buffer, the digest delivered at last is the one that a single
      call on all the data delivers. */
  lemma Streaming<S(!new)>(lib: map<Mech, Hash<S>>, ctx: Slot<S>, mech: Mech, parts: seq<Bytes>, retries: seq<Out>, room: nat)
    requires LawfulLib(lib) && mech in lib && (ctx.Some? ==> ctx.value.mech in lib)
    requires forall i | 0 <= i < |retries| :: AsksAgain(retries[i], lib[mech].len)
    requires room >= lib[mech].len
    ensures var inParts := Run(lib, ctx, Prelude(mech, parts, retries) + [Final(Buf(room))]);
            var atOnce := Run(lib, ctx, [Init(Some(mech))] + [Digest(Some(Flatten(parts)), Buf(room))]);
            && inParts.0.None? && atOnce.0.None?
            && Last(inParts.1) == Last(atOnce.1)
            && Last(inParts.1) == Reply(CkrOk, Some(lib[mech].len), Some(lib[mech].whole(Flatten(parts))))
            && forall i | 0 <= i < |inParts.1| :: LetIn(inParts.1[i])
  {
    PreludeWaits(lib, ctx, mech, parts, retries);
    var before := Run(lib, ctx, Prelude(mech, parts, retries));
    RunOne(lib, ctx, Prelude(mech, parts, retries), Final(Buf(room)));
    FinalDelivers(lib, before.0.value, parts, room);
    OneShot(lib, ctx, mech, Flatten(parts), room);
  }
}
