/**
 What each call on the device does to every session, said of single sessions: which calls are accepted,
 which sessions end, which change their state, and that everything else stays.
 */
module SessionLaws {
  import opened Common
  import opened DeviceSpec
  import Store

  /* ---------- Which calls are accepted, and which errors the others get ---------- */

  /** A token that is in its slot and not past its expiry. */
  predicate Running(v: DeviceView, slot: nat, now: nat) {
    slot < |v.slots| && v.slots[slot].Some? && now <= v.slots[slot].value.expiry
  }

  /** The handle names a session of a running token. */
  predicate Usable(v: DeviceView, h: nat, now: nat) {
    Attached(v, h) && Running(v, v.index[h], now)
  }

  lemma ResolvesIff(v: DeviceView, h: nat, now: nat)
    ensures Resolves(v, h, now) <==> Usable(v, h, now)
    ensures Step(v, Event(now, Find(h))) == (v, Found(Usable(v, h, now)))
  {
  }

  lemma OpenAnswer(v: DeviceView, slot: nat, now: nat)
    ensures var (v', r) := Step(v, Event(now, Open(slot)));
            && (r.Handle? <==> Running(v, slot, now) && |v.slots[slot].value.sessions| < 1024)
            && (r.Handle? ==>
                  && r.h == v.nextHandle && Attached(v', r.h) && v'.index[r.h] == slot
                  && v'.slots[slot].value.sessions[r.h] == if v.slots[slot].value.userLogin then RoUser else RoPublic)
            && (!r.Handle? ==>
                  && v' == v
                  && r == Failed(if slot >= |v.slots| then SlotIdInvalid
                                 else if !Running(v, slot, now) then TokenNotPresent else SessionCount))
  {
  }

  /** What a handle that is no use is refused with. */
  function NoSession(v: DeviceView, h: nat, now: nat): Error {
    if h !in v.index then SessionHandleInvalid
    else if v.index[h] >= |v.slots| then SlotIdInvalid
    else if !Running(v, v.index[h], now) then TokenNotPresent
    else SessionHandleInvalid
  }

  lemma CloseAnswer(v: DeviceView, h: nat, now: nat)
    ensures var (v', r) := Step(v, Event(now, Close(h)));
            && (r.Done? <==> Usable(v, h, now))
            && (r.Done? ==> h !in v'.index)
            && (!r.Done? ==> v' == v && r == Failed(NoSession(v, h, now)))
  {
  }

  lemma CloseAllAnswer(v: DeviceView, slot: nat, now: nat)
    ensures var (v', r) := Step(v, Event(now, CloseAll(slot)));
            && (r.Done? <==> Running(v, slot, now))
            && (r.Done? ==> v'.slots[slot].value.sessions == map[] && forall h | h in v'.index :: v'.index[h] != slot)
            && (!r.Done? ==> v' == v && r == Failed(if slot >= |v.slots| then SlotIdInvalid else TokenNotPresent))
  {
  }

  /** A login is accepted exactly with the PIN, on a session of a running token that is not logged in. */
  lemma LoginAnswer(v: DeviceView, h: nat, pin: Bytes, now: nat)
    ensures var (v', r) := Step(v, Event(now, Login(h, pin)));
            && (r.Done? <==>
                  && Usable(v, h, now) && pin == v.slots[v.index[h]].value.built.pin
                  && v.slots[v.index[h]].value.sessions[h].RoPublic?)
            && (!r.Done? ==>
                  && v' == v
                  && r == Failed(if h in v.index && Running(v, v.index[h], now) && pin != v.slots[v.index[h]].value.built.pin
                                 then PinIncorrect
                                 else if !Usable(v, h, now) then NoSession(v, h, now) else UserAlreadyLoggedIn))
  {
  }

  lemma LogoutAnswer(v: DeviceView, h: nat, now: nat)
    ensures var (v', r) := Step(v, Event(now, Logout(h)));
            && (r.Done? <==> Usable(v, h, now) && v.slots[v.index[h]].value.sessions[h].RoUser?)
            && (!r.Done? ==> v' == v && r == Failed(if !Usable(v, h, now) then NoSession(v, h, now) else UserNotLoggedIn))
  {
  }

  /** A lookup reloads exactly when its handle is indexed, the stamp has moved and the load succeeds. */
  predicate Reloads(v: DeviceView, ev: Event) {
    && ev.op.FindMut? && ev.op.h in v.index
    && ev.op.reload.Stamp? && ev.op.reload.mtime != v.stamp && ev.op.reload.content.Some?
  }

  lemma FindMutAnswer(v: DeviceView, h: nat, r: Reload, now: nat)
    ensures var ev := Event(now, FindMut(h, r));
            var (v', reply) := Step(v, ev);
            && reply == Found(h in v.index && v.index[h] < |v'.slots| && v'.slots[v.index[h]].Some?
                              && now <= v'.slots[v.index[h]].value.expiry && h in v'.slots[v.index[h]].value.sessions)
            && (if Reloads(v, ev) then v'.stamp == r.mtime else v' == v)
  {
  }

  /* ---------- Tokens ---------- */

  /** What a call leaves of a slot: a reload takes over an expiry time or empties the slot; no other call
      touches label, PIN, keys or expiry, or any slot but the one it is about. */
  lemma TokenKept(v: DeviceView, ev: Event, i: nat)
    requires i < |v.slots|
    ensures var v' := Step(v, ev).0;
            var (t, t') := (v.slots[i], v'.slots[i]);
            && |v'.slots| == |v.slots|
            && (t'.None? <==> t.None? || Empties(v, ev, i))
            && (t'.Some? ==>
                  && t'.value.built == t.value.built
                  && t'.value.expiry == (if Reloads(v, ev) && i < |ev.op.reload.content.value|
                                         then ev.op.reload.content.value[i].value.expiry else t.value.expiry))
            && (ev.op.FindMut? && t'.Some? ==> t'.value.sessions == t.value.sessions && t'.value.userLogin == t.value.userLogin)
            && (!ev.op.FindMut? && !About(v, ev, i) ==> t' == t)
            && (!Reloads(v, ev) ==> v'.stamp == v.stamp)
  {
  }

  /** The slot that a call is about. */
  predicate About(v: DeviceView, ev: Event, i: nat) {
    match ev.op
    case Open(slot) => slot == i
    case CloseAll(slot) => slot == i
    case _ => ev.op.h in v.index && v.index[ev.op.h] == i
  }

  /* ---------- Sessions ---------- */

  /** The calls that end session `k`: its own close, the close of all sessions of its slot, and a reload
      that empties its slot. */
  predicate Ends(v: DeviceView, ev: Event, k: nat)
    requires k in v.index
  {
    || (ev.op == Close(k) && Step(v, ev).1.Done?)
    || (ev.op == CloseAll(v.index[k]) && Step(v, ev).1.Done?)
    || Empties(v, ev, v.index[k])
  }

  /** In any state, a session ends with one of those calls and with no other. */
  lemma EndsIff(v: DeviceView, ev: Event, k: nat)
    requires Attached(v, k)
    ensures !Attached(Step(v, ev).0, k) <==> Ends(v, ev, k)
  {
  }

  function StateOf(v: DeviceView, k: nat): SessionState
    requires Attached(v, k)
  {
    v.slots[v.index[k]].value.sessions[k]
  }

  /** A session that goes on stays where it is, in the state it has, except that an accepted login or
      logout on its slot sets it; only an open that issues its handle again takes its place. */
  lemma StateKept(v: DeviceView, ev: Event, k: nat)
    requires Attached(v, k) && !Ends(v, ev, k) && Step(v, ev).1 != Handle(k)
    ensures Attached(Step(v, ev).0, k) && Step(v, ev).0.index[k] == v.index[k]
    ensures StateOf(Step(v, ev).0, k) ==
            if Accepted(v, ev, v.index[k]) then (if ev.op.Login? then RoUser else RoPublic) else StateOf(v, k)
  {
  }

  /** Over runs: at some point the session does not exist. */
  ghost predicate Gone(v: DeviceView, run: seq<Event>, k: nat) {
    exists n | 0 <= n <= |run| :: !Attached(Run(v, run[..n]), k)
  }

  /** The n-th call ends it. */
  ghost predicate EndsAt(v: DeviceView, run: seq<Event>, n: nat, k: nat)
    requires n < |run|
  {
    var w := Run(v, run[..n]);
    Attached(w, k) && Ends(w, run[n], k)
  }

  lemma GoneNext(v: DeviceView, run: seq<Event>, ev: Event, k: nat)
    ensures Gone(v, run + [ev], k) <==> Gone(v, run, k) || !Attached(Run(v, run + [ev]), k)
  {
    var more := run + [ev];
    assert more[..|more|] == more;
    forall n | 0 <= n <= |run| ensures more[..n] == run[..n] {
    }
    if Gone(v, run, k) {
      var n :| 0 <= n <= |run| && !Attached(Run(v, run[..n]), k);
      assert !Attached(Run(v, more[..n]), k);
    }
  }

  lemma EndedNext(v: DeviceView, run: seq<Event>, ev: Event, k: nat)
    ensures (exists n | 0 <= n < |run + [ev]| :: EndsAt(v, run + [ev], n, k))
            <==> (exists n | 0 <= n < |run| :: EndsAt(v, run, n, k)) || (Attached(Run(v, run), k) && Ends(Run(v, run), ev, k))
  {
    var more := run + [ev];
    forall n | 0 <= n <= |run| ensures more[..n] == run[..n] {
    }
    assert run[..|run|] == run;
    forall n | 0 <= n < |run| ensures EndsAt(v, more, n, k) <==> EndsAt(v, run, n, k) {
    }
    if Attached(Run(v, run), k) && Ends(Run(v, run), ev, k) {
      assert EndsAt(v, more, |run|, k);
    }
  }

  /** Over every run from any state, a session is there throughout exactly when no call of the run ends it. */
  lemma {:induction false} GoneIff(v: DeviceView, run: seq<Event>, k: nat)
    requires Attached(v, k)
    ensures Gone(v, run, k) <==> exists n | 0 <= n < |run| :: EndsAt(v, run, n, k)
  {
    if run == [] {
      assert run[..0] == [];
    } else {
      var before, ev := run[..|run| - 1], run[|run| - 1];
      assert run == before + [ev];
      GoneIff(v, before, k);
      GoneNext(v, before, ev, k);
      EndedNext(v, before, ev, k);
      if !Gone(v, before, k) {
        assert before[..|before|] == before;
        assert Attached(Run(v, before), k);
        EndsIff(Run(v, before), ev, k);
      }
    }
  }

  /** The state of any session after any run from a new device: that of the last accepted login or logout
      on its token, whenever the session was opened. */
  lemma StateIs(v: DeviceView, run: seq<Event>, k: nat)
    requires Fresh(v) && Attached(Run(v, run), k)
    ensures StateOf(Run(v, run), k) == if LastIsLogin(v, run, Run(v, run).index[k]) then RoUser else RoPublic
  {
    RunKeepsUniform(v, run);
    FlagIs(v, run, Run(v, run).index[k]);
    var t := Run(v, run).slots[Run(v, run).index[k]].value;
    assert TokenOk(t);
  }

  /** Closing one of two sessions leaves the other usable. */
  lemma OtherStays(v: DeviceView, h: nat, k: nat, now: nat)
    requires Usable(v, h, now) && Usable(v, k, now) && h != k
    ensures var w := Step(v, Event(now, Close(h))).0;
            && Step(w, Event(now, Find(k))).1 == Found(true)
            && Step(w, Event(now, Find(h))).1 == Found(false)
  {
    EndsIff(v, Event(now, Close(h)), k);
    StateKept(v, Event(now, Close(h)), k);
    TokenKept(v, Event(now, Close(h)), v.index[k]);
    CloseAnswer(v, h, now);
  }
}
