/**
 Concurrent calls behave as if made one at a time: each takes effect at one point between its start
 and its end, as a step of `DeviceSpec`, and is answered accordingly.
 */
module Linearise {
  import opened Common
  import opened DeviceSpec
  import opened Locks
  import Store

  /* ---------- The device while a login or logout is under way ---------- */

  /** A thread that changes the states of a token's sessions one by one. */
  predicate Changing(pc: Pc) {
    pc.LogLoop? || pc.LogOther? || pc.LogFlag?
  }

  predicate InLog(pc: Pc) {
    pc.LogLock? || pc.LogMain? || Changing(pc)
  }

  /** The sessions it has still to visit. */
  function Unvisited(pc: Pc): set<nat> {
    match pc
    case LogLoop(_, _, _, _, _, rest) => rest
    case LogOther(_, _, _, _, _, rest, cur, _) => rest + {cur}
    case _ => {}
  }

  /** A device in which the sessions of one slot other than `rest` are already in a new state. */
  function Mixed(a: DeviceView, slot: nat, st: SessionState, rest: set<nat>): DeviceView
    requires slot < |a.slots| && a.slots[slot].Some?
  {
    var t := a.slots[slot].value;
    WithToken(a, slot, t.(sessions := map h | h in t.sessions :: if h in rest then t.sessions[h] else st))
  }

  /** A login or logout past its first checks: they still hold of the device as the log left it. */
  ghost predicate LogOk(a: DeviceView, pc: Pc) {
    WellPlaced(pc) && (InLog(pc) ==>
      && (pc.op.Login? || pc.op.Logout?) && !Early(a, pc.op, pc.now) && pc.slot == a.index[pc.op.h]
      && (Changing(pc) ==>
            && a.slots[pc.slot].value.sessions[pc.op.h] != Target(pc.op)
            && pc.op.h !in Unvisited(pc) && Unvisited(pc) <= a.slots[pc.slot].value.sessions.Keys)
      && (pc.LogOther? ==> pc.cur !in pc.rest))
  }

  /** Lookups are lookups, and logins and logouts are those. */
  predicate WellPlaced(pc: Pc) {
    && (pc.Seek? ==> pc.op.Find? || pc.op.FindMut?)
    && (pc.SeekFile? || pc.SeekRead? ==> pc.op.FindMut?)
    && (pc.Device? ==> pc.op.Open? || pc.op.Close? || pc.op.CloseAll?)
    && (pc.LogDevice? ==> pc.op.Login? || pc.op.Logout?)
  }

  /** The device is what the log says, except for the sessions a changing thread has visited. */
  ghost predicate ViewOk(view: DeviceView, a: DeviceView, pc: Pc)
    requires LogOk(a, pc)
  {
    view == if Changing(pc) then Mixed(a, pc.slot, Target(pc.op), Unvisited(pc)) else a
  }

  ghost predicate MemOk(view: DeviceView, a: DeviceView, pc: Pc) {
    LogOk(a, pc) && ViewOk(view, a, pc)
  }

  lemma FirstSet(a: DeviceView, slot: nat, h: nat, st: SessionState)
    requires Present(a, slot, h)
    ensures SetSession(a, slot, h, st) == Mixed(a, slot, st, a.slots[slot].value.sessions.Keys - {h})
  {
    var keys := a.slots[slot].value.sessions.Keys;
    assert SetSession(a, slot, h, st).slots[slot].value.sessions == Mixed(a, slot, st, keys - {h}).slots[slot].value.sessions;
  }

  lemma NextSet(a: DeviceView, slot: nat, st: SessionState, rest: set<nat>, cur: nat)
    requires Present(a, slot, cur) && cur !in rest
    ensures SetSession(Mixed(a, slot, st, rest + {cur}), slot, cur, st) == Mixed(a, slot, st, rest)
  {
    var m := Mixed(a, slot, st, rest + {cur});
    assert SetSession(m, slot, cur, st).slots[slot].value.sessions == Mixed(a, slot, st, rest).slots[slot].value.sessions;
    assert SetSession(m, slot, cur, st).slots == Mixed(a, slot, st, rest).slots;
  }

  /** With every session visited, setting the flag makes the whole step of the call. */
  lemma FlagIsStep(a: DeviceView, op: Op, now: nat, slot: nat)
    requires (op.Login? || op.Logout?) && !Early(a, op, now) && slot == a.index[op.h]
    requires a.slots[slot].value.sessions[op.h] != Target(op)
    ensures var m := Mixed(a, slot, Target(op), {});
            Step(a, Event(now, op)) == (WithToken(m, slot, m.slots[slot].value.(userLogin := op.Login?)), Reply.Done)
  {
    var t := a.slots[slot].value;
    var m := Mixed(a, slot, Target(op), {});
    assert m.slots[slot].value.sessions == AllTo(t.sessions, Target(op));
    assert m.slots[slot := Some(m.slots[slot].value.(userLogin := op.Login?))]
        == a.slots[slot := Some(t.(sessions := AllTo(t.sessions, Target(op)), userLogin := op.Login?))];
  }

  /** A login or logout that fails, early or at its own session, changes nothing. */
  lemma FailedIsStep(a: DeviceView, op: Op, now: nat)
    requires op.Login? || op.Logout?
    requires Early(a, op, now) || a.slots[a.index[op.h]].value.sessions[op.h] == Target(op)
    ensures Step(a, Event(now, op)).0 == a
  {
  }

  /* ---------- Every step of the owner keeps this ---------- */

  function Owner(s: State): Pc {
    if s.device.Some? && s.device.value < |s.threads| then s.threads[s.device.value] else Idle
  }

  /** The device as the log leaves it after one more entry. */
  lemma Logged(s: State, s': State, t: Tid, ev: Event)
    requires s'.start == s.start && s'.log == s.log + [Call(t, ev)]
    ensures Abstract(s') == Step(Abstract(s), ev).0
  {
    RunLogNext(s.start, s.log, Call(t, ev));
  }

  ghost predicate StateOk(s: State, pc: Pc) {
    MemOk(s.view, Abstract(s), pc)
  }

  /** A call takes effect on a device that is what the log says. */
  lemma EffectOk(s: State, s': State, t: Tid, ev: Event, pc: Pc)
    requires s.view == Abstract(s) && s'.start == s.start && s'.log == s.log + [Call(t, ev)]
    requires s'.view == Step(s.view, ev).0 && InEnd(pc)
    ensures StateOk(s', pc)
  {
    Logged(s, s', t, ev);
  }

  lemma LookupOk(s: State, t: Tid, op: Op, since: nat, ev: Event)
    requires t < |s.threads| && (op.Find? || op.FindMut?) && s.view == Abstract(s)
    ensures StateOk(Lookup(s, t, op, since, ev), Lookup(s, t, op, since, ev).threads[t])
  {
    var s' := Lookup(s, t, op, since, ev);
    EffectOk(s, s', t, ev, s'.threads[t]);
  }

  lemma SeekOk(s: State, t: Tid, now: nat)
    requires t < |s.threads| && SeekAct(s, t, now).Some? && StateOk(s, s.threads[t])
    ensures StateOk(SeekAct(s, t, now).value, SeekAct(s, t, now).value.threads[t])
  {
    var pc := s.threads[t];
    if pc.SeekRead? {
      LookupOk(s, t, pc.op, pc.since, Event(now, FindMut(pc.op.h, Stamp(pc.mtime, Some(pc.content)))));
    } else if pc.Seek? && pc.op.Find? {
      LookupOk(s, t, pc.op, pc.since, Event(now, pc.op));
    } else if pc.Seek? && !(pc.op.h in s.view.index && s.file.stamp != s.view.stamp) {
      LookupOk(s, t, pc.op, pc.since, Event(now, FindMut(pc.op.h, Stamp(s.view.stamp, None))));
    }
  }

  lemma EndOk(s: State, t: Tid)
    requires t < |s.threads| && EndAct(s, t).Some? && StateOk(s, s.threads[t]) && HasDevice(s.threads[t])
    ensures StateOk(EndAct(s, t).value, EndAct(s, t).value.threads[t])
    ensures StateOk(EndAct(s, t).value, Idle)
  {
  }

  lemma DeviceOk(s: State, t: Tid, now: nat)
    requires t < |s.threads| && DeviceAct(s, t, now).Some? && StateOk(s, s.threads[t])
    ensures StateOk(DeviceAct(s, t, now).value, DeviceAct(s, t, now).value.threads[t])
  {
    var s' := DeviceAct(s, t, now).value;
    EffectOk(s, s', t, Event(now, s.threads[t].op), s'.threads[t]);
  }

  lemma LogDeviceOk(s: State, t: Tid, now: nat)
    requires t < |s.threads| && s.threads[t].LogDevice? && LogEnter(s, t, now).Some? && StateOk(s, s.threads[t])
    ensures StateOk(LogEnter(s, t, now).value, LogEnter(s, t, now).value.threads[t])
  {
    var op := s.threads[t].op;
    if Early(s.view, op, now) {
      Logged(s, LogEnter(s, t, now).value, t, Event(now, op));
      FailedIsStep(s.view, op, now);
    }
  }

  lemma LogMainOk(s: State, t: Tid, now: nat)
    requires t < |s.threads| && s.threads[t].LogMain? && LogEnter(s, t, now).Some? && StateOk(s, s.threads[t])
    ensures StateOk(LogEnter(s, t, now).value, LogEnter(s, t, now).value.threads[t])
  {
    var pc := s.threads[t];
    if s.view.slots[pc.slot].value.sessions[pc.op.h] == Target(pc.op) {
      Logged(s, LogEnter(s, t, now).value, t, Event(pc.now, pc.op));
      FailedIsStep(s.view, pc.op, pc.now);
    } else {
      FirstSet(s.view, pc.slot, pc.op.h, Target(pc.op));
    }
  }

  lemma LogEnterOk(s: State, t: Tid, now: nat)
    requires t < |s.threads| && LogEnter(s, t, now).Some? && StateOk(s, s.threads[t])
    ensures StateOk(LogEnter(s, t, now).value, LogEnter(s, t, now).value.threads[t])
  {
    if s.threads[t].LogDevice? {
      LogDeviceOk(s, t, now);
    } else if s.threads[t].LogMain? {
      LogMainOk(s, t, now);
    }
  }

  lemma LogFinishOk(s: State, t: Tid)
    requires t < |s.threads| && LogFinish(s, t).Some? && StateOk(s, s.threads[t])
    ensures StateOk(LogFinish(s, t).value, LogFinish(s, t).value.threads[t])
  {
    var pc, a := s.threads[t], Abstract(s);
    if pc.LogOther? {
      NextSet(a, pc.slot, Target(pc.op), pc.rest, pc.cur);
    } else if pc.LogFlag? {
      FlagOk(s, t);
    }
  }

  lemma FlagOk(s: State, t: Tid)
    requires t < |s.threads| && s.threads[t].LogFlag? && LogFinish(s, t).Some? && StateOk(s, s.threads[t])
    ensures StateOk(LogFinish(s, t).value, LogFinish(s, t).value.threads[t])
  {
    var pc := s.threads[t];
    Logged(s, LogFinish(s, t).value, t, Event(pc.now, pc.op));
    FlagIsStep(Abstract(s), pc.op, pc.now, pc.slot);
  }

  lemma VisitOk(s: State, t: Tid, h: nat)
    requires ThreadAct(s, t, Visit(h)).Some? && StateOk(s, s.threads[t])
    ensures StateOk(ThreadAct(s, t, Visit(h)).value, ThreadAct(s, t, Visit(h)).value.threads[t])
  {
    assert s.threads[t].rest - {h} + {h} == s.threads[t].rest;
  }

  /** The owner of the device lock moves. */
  lemma OwnerOk(s: State, t: Tid, m: Move)
    requires ThreadAct(s, t, m).Some? && HasDevice(s.threads[t]) && StateOk(s, s.threads[t])
    ensures StateOk(ThreadAct(s, t, m).value, ThreadAct(s, t, m).value.threads[t])
  {
    var pc := s.threads[t];
    if m.Visit? {
      VisitOk(s, t, m.h);
    } else if InSeek(pc) {
      SeekOk(s, t, m.now);
    } else if InEnd(pc) {
      EndOk(s, t);
    } else if pc.Device? {
      DeviceOk(s, t, m.now);
    } else if InLogEnter(pc) {
      LogEnterOk(s, t, m.now);
    } else {
      LogFinishOk(s, t);
    }
  }

  /** Threads without the device lock leave device and log alone. */
  lemma OutsideFrame(s: State, t: Tid, m: Move)
    requires ThreadAct(s, t, m).Some? && !HasDevice(s.threads[t])
    ensures var s' := ThreadAct(s, t, m).value;
            && s'.view == s.view && s'.log == s.log && s'.start == s.start && s'.objs == s.objs && s'.nextOid == s.nextOid
            && !InLog(s'.threads[t]) && !s'.threads[t].SeekLock? && WellPlaced(s'.threads[t])
            && s'.held.Keys <= s.held.Keys
  {
  }

  lemma ThreadKeepsState(s: State, t: Tid, m: Move, s': State)
    requires DeviceInv(s) && StateOk(s, Owner(s)) && ThreadAct(s, t, m) == Some(s') && DeviceInv(s')
    requires |s'.threads| == |s.threads| && forall u | 0 <= u < |s.threads| && u != t :: s'.threads[u] == s.threads[u]
    ensures StateOk(s', Owner(s'))
  {
    if HasDevice(s.threads[t]) {
      assert s.device == Some(t);
      OwnerOk(s, t, m);
      assert s'.device.Some? ==> s'.device == Some(t);
      assert !HasDevice(s'.threads[t]) ==> !InLog(s'.threads[t]);
    } else {
      OutsideFrame(s, t, m);
      if s'.device.Some? && s'.device.value != t {
        assert s.device == s'.device;
      }
    }
  }

  /* ---------- Session objects ---------- */

  ghost predicate ObjsOk(s: State) {
    && (forall slot: nat, h: nat | Present(s.view, slot, h) :: (slot, h) in s.objs && s.objs[(slot, h)] < s.nextOid)
    && (forall slot: nat, h: nat, slot': nat, h': nat | Present(s.view, slot, h) && Present(s.view, slot', h')
                                    && ObjOf(s, slot, h) == ObjOf(s, slot', h') :: slot == slot' && h == h')
    && (forall oid | oid in s.held :: oid < s.nextOid)
  }

  /** The objects that the owner of the device lock names. */
  ghost predicate PcObjs(s: State, pc: Pc) {
    && (pc.SeekLock? ==> pc.oid < s.nextOid)
    && (InLog(pc) && (pc.op.Login? || pc.op.Logout?) ==> pc.oid == ObjOf(s, pc.slot, pc.op.h))
    && (pc.LogOther? ==> pc.curOid == ObjOf(s, pc.slot, pc.cur))
  }

  /** The sessions that a login or logout names are there. */
  lemma LogPresent(s: State, pc: Pc)
    requires StateOk(s, pc) && InLog(pc)
    ensures Present(s.view, pc.slot, pc.op.h)
    ensures forall h | h in Unvisited(pc) :: Present(s.view, pc.slot, h) && h != pc.op.h
  {
  }

  lemma HoldsTwo(s: State, pc: Pc)
    requires StateOk(s, pc) && ObjsOk(s) && PcObjs(s, pc)
    ensures TwoLocks(pc)
  {
    if pc.LogOther? {
      LogPresent(s, pc);
      assert pc.cur in Unvisited(pc);
    }
  }

  lemma StepPresent(v: DeviceView, ev: Event, slot: nat, h: nat)
    requires Present(Step(v, ev).0, slot, h)
    ensures Present(v, slot, h) || (ev.op == Open(slot) && Step(v, ev).1 == Handle(h))
  {
  }

  /** No session is new. */
  ghost predicate NoneNew(v: DeviceView, v': DeviceView) {
    forall slot: nat, h: nat | Present(v', slot, h) :: Present(v, slot, h)
  }

  lemma ShrinkKeepsObjs(s: State, s': State)
    requires ObjsOk(s) && NoneNew(s.view, s'.view) && s'.objs == s.objs && s'.nextOid == s.nextOid
    requires forall oid | oid in s'.held :: oid in s.held || oid < s.nextOid
    ensures ObjsOk(s')
  {
    forall slot: nat, h: nat, slot': nat, h': nat | Present(s'.view, slot, h) && Present(s'.view, slot', h') && ObjOf(s', slot, h) == ObjOf(s', slot', h')
      ensures slot == slot' && h == h'
    {
      assert Present(s.view, slot, h) && Present(s.view, slot', h');
      assert ObjOf(s, slot, h) == ObjOf(s, slot', h');
    }
  }

  lemma OpenKeepsObjs(s: State, s': State, slot: nat, h: nat)
    requires ObjsOk(s) && s'.objs == s.objs[(slot, h) := s.nextOid] && s'.nextOid == s.nextOid + 1 && s'.held == s.held
    requires forall i: nat, k: nat | Present(s'.view, i, k) :: Present(s.view, i, k) || (i == slot && k == h)
    ensures ObjsOk(s')
  {
    forall i: nat, k: nat, i': nat, k': nat | Present(s'.view, i, k) && Present(s'.view, i', k') && ObjOf(s', i, k) == ObjOf(s', i', k')
      ensures i == i' && k == k'
    {
      if (i, k) != (slot, h) && (i', k') != (slot, h) {
        assert ObjOf(s, i, k) == ObjOf(s, i', k');
      }
    }
  }

  ghost predicate ObjStep(s: State, pc: Pc) {
    ObjsOk(s) && PcObjs(s, pc)
  }

  lemma LookupObjs(s: State, t: Tid, op: Op, since: nat, ev: Event)
    requires t < |s.threads| && (op.Find? || op.FindMut?) && ObjsOk(s) && SameCall(op, ev.op)
    ensures ObjStep(Lookup(s, t, op, since, ev), Lookup(s, t, op, since, ev).threads[t])
  {
    var s' := Lookup(s, t, op, since, ev);
    forall slot: nat, h: nat | Present(s'.view, slot, h) ensures Present(s.view, slot, h) {
      StepPresent(s.view, ev, slot, h);
    }
    ShrinkKeepsObjs(s, s');
    if s'.threads[t].SeekLock? {
      assert Present(s'.view, s.view.index[op.h], op.h);
    }
  }

  lemma SeekObjs(s: State, t: Tid, now: nat)
    requires t < |s.threads| && SeekAct(s, t, now).Some? && ObjsOk(s)
    ensures ObjStep(SeekAct(s, t, now).value, SeekAct(s, t, now).value.threads[t])
  {
    var pc := s.threads[t];
    if pc.SeekFile? {
      ShrinkKeepsObjs(s, SeekAct(s, t, now).value);
    } else if pc.SeekRead? {
      LookupObjs(s, t, pc.op, pc.since, Event(now, FindMut(pc.op.h, Stamp(pc.mtime, Some(pc.content)))));
    } else if pc.op.Find? {
      LookupObjs(s, t, pc.op, pc.since, Event(now, pc.op));
    } else if !(pc.op.h in s.view.index && s.file.stamp != s.view.stamp) {
      LookupObjs(s, t, pc.op, pc.since, Event(now, FindMut(pc.op.h, Stamp(s.view.stamp, None))));
    }
  }

  lemma EndObjs(s: State, t: Tid)
    requires t < |s.threads| && EndAct(s, t).Some? && ObjsOk(s) && PcObjs(s, s.threads[t])
    ensures ObjStep(EndAct(s, t).value, EndAct(s, t).value.threads[t])
  {
    var s' := EndAct(s, t).value;
    EndFrame(s, t);
    ShrinkKeepsObjs(s, s');
  }

  lemma EndFrame(s: State, t: Tid)
    requires t < |s.threads| && EndAct(s, t).Some? && PcObjs(s, s.threads[t])
    ensures var s' := EndAct(s, t).value;
            && s'.view == s.view && s'.objs == s.objs && s'.nextOid == s.nextOid && PcObjs(s', s'.threads[t])
            && forall oid | oid in s'.held :: oid in s.held || oid < s.nextOid
  {
  }

  lemma DeviceObjs(s: State, t: Tid, now: nat)
    requires t < |s.threads| && DeviceAct(s, t, now).Some? && ObjsOk(s)
    ensures ObjStep(DeviceAct(s, t, now).value, DeviceAct(s, t, now).value.threads[t])
  {
    var s', ev := DeviceAct(s, t, now).value, Event(now, s.threads[t].op);
    forall slot: nat, h: nat | Present(s'.view, slot, h)
      ensures Present(s.view, slot, h) || (ev.op == Open(slot) && Step(s.view, ev).1 == Handle(h))
    {
      StepPresent(s.view, ev, slot, h);
    }
    if ev.op.Open? && Step(s.view, ev).1.Handle? {
      OpenKeepsObjs(s, s', ev.op.slot, Step(s.view, ev).1.h);
    } else {
      ShrinkKeepsObjs(s, s');
    }
  }

  lemma LogEnterFrame(s: State, t: Tid, now: nat)
    requires t < |s.threads| && LogEnter(s, t, now).Some? && PcObjs(s, s.threads[t])
    ensures var s' := LogEnter(s, t, now).value;
            && s'.objs == s.objs && s'.nextOid == s.nextOid && PcObjs(s', s'.threads[t])
            && (if s.threads[t].LogLock? then s'.held == s.held[s.threads[t].oid := t] else s'.held == s.held)
            && NoneNew(s.view, s'.view)
  {
  }

  lemma LogEnterObjs(s: State, t: Tid, now: nat)
    requires t < |s.threads| && LogEnter(s, t, now).Some? && ObjsOk(s) && PcObjs(s, s.threads[t]) && StateOk(s, s.threads[t])
    ensures ObjStep(LogEnter(s, t, now).value, LogEnter(s, t, now).value.threads[t])
  {
    if s.threads[t].LogLock? {
      LogPresent(s, s.threads[t]);
    }
    LogEnterFrame(s, t, now);
    ShrinkKeepsObjs(s, LogEnter(s, t, now).value);
  }

  lemma LogFinishObjs(s: State, t: Tid)
    requires t < |s.threads| && LogFinish(s, t).Some? && ObjsOk(s) && PcObjs(s, s.threads[t]) && StateOk(s, s.threads[t])
    ensures ObjStep(LogFinish(s, t).value, LogFinish(s, t).value.threads[t])
  {
    ShrinkKeepsObjs(s, LogFinish(s, t).value);
  }

  lemma VisitObjs(s: State, t: Tid, h: nat)
    requires ThreadAct(s, t, Visit(h)).Some? && ObjsOk(s) && PcObjs(s, s.threads[t]) && StateOk(s, s.threads[t])
    ensures ObjStep(ThreadAct(s, t, Visit(h)).value, ThreadAct(s, t, Visit(h)).value.threads[t])
  {
    LogPresent(s, s.threads[t]);
    assert h in Unvisited(s.threads[t]);
    ShrinkKeepsObjs(s, ThreadAct(s, t, Visit(h)).value);
  }

  lemma OwnerObjs(s: State, t: Tid, m: Move)
    requires ThreadAct(s, t, m).Some? && HasDevice(s.threads[t])
    requires ObjsOk(s) && PcObjs(s, s.threads[t]) && StateOk(s, s.threads[t])
    ensures ObjStep(ThreadAct(s, t, m).value, ThreadAct(s, t, m).value.threads[t])
  {
    var pc := s.threads[t];
    if m.Visit? {
      VisitObjs(s, t, m.h);
    } else if InSeek(pc) {
      SeekObjs(s, t, m.now);
    } else if InEnd(pc) {
      EndObjs(s, t);
    } else if pc.Device? {
      DeviceObjs(s, t, m.now);
    } else if InLogEnter(pc) {
      LogEnterObjs(s, t, m.now);
    } else {
      LogFinishObjs(s, t);
    }
  }

  lemma ThreadKeepsObjs(s: State, t: Tid, m: Move, s': State)
    requires DeviceInv(s) && StateOk(s, Owner(s)) && ThreadAct(s, t, m) == Some(s') && DeviceInv(s')
    requires |s'.threads| == |s.threads| && forall u | 0 <= u < |s.threads| && u != t :: s'.threads[u] == s.threads[u]
    requires ObjsOk(s) && PcObjs(s, Owner(s))
    ensures ObjsOk(s') && PcObjs(s', Owner(s'))
  {
    if HasDevice(s.threads[t]) {
      assert s.device == Some(t);
      OwnerObjs(s, t, m);
      assert s'.device.Some? ==> s'.device == Some(t);
    } else {
      OutsideFrame(s, t, m);
      ShrinkKeepsObjs(s, s');
      if s'.device.Some? && s'.device.value != t {
        assert s.device == s'.device;
      }
    }
  }

  /* ---------- Every call takes effect once ---------- */

  /** The call that was made, up to what its reload met. */
  predicate SameCall(op: Op, op': Op) {
    op == op' || (op.FindMut? && op'.FindMut? && op.h == op'.h)
  }

  predicate By(e: Entry, t: Tid) {
    e.Call? && e.tid == t
  }

  /** A call that has not taken effect. */
  ghost predicate Pending(log: seq<Entry>, t: Tid, since: nat) {
    since <= |log| && forall k | since <= k < |log| :: !By(log[k], t)
  }

  /** A stamp, and then a content less what had expired at some time, that the file had: the stamp after
      `seen` entries, at or after `since`, and the content after `loaded`, with the file free to be read. */
  ghost predicate ReadAt(f: FileState, log: seq<Entry>, since: nat, seen: nat, loaded: nat, time: nat, mtime: nat, content: Store.Slots) {
    && since <= seen <= loaded <= |log| && FileAfter(f, log[..seen]).stamp == mtime
    && !FileAfter(f, log[..loaded]).busy && content == Store.Sweep(FileAfter(f, log[..loaded]).content, time)
  }

  /** What a lookup met that reloads first was the file: the stamp is the one the file had at some point
      since the call began; when it is the device's own there is no reload, and otherwise the content is
      the file's at some point after that. */
  ghost predicate MetFile(f: FileState, start: DeviceView, log: seq<Entry>, since: nat, at: nat, ev: Event) {
    at <= |log| && ev.op.FindMut? && ev.op.h in RunLog(start, log[..at]).index ==>
      && ev.op.reload.Stamp?
      && match ev.op.reload.content
         case None =>
           && ev.op.reload.mtime == RunLog(start, log[..at]).stamp
           && exists seen: nat :: since <= seen <= at && FileAfter(f, log[..seen]).stamp == ev.op.reload.mtime
         case Some(content) =>
           exists seen: nat, loaded: nat, time: nat ::
             ReadAt(f, log[..at], since, seen, loaded, time, ev.op.reload.mtime, content)
  }

  /** A call that took effect once since it began, with the reply of the device at that point. */
  ghost predicate Effective(f: FileState, start: DeviceView, log: seq<Entry>, t: Tid, op: Op, since: nat, point: Point) {
    && since <= point.at < |log| && By(log[point.at], t) && SameCall(op, log[point.at].ev.op)
    && point.reply == Step(RunLog(start, log[..point.at]), log[point.at].ev).1
    && MetFile(f, start, log, since, point.at, log[point.at].ev)
    && forall k | since <= k < |log| && k != point.at :: !By(log[k], t)
  }

  ghost predicate HistOk(f: FileState, start: DeviceView, log: seq<Entry>, t: Tid, pc: Pc) {
    if pc.Idle? then true
    else if InEnd(pc) then Effective(f, start, log, t, pc.op, pc.since, pc.point)
    else Pending(log, t, pc.since) && StampSeen(f, log, pc)
  }

  /** A stamp that was read is the one the file had then, and so is a content that was loaded. */
  ghost predicate StampSeen(f: FileState, log: seq<Entry>, pc: Pc) {
    && (pc.SeekFile? ==> pc.since <= pc.seen <= |log| && FileAfter(f, log[..pc.seen]).stamp == pc.mtime)
    && (pc.SeekRead? ==> ReadAt(f, log, pc.since, pc.seen, pc.loaded, pc.time, pc.mtime, pc.content))
  }

  /** What a step means for the call: it goes on, takes effect, begins or ends. */
  ghost predicate CallStep(s: State, s': State, t: Tid) {
    && t < |s.threads| && |s'.threads| == |s.threads| && s'.start == s.start && s'.firstFile == s.firstFile
    && (forall u | 0 <= u < |s.threads| && u != t :: s'.threads[u] == s.threads[u])
    && var (pc, pc') := (s.threads[t], s'.threads[t]);
       || (s'.log == s.log && pc'.Idle?)
       || (s'.log == s.log && pc' == Wait(pc'.op, |s.log|))
       || (s'.log == s.log && !pc.Idle? && !pc'.Idle? && !InEnd(pc) && !InEnd(pc') && pc'.since == pc.since
           && StampSeen(s.firstFile, s.log, pc'))
       || (s'.log == s.log && InEnd(pc) && InEnd(pc') && pc'.op == pc.op && pc'.since == pc.since && pc'.point == pc.point)
       || (&& !pc.Idle? && !InEnd(pc) && InEnd(pc') && pc'.op == pc.op && pc'.since == pc.since
           && exists ev :: Took(s, s', t, pc', ev))
  }

  ghost predicate Took(s: State, s': State, t: Tid, pc: Pc, ev: Event)
    requires InEnd(pc)
  {
    && s'.log == s.log + [Call(t, ev)] && SameCall(pc.op, ev.op)
    && pc.point == Point(|s.log|, Step(Abstract(s), ev).1)
    && MetFile(s.firstFile, s.start, s.log, pc.since, |s.log|, ev)
  }

  /** What was met at a point does not change when the log grows. */
  lemma MetFileKept(f: FileState, start: DeviceView, log: seq<Entry>, e: Entry, since: nat, at: nat, ev: Event)
    requires at <= |log| && MetFile(f, start, log, since, at, ev)
    ensures MetFile(f, start, log + [e], since, at, ev)
  {
    var log' := log + [e];
    assert log'[..at] == log[..at];
    if ev.op.FindMut? && ev.op.h in RunLog(start, log[..at]).index && ev.op.reload.content.None? {
      var seen: nat :| since <= seen <= at && FileAfter(f, log[..seen]).stamp == ev.op.reload.mtime;
      assert log'[..seen] == log[..seen];
    }
  }

  lemma OthersKeepHist(f: FileState, start: DeviceView, log: seq<Entry>, t: Tid, pc: Pc, e: Entry)
    requires HistOk(f, start, log, t, pc) && !By(e, t)
    ensures HistOk(f, start, log + [e], t, pc)
  {
    if InEnd(pc) {
      var at := pc.point.at;
      assert (log + [e])[..at] == log[..at];
      MetFileKept(f, start, log, e, pc.since, at, log[at].ev);
    } else if pc.SeekFile? || pc.SeekRead? {
      assert (log + [e])[..pc.seen] == log[..pc.seen];
      assert pc.SeekRead? ==> (log + [e])[..pc.loaded] == log[..pc.loaded];
    }
  }

  lemma TookKeepsHist(s: State, s': State, t: Tid, pc: Pc, ev: Event)
    requires InEnd(pc) && Took(s, s', t, pc, ev) && Pending(s.log, t, pc.since)
    requires s'.start == s.start && s'.firstFile == s.firstFile
    ensures HistOk(s'.firstFile, s'.start, s'.log, t, pc)
  {
    assert s'.log[..|s.log|] == s.log;
    MetFileKept(s.firstFile, s.start, s.log, Call(t, ev), pc.since, |s.log|, ev);
  }

  lemma CallStepKeepsHist(s: State, s': State, t: Tid, u: Tid)
    requires CallStep(s, s', t) && u < |s.threads| && HistOk(s.firstFile, s.start, s.log, u, s.threads[u])
    ensures HistOk(s'.firstFile, s'.start, s'.log, u, s'.threads[u])
  {
    if s'.log != s.log {
      var ev :| Took(s, s', t, s'.threads[t], ev);
      if u != t {
        OthersKeepHist(s.firstFile, s.start, s.log, u, s.threads[u], Call(t, ev));
      } else {
        TookKeepsHist(s, s', t, s'.threads[t], ev);
      }
    }
  }

  lemma LookupCall(s: State, t: Tid, op: Op, since: nat, ev: Event)
    requires t < |s.threads| && (op.Find? || op.FindMut?) && SameCall(op, ev.op) && s.view == Abstract(s)
    requires MetFile(s.firstFile, s.start, s.log, since, |s.log|, ev)
    requires InSeek(s.threads[t]) && s.threads[t].op == op && s.threads[t].since == since
    ensures CallStep(s, Lookup(s, t, op, since, ev), t)
  {
    assert Took(s, Lookup(s, t, op, since, ev), t, Lookup(s, t, op, since, ev).threads[t], ev);
  }

  /** Stamp and content were read before. */
  lemma MetByReload(s: State, pc: Pc, now: nat)
    requires pc.SeekRead? && pc.op.FindMut? && StampSeen(s.firstFile, s.log, pc)
    ensures MetFile(s.firstFile, s.start, s.log, pc.since, |s.log|,
                    Event(now, FindMut(pc.op.h, Stamp(pc.mtime, Some(pc.content)))))
  {
    assert s.log[..|s.log|] == s.log;
  }

  /** The stamp is the device's own. */
  lemma MetUnmoved(s: State, h: nat, since: nat, now: nat)
    requires since <= |s.log| && s.file == FileAfter(s.firstFile, s.log) && s.view == Abstract(s)
    requires h in s.view.index ==> s.file.stamp == s.view.stamp
    ensures MetFile(s.firstFile, s.start, s.log, since, |s.log|, Event(now, FindMut(h, Stamp(s.view.stamp, None))))
  {
    assert s.log[..|s.log|] == s.log;
  }

  lemma SeekCall(s: State, t: Tid, now: nat)
    requires t < |s.threads| && SeekAct(s, t, now).Some? && StateOk(s, s.threads[t])
    requires HistOk(s.firstFile, s.start, s.log, t, s.threads[t]) && s.file == FileAfter(s.firstFile, s.log)
    ensures CallStep(s, SeekAct(s, t, now).value, t)
  {
    var pc := s.threads[t];
    if pc.SeekFile? {
      assert s.log[..|s.log|] == s.log;
    } else if pc.SeekRead? {
      MetByReload(s, pc, now);
      LookupCall(s, t, pc.op, pc.since, Event(now, FindMut(pc.op.h, Stamp(pc.mtime, Some(pc.content)))));
    } else if pc.op.Find? {
      LookupCall(s, t, pc.op, pc.since, Event(now, pc.op));
    } else if !(pc.op.h in s.view.index && s.file.stamp != s.view.stamp) {
      MetUnmoved(s, pc.op.h, pc.since, now);
      LookupCall(s, t, pc.op, pc.since, Event(now, FindMut(pc.op.h, Stamp(s.view.stamp, None))));
    } else {
      assert s.log[..|s.log|] == s.log;
    }
  }

  lemma EndCall(s: State, t: Tid)
    requires t < |s.threads| && EndAct(s, t).Some?
    ensures CallStep(s, EndAct(s, t).value, t)
  {
  }

  lemma DeviceCall(s: State, t: Tid, now: nat)
    requires t < |s.threads| && DeviceAct(s, t, now).Some? && StateOk(s, s.threads[t])
    ensures CallStep(s, DeviceAct(s, t, now).value, t)
  {
    var s' := DeviceAct(s, t, now).value;
    assert Took(s, s', t, s'.threads[t], Event(now, s.threads[t].op));
  }

  lemma LogEnterCall(s: State, t: Tid, now: nat)
    requires t < |s.threads| && LogEnter(s, t, now).Some? && StateOk(s, s.threads[t])
    ensures CallStep(s, LogEnter(s, t, now).value, t)
  {
    var pc, s' := s.threads[t], LogEnter(s, t, now).value;
    if InEnd(s'.threads[t]) {
      assert Took(s, s', t, s'.threads[t], Event(if pc.LogDevice? then now else pc.now, pc.op));
    }
  }

  lemma FlagReply(a: DeviceView, view: DeviceView, pc: Pc)
    requires pc.LogFlag? && MemOk(view, a, pc)
    ensures Step(a, Event(pc.now, pc.op)).1 == Reply.Done
  {
    FlagIsStep(a, pc.op, pc.now, pc.slot);
  }

  lemma FlagCall(s: State, t: Tid)
    requires t < |s.threads| && s.threads[t].LogFlag? && LogFinish(s, t).Some?
    requires Step(Abstract(s), Event(s.threads[t].now, s.threads[t].op)).1 == Reply.Done
    ensures CallStep(s, LogFinish(s, t).value, t)
  {
    var pc, s' := s.threads[t], LogFinish(s, t).value;
    assert Took(s, s', t, s'.threads[t], Event(pc.now, pc.op));
  }

  lemma LoopCall(s: State, t: Tid)
    requires t < |s.threads| && !s.threads[t].LogFlag? && LogFinish(s, t).Some?
    ensures CallStep(s, LogFinish(s, t).value, t)
  {
  }

  lemma ThreadCall(s: State, t: Tid, m: Move)
    requires ThreadAct(s, t, m).Some? && (HasDevice(s.threads[t]) ==> StateOk(s, s.threads[t]))
    requires HistOk(s.firstFile, s.start, s.log, t, s.threads[t]) && s.file == FileAfter(s.firstFile, s.log)
    ensures CallStep(s, ThreadAct(s, t, m).value, t)
  {
    var pc := s.threads[t];
    if m.Go? {
      if InSeek(pc) {
        SeekCall(s, t, m.now);
      } else if InEnd(pc) {
        EndCall(s, t);
      } else if pc.Device? {
        DeviceCall(s, t, m.now);
      } else if InLogEnter(pc) {
        LogEnterCall(s, t, m.now);
      } else if pc.LogFlag? {
        FlagReply(Abstract(s), s.view, pc);
        FlagCall(s, t);
      } else if !pc.Wait? {
        LoopCall(s, t);
      }
    }
  }

  /* ---------- Visited sessions ---------- */

  /** Nobody holds the lock of a session that a changing thread has visited and left. */
  ghost predicate VisitedFree(s: State, pc: Pc) {
    Changing(pc) && (pc.op.Login? || pc.op.Logout?) ==>
      forall h: nat | Present(s.view, pc.slot, h) && h !in Unvisited(pc) && h != pc.op.h :: ObjOf(s, pc.slot, h) !in s.held
  }

  lemma FinishVisited(s: State, t: Tid)
    requires t < |s.threads| && LogFinish(s, t).Some? && Changing(s.threads[t])
    requires VisitedFree(s, s.threads[t]) && StateOk(s, s.threads[t]) && PcObjs(s, s.threads[t])
    ensures VisitedFree(LogFinish(s, t).value, LogFinish(s, t).value.threads[t])
  {
    var pc, s' := s.threads[t], LogFinish(s, t).value;
    if pc.LogOther? {
      forall h: nat | Present(s'.view, pc.slot, h) && h !in pc.rest && h != pc.op.h ensures ObjOf(s', pc.slot, h) !in s'.held {
        assert Present(s.view, pc.slot, h);
        assert h == pc.cur || h !in Unvisited(pc);
      }
    }
  }

  lemma VisitVisited(s: State, t: Tid, h: nat)
    requires ThreadAct(s, t, Visit(h)).Some? && VisitedFree(s, s.threads[t]) && StateOk(s, s.threads[t]) && ObjsOk(s)
    ensures VisitedFree(ThreadAct(s, t, Visit(h)).value, ThreadAct(s, t, Visit(h)).value.threads[t])
  {
    var pc, s' := s.threads[t], ThreadAct(s, t, Visit(h)).value;
    LogPresent(s, pc);
    assert Unvisited(s'.threads[t]) == Unvisited(pc) && h in Unvisited(pc);
    forall k: nat | Present(s'.view, pc.slot, k) && k !in Unvisited(pc) && k != pc.op.h ensures ObjOf(s', pc.slot, k) !in s'.held {
      assert Present(s.view, pc.slot, k) && Present(s.view, pc.slot, h) && k != h;
    }
  }

  lemma EnterVisited(s: State, t: Tid, now: nat)
    requires t < |s.threads| && LogEnter(s, t, now).Some? && StateOk(s, s.threads[t])
    ensures VisitedFree(LogEnter(s, t, now).value, LogEnter(s, t, now).value.threads[t])
  {
    var pc, s' := s.threads[t], LogEnter(s, t, now).value;
    if Changing(s'.threads[t]) {
      LogPresent(s, pc);
      forall h: nat | Present(s'.view, pc.slot, h) && h != pc.op.h ensures h in Unvisited(s'.threads[t]) {
        assert Present(s.view, pc.slot, h);
      }
    }
  }

  lemma OtherNotChanging(s: State, t: Tid, m: Move)
    requires ThreadAct(s, t, m).Some? && HasDevice(s.threads[t]) && !InLogEnter(s.threads[t]) && !Changing(s.threads[t])
    ensures !Changing(ThreadAct(s, t, m).value.threads[t])
  {
  }

  lemma ThreadKeepsVisited(s: State, t: Tid, m: Move, s': State)
    requires DeviceInv(s) && StateOk(s, Owner(s)) && ThreadAct(s, t, m) == Some(s') && DeviceInv(s')
    requires |s'.threads| == |s.threads| && forall u | 0 <= u < |s.threads| && u != t :: s'.threads[u] == s.threads[u]
    requires ObjsOk(s) && PcObjs(s, Owner(s)) && VisitedFree(s, Owner(s))
    ensures VisitedFree(s', Owner(s'))
  {
    var pc := s.threads[t];
    if HasDevice(pc) {
      assert s.device == Some(t);
      assert s'.device.Some? ==> s'.device == Some(t);
      if m.Visit? {
        VisitVisited(s, t, m.h);
      } else if Changing(pc) {
        FinishVisited(s, t);
      } else if InLogEnter(pc) {
        EnterVisited(s, t, m.now);
      } else {
        OtherNotChanging(s, t, m);
      }
    } else {
      OutsideFrame(s, t, m);
      if s'.device.Some? && s'.device.value != t {
        assert s.device == s'.device;
      }
    }
  }

  /* ---------- The invariant ---------- */

  ghost predicate MemInv(s: State) {
    StateOk(s, Owner(s)) && ObjsOk(s) && PcObjs(s, Owner(s)) && VisitedFree(s, Owner(s))
  }

  ghost predicate Inv(s: State) {
    && DeviceSpec.Fresh(s.start) && DeviceInv(s) && HeldInv(s) && MemInv(s)
    && s.file == FileAfter(s.firstFile, s.log)
    && forall t | 0 <= t < |s.threads| :: HistOk(s.firstFile, s.start, s.log, t, s.threads[t])
  }

  lemma StartInv(v: DeviceView, f: FileState, n: nat)
    requires DeviceSpec.Fresh(v)
    ensures Inv(Start(v, f, n))
  {
  }

  lemma OwnerIs(s: State, t: Tid)
    requires Inv(s) && t < |s.threads| && HasDevice(s.threads[t])
    ensures s.device == Some(t) && Owner(s) == s.threads[t]
  {
  }

  lemma ThreadKeepsFile(s: State, t: Tid, m: Move, s': State)
    requires ThreadAct(s, t, m) == Some(s') && CallStep(s, s', t) && s.file == FileAfter(s.firstFile, s.log)
    ensures s'.file == FileAfter(s'.firstFile, s'.log)
  {
    SameFile(s, t, m);
    if s'.log != s.log {
      var ev :| Took(s, s', t, s'.threads[t], ev);
      FileAfterNext(s.firstFile, s.log, Call(t, ev));
    }
  }

  lemma SameFile(s: State, t: Tid, m: Move)
    requires ThreadAct(s, t, m).Some?
    ensures ThreadAct(s, t, m).value.file == s.file
  {
  }

  lemma ThreadKeepsInv(s: State, t: Tid, m: Move)
    requires Inv(s) && ThreadAct(s, t, m).Some?
    ensures Inv(ThreadAct(s, t, m).value)
  {
    var s' := ThreadAct(s, t, m).value;
    if HasDevice(s.threads[t]) {
      OwnerIs(s, t);
      HoldsTwo(s, s.threads[t]);
    }
    ThreadKeepsLocks(s, t, m);
    ThreadCall(s, t, m);
    ThreadKeepsState(s, t, m, s');
    ThreadKeepsObjs(s, t, m, s');
    ThreadKeepsVisited(s, t, m, s');
    ThreadKeepsFile(s, t, m, s');
    forall u | 0 <= u < |s'.threads| ensures HistOk(s'.firstFile, s'.start, s'.log, u, s'.threads[u]) {
      CallStepKeepsHist(s, s', t, u);
    }
  }

  lemma WriteKeepsLocks(s: State, f: FileState)
    requires DeviceInv(s) && HeldInv(s)
    ensures DeviceInv(Write(s, f)) && HeldInv(Write(s, f))
  {
  }

  /** Memory is as good as before when only the log has grown by something that is no call. */
  lemma SameMem(s: State, s': State)
    requires MemInv(s) && Abstract(s') == Abstract(s) && Owner(s') == Owner(s)
    requires s'.view == s.view && s'.objs == s.objs && s'.nextOid == s.nextOid && s'.held == s.held
    ensures MemInv(s')
  {
    ShrinkKeepsObjs(s, s');
    SameVisited(s, s', Owner(s));
  }

  lemma SameVisited(s: State, s': State, pc: Pc)
    requires VisitedFree(s, pc) && s'.view == s.view && s'.objs == s.objs && s'.held == s.held
    ensures VisitedFree(s', pc)
  {
    forall slot: nat, h: nat ensures ObjOf(s', slot, h) == ObjOf(s, slot, h) {
    }
  }

  lemma WriteKeepsMem(s: State, f: FileState)
    requires MemInv(s)
    ensures MemInv(Write(s, f))
  {
    RunLogNext(s.start, s.log, Wrote(f));
    SameMem(s, Write(s, f));
  }

  /** The server's steps do not touch the device. */
  lemma WriteKeepsInv(s: State, f: FileState)
    requires Inv(s)
    ensures Inv(Write(s, f))
  {
    var s' := Write(s, f);
    WriteKeepsLocks(s, f);
    WriteKeepsMem(s, f);
    FileAfterNext(s.firstFile, s.log, Wrote(f));
    forall u | 0 <= u < |s'.threads| ensures HistOk(s'.firstFile, s'.start, s'.log, u, s'.threads[u]) {
      OthersKeepHist(s.firstFile, s.start, s.log, u, s.threads[u], Wrote(f));
    }
  }

  lemma {:induction false} ExecKeepsInv(s: State, run: seq<Action>)
    requires Inv(s) && Exec(s, run).Some?
    ensures Inv(Exec(s, run).value)
  {
    if run != [] {
      var before, a := run[..|run| - 1], run[|run| - 1];
      ExecKeepsInv(s, before);
      var t := Exec(s, before).value;
      match a
      case Thread(u, m) => ThreadKeepsInv(t, u, m);
      case _ => WriteKeepsInv(t, Act(t, a).value.file);
    }
  }

  lemma ReachableInv(s: State)
    requires Reachable(s)
    ensures Inv(s)
  {
    var v: DeviceView, f: FileState, n: nat, run: seq<Action> :| DeviceSpec.Fresh(v) && Exec(Start(v, f, n), run) == Some(s);
    StartInv(v, f, n);
    ExecKeepsInv(Start(v, f, n), run);
  }

  /* ---------- Main results ---------- */

  /** Linearisability. In every interleaving a finished call took effect exactly once, at one point of
      the log between its start and its end, as the step of the device that it is, and was answered with
      the reply of that step; a lookup that may reload met the file as it was then. */
  lemma Linearisable(s: State, t: Tid)
    requires Reachable(s) && t < |s.threads| && s.threads[t].Finished?
    ensures var pc := s.threads[t];
            && pc.since <= pc.point.at < |s.log| && By(s.log[pc.point.at], t)
            && SameCall(pc.op, s.log[pc.point.at].ev.op)
            && pc.point.reply == Step(RunLog(s.start, s.log[..pc.point.at]), s.log[pc.point.at].ev).1
            && MetFile(s.firstFile, s.start, s.log, pc.since, pc.point.at, s.log[pc.point.at].ev)
            && forall k | pc.since <= k < |s.log| && k != pc.point.at :: !By(s.log[k], t)
  {
    ReachableInv(s);
    assert HistOk(s.firstFile, s.start, s.log, t, s.threads[t]);
  }

  /** Whenever no login or logout is changing session states, the device is exactly what the logged
      calls, made one at a time, leave; and then its sessions follow their token's flag. */
  lemma DeviceIsLog(s: State)
    requires Reachable(s) && forall t | 0 <= t < |s.threads| :: !Changing(s.threads[t])
    ensures s.view == RunLog(s.start, s.log) && Uniform(s.view)
  {
    ReachableInv(s);
    RunLogUniform(s.start, s.log);
  }

  /** A session whose lock another thread holds is neither visited nor the one the call was made on. */
  lemma HeldUnvisited(s: State, t: Tid, h: nat)
    requires DeviceInv(s) && HeldInv(s) && StateOk(s, Owner(s)) && PcObjs(s, Owner(s)) && VisitedFree(s, Owner(s))
    requires t < |s.threads| && s.threads[t].Work? && Changing(Owner(s))
    requires Present(s.view, Owner(s).slot, h) && ObjOf(s, Owner(s).slot, h) == s.threads[t].oid
    ensures h in Unvisited(Owner(s))
  {
    var u, pc := s.device.value, Owner(s);
    assert s.threads[t].oid in Holds(s.threads[t]);
    assert s.threads[t].oid in s.held && s.held[s.threads[t].oid] == t;
    assert pc.oid in Holds(s.threads[u]);
  }

  lemma UnvisitedUnchanged(view: DeviceView, a: DeviceView, pc: Pc, slot: nat, h: nat)
    requires MemOk(view, a, pc) && Present(view, slot, h) && (Changing(pc) && slot == pc.slot ==> h in Unvisited(pc))
    ensures Present(a, slot, h) && view.slots[slot].value.sessions[h] == a.slots[slot].value.sessions[h]
  {
  }

  /** A thread that works on a session sees the state the log gives it, even while another thread is in
      the middle of a login: that one has not come to this session. */
  lemma WorkSeesLog(s: State, t: Tid, slot: nat, h: nat)
    requires Reachable(s) && t < |s.threads| && s.threads[t].Work?
    requires Present(s.view, slot, h) && ObjOf(s, slot, h) == s.threads[t].oid
    ensures Present(Abstract(s), slot, h)
    ensures s.view.slots[slot].value.sessions[h] == Abstract(s).slots[slot].value.sessions[h]
  {
    ReachableInv(s);
    if Changing(Owner(s)) && slot == Owner(s).slot {
      HeldUnvisited(s, t, h);
    }
    UnvisitedUnchanged(s.view, Abstract(s), Owner(s), slot, h);
  }
}
