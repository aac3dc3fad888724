/**
 No reachable state of the locks is stuck, and every call ends.
 */
module LockProgress {
  import opened Common
  import opened DeviceSpec
  import opened Locks
  import opened Linearise
  import Store

  /* ---------- Deadlock freedom ---------- */

  /** The thread waits for the lock of a session object. */
  ghost predicate WaitsFor(s: State, t: Tid, oid: Oid) {
    && t < |s.threads|
    && match s.threads[t]
       case SeekLock(_, _, _, x) => oid == x
       case LogLock(_, _, _, _, x) => oid == x
       case LogLoop(_, _, _, slot, _, rest) => exists h: nat :: h in rest && oid == ObjOf(s, slot, h)
       case _ => false
  }

  /** A thread waits for a session lock, or for the file, only while it holds the device lock, and never
      for a lock that it holds itself. */
  lemma WaitDiscipline(s: State, t: Tid, oid: Oid)
    requires Reachable(s) && WaitsFor(s, t, oid)
    ensures s.device == Some(t) && oid !in Holds(s.threads[t])
  {
    ReachableInv(s);
    OwnerIs(s, t);
    var pc := s.threads[t];
    if pc.LogLoop? {
      LogPresent(s, pc);
      var h: nat :| h in pc.rest && oid == ObjOf(s, pc.slot, h);
      assert h in Unvisited(pc);
    }
  }

  /** Whoever holds a session lock that the device owner does not hold is past the device lock and can
      go on at once. */
  lemma HolderCanGo(s: State, t: Tid, oid: Oid)
    requires DeviceInv(s) && HeldInv(s) && s.device == Some(t) && oid in s.held && s.held[oid] != t
    ensures s.held[oid] < |s.threads| && ThreadAct(s, s.held[oid], Go(0)).Some?
  {
    var u := s.held[oid];
    assert oid in Holds(s.threads[u]);
    assert !HasDevice(s.threads[u]);
  }

  /** Some thread can go on with its call. */
  ghost predicate SomeCanGo(s: State) {
    exists t: Tid, m: Move :: ThreadAct(s, t, m).Some? && !m.Begin?
  }

  /** The owner of the device lock waits for the server, which holds the file. */
  predicate WaitsForFile(s: State) {
    s.file.busy && Owner(s).SeekFile?
  }

  lemma ThreadCanGo(s: State, t: Tid, m: Move)
    requires ThreadAct(s, t, m).Some? && !m.Begin?
    ensures SomeCanGo(s)
  {
  }

  lemma LoopCanGo(s: State, t: Tid)
    requires Linearise.Inv(s) && t < |s.threads| && s.threads[t].LogLoop? && s.device == Some(t)
    ensures SomeCanGo(s)
  {
    var pc := s.threads[t];
    if pc.rest == {} {
      ThreadCanGo(s, t, Go(0));
    } else {
      LogPresent(s, pc);
      var h :| h in pc.rest;
      var oid := ObjOf(s, pc.slot, h);
      assert h in Unvisited(pc) && oid != pc.oid;
      if oid in s.held {
        assert oid !in Holds(pc);
        HolderCanGo(s, t, oid);
        ThreadCanGo(s, s.held[oid], Go(0));
      } else {
        ThreadCanGo(s, t, Visit(h));
      }
    }
  }

  lemma LockCanGo(s: State, t: Tid)
    requires Linearise.Inv(s) && t < |s.threads| && (s.threads[t].SeekLock? || s.threads[t].LogLock?) && s.device == Some(t)
    ensures SomeCanGo(s)
  {
    var pc := s.threads[t];
    if pc.oid in s.held {
      assert pc.oid !in Holds(pc);
      HolderCanGo(s, t, pc.oid);
      ThreadCanGo(s, s.held[pc.oid], Go(0));
    } else {
      ThreadCanGo(s, t, Go(0));
    }
  }

  /** The owner of the device lock in any other place goes on at once, unless it waits for the file. */
  lemma OwnerCanGo(s: State, t: Tid)
    requires Linearise.Inv(s) && t < |s.threads| && s.device == Some(t) && HasDevice(s.threads[t])
    requires !s.threads[t].LogLoop? && !s.threads[t].SeekLock? && !s.threads[t].LogLock?
    requires !WaitsForFile(s)
    ensures SomeCanGo(s)
  {
    var pc := s.threads[t];
    OwnerIs(s, t);
    if InLog(pc) {
      LogPresent(s, pc);
    }
    assert pc.LogOther? ==> pc.cur in Unvisited(pc);
    ThreadCanGo(s, t, Go(0));
  }

  lemma PendingCanGo(s: State, t: Tid)
    requires Linearise.Inv(s) && t < |s.threads| && !s.threads[t].Idle? && !WaitsForFile(s)
    ensures SomeCanGo(s)
  {
    if s.device.None? {
      assert !HasDevice(s.threads[t]);
      ThreadCanGo(s, t, Go(0));
    } else {
      OwnerGoes(s, s.device.value);
    }
  }

  lemma OwnerGoes(s: State, u: Tid)
    requires Linearise.Inv(s) && s.device == Some(u) && !WaitsForFile(s)
    ensures SomeCanGo(s)
  {
    var pc := s.threads[u];
    if pc.LogLoop? {
      LoopCanGo(s, u);
    } else if pc.SeekLock? || pc.LogLock? {
      LockCanGo(s, u);
    } else {
      OwnerCanGo(s, u);
    }
  }

  /** Deadlock freedom: in every reachable state with a pending call some thread can go on with its
      call, unless the owner of the device lock is reloading and the server holds the file. */
  lemma DeadlockFree(s: State, t: Tid)
    requires Reachable(s) && t < |s.threads| && !s.threads[t].Idle?
    ensures SomeCanGo(s) || WaitsForFile(s)
  {
    ReachableInv(s);
    if !WaitsForFile(s) {
      PendingCanGo(s, t);
    }
  }

  /** That wait is the only one for somebody else, and the only one that stops everybody: once the server
      gives the file back, the owner goes on. */
  lemma FileWaitEnds(s: State, stamp: nat, content: Store.Slots)
    requires Reachable(s) && WaitsForFile(s)
    ensures Act(s, FileGive(stamp, content)).Some?
    ensures s.device.Some? && ThreadAct(Act(s, FileGive(stamp, content)).value, s.device.value, Go(0)).Some?
  {
    ReachableInv(s);
  }

  /* ---------- Every call ends ---------- */

  /** The most steps that a call can still take. */
  function Remaining(pc: Pc): nat {
    match pc
    case Idle => 0
    case Finished(_, _, _) => 1
    case Work(_, _, _, _) => 2
    case Exit(_, _, _) => 2
    case Locked(_, _, _, _) => 3
    case LogRelease(_, _, _, _) => 3
    case Device(_, _) => 3
    case SeekLock(_, _, _, _) => 4
    case LogFlag(_, _, _, _, _) => 4
    case SeekRead(_, _, _, _, _, _, _) => 5
    case SeekFile(_, _, _, _) => 6
    case Seek(_, _) => 7
    case LogLoop(_, _, _, _, _, rest) => 5 + 2 * |rest|
    case LogOther(_, _, _, _, _, rest, _, _) => 6 + 2 * |rest|
    case LogMain(_, _, _, _, _) => 6 + 2 * TOKEN_MAX_SESSIONS
    case LogLock(_, _, _, _, _) => 7 + 2 * TOKEN_MAX_SESSIONS
    case LogDevice(_, _) => 8 + 2 * TOKEN_MAX_SESSIONS
    case Wait(_, _) => 9 + 2 * TOKEN_MAX_SESSIONS
  }

  function Total(threads: seq<Pc>): nat {
    if threads == [] then 0 else Total(threads[..|threads| - 1]) + Remaining(threads[|threads| - 1])
  }

  lemma {:induction false} TotalUpdate(threads: seq<Pc>, t: Tid, pc: Pc)
    requires t < |threads|
    ensures Total(threads[t := pc]) + Remaining(threads[t]) == Total(threads) + Remaining(pc)
  {
    var n := |threads| - 1;
    if t < n {
      assert threads[t := pc][..n] == threads[..n][t := pc];
      TotalUpdate(threads[..n], t, pc);
    } else {
      assert threads[t := pc][..n] == threads[..n];
    }
  }

  lemma {:induction false} CardSubset(x: set<nat>, y: set<nat>)
    requires x <= y
    ensures |x| <= |y|
  {
    if x != {} {
      var e :| e in x;
      CardSubset(x - {e}, y - {e});
    }
  }

  /** The other sessions are at most as many as a token may have. */
  lemma OthersFew(s: State, pc: Pc)
    requires DeviceSpec.Fresh(s.start) && StateOk(s, pc) && pc.LogMain?
    ensures Present(s.view, pc.slot, pc.op.h)
    ensures |s.view.slots[pc.slot].value.sessions.Keys - {pc.op.h}| <= TOKEN_MAX_SESSIONS
  {
    RunLogUniform(s.start, s.log);
    var keys := s.view.slots[pc.slot].value.sessions.Keys;
    CardSubset(keys - {pc.op.h}, keys);
  }

  lemma SeekShrinks(s: State, t: Tid, now: nat)
    requires t < |s.threads| && SeekAct(s, t, now).Some?
    ensures Remaining(SeekAct(s, t, now).value.threads[t]) < Remaining(s.threads[t])
  {
  }

  lemma EndShrinks(s: State, t: Tid, now: nat)
    requires t < |s.threads|
    ensures EndAct(s, t).Some? ==> Remaining(EndAct(s, t).value.threads[t]) < Remaining(s.threads[t])
    ensures DeviceAct(s, t, now).Some? ==> Remaining(DeviceAct(s, t, now).value.threads[t]) < Remaining(s.threads[t])
  {
  }

  lemma LogShrinks(s: State, t: Tid, now: nat)
    requires t < |s.threads| && !s.threads[t].LogMain?
    ensures LogEnter(s, t, now).Some? ==> Remaining(LogEnter(s, t, now).value.threads[t]) < Remaining(s.threads[t])
    ensures LogFinish(s, t).Some? ==> Remaining(LogFinish(s, t).value.threads[t]) < Remaining(s.threads[t])
  {
  }

  lemma GoShrinks(s: State, t: Tid, now: nat)
    requires t < |s.threads| && GoAct(s, t, now).Some? && !s.threads[t].LogMain?
    ensures Remaining(GoAct(s, t, now).value.threads[t]) < Remaining(s.threads[t])
  {
    if InSeek(s.threads[t]) {
      SeekShrinks(s, t, now);
    } else {
      EndShrinks(s, t, now);
      LogShrinks(s, t, now);
    }
  }

  lemma MainShrinks(s: State, t: Tid, now: nat)
    requires t < |s.threads| && GoAct(s, t, now).Some? && s.threads[t].LogMain?
    requires DeviceSpec.Fresh(s.start) && StateOk(s, s.threads[t])
    ensures Remaining(GoAct(s, t, now).value.threads[t]) < Remaining(s.threads[t])
  {
    OthersFew(s, s.threads[t]);
  }

  lemma VisitShrinks(s: State, t: Tid, h: nat)
    requires ThreadAct(s, t, Visit(h)).Some?
    ensures Remaining(ThreadAct(s, t, Visit(h)).value.threads[t]) < Remaining(s.threads[t])
  {
  }

  /** However the threads are scheduled, every step of a call brings the whole closer to its end. */
  lemma StepShrinks(s: State, t: Tid, m: Move)
    requires Linearise.Inv(s) && ThreadAct(s, t, m).Some? && !m.Begin?
    ensures Total(ThreadAct(s, t, m).value.threads) < Total(s.threads)
  {
    var s' := ThreadAct(s, t, m).value;
    if HasDevice(s.threads[t]) {
      OwnerIs(s, t);
      HoldsTwo(s, s.threads[t]);
    }
    ThreadLocks(s, t, m);
    assert s'.threads == s.threads[t := s'.threads[t]];
    TotalUpdate(s.threads, t, s'.threads[t]);
    if m.Visit? {
      VisitShrinks(s, t, m.h);
    } else if s.threads[t].LogMain? {
      MainShrinks(s, t, m.now);
    } else {
      GoShrinks(s, t, m.now);
    }
  }

  /** The steps that threads take in a run. */
  function ThreadSteps(run: seq<Action>): nat {
    if run == [] then 0 else ThreadSteps(run[..|run| - 1]) + if run[|run| - 1].Thread? then 1 else 0
  }

  lemma ActShrinks(s: State, a: Action)
    requires Linearise.Inv(s) && Act(s, a).Some? && (a.Thread? ==> !a.m.Begin?)
    ensures Total(Act(s, a).value.threads) + (if a.Thread? then 1 else 0) <= Total(s.threads)
  {
    if a.Thread? {
      StepShrinks(s, a.t, a.m);
    }
  }

  /** Without new calls threads take boundedly many steps, whatever the server does. */
  lemma {:induction false} CallsFinish(s: State, run: seq<Action>)
    requires Reachable(s) && Exec(s, run).Some?
    requires forall k | 0 <= k < |run| && run[k].Thread? :: !run[k].m.Begin?
    ensures ThreadSteps(run) + Total(Exec(s, run).value.threads) <= Total(s.threads)
  {
    if run != [] {
      var before, a := run[..|run| - 1], run[|run| - 1];
      CallsFinish(s, before);
      ReachableInv(s);
      ExecKeepsInv(s, before);
      ActShrinks(Exec(s, before).value, a);
    }
  }

  lemma {:induction false} ExecThen(s: State, first: seq<Action>, run: seq<Action>)
    requires Exec(s, first).Some?
    ensures Exec(s, first + run) == Exec(Exec(s, first).value, run)
  {
    if run == [] {
      assert first + run == first;
    } else {
      var n := |run| - 1;
      ExecThen(s, first, run[..n]);
      assert (first + run)[..|first + run| - 1] == first + run[..n];
    }
  }

  lemma ReachedFrom(s: State, run: seq<Action>)
    requires Reachable(s) && Exec(s, run).Some?
    ensures Reachable(Exec(s, run).value)
  {
    var v: DeviceView, f: FileState, n: nat, first: seq<Action> :|
      DeviceSpec.Fresh(v) && Exec(Start(v, f, n), first) == Some(s);
    ExecThen(Start(v, f, n), first, run);
  }

  /** Every call ends: from any reachable state, a run without new calls takes at most `Total` steps of
      threads, and one that cannot be continued while the file is free leaves every thread idle. */
  lemma EveryCallEnds(s: State, run: seq<Action>, t: Tid)
    requires Reachable(s) && Exec(s, run).Some?
    requires forall k | 0 <= k < |run| && run[k].Thread? :: !run[k].m.Begin?
    ensures ThreadSteps(run) <= Total(s.threads)
    ensures var s' := Exec(s, run).value;
            t < |s'.threads| && !s'.file.busy && !SomeCanGo(s') ==> s'.threads[t].Idle?
  {
    CallsFinish(s, run);
    ReachedFrom(s, run);
    var s' := Exec(s, run).value;
    if t < |s'.threads| && !s'.threads[t].Idle? {
      DeadlockFree(s', t);
    }
  }
}
