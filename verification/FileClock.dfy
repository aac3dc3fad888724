/**
 Time in the shared file. Loads and expiry stamps read one clock while the lock is held, so the saved
 requests are in the order of their clock readings, and so are the loads of the devices among them.
 */
module FileClock {
  import opened Common
  import opened Store
  import opened ConfigFile

  /** A load by a device comes before the loads of all requests saved after it. */
  ghost predicate PointOk(log: seq<Call>, read: nat, point: LoadPoint) {
    && point.at <= |log| && point.time <= read
    && forall k | point.at <= k < |log| :: point.time <= log[k].env.load
  }

  predicate Earlier(a: LoadPoint, b: LoadPoint) {
    a.at <= b.at && a.time <= b.time
  }

  ghost predicate LoadsOk(log: seq<Call>, read: nat, loads: seq<LoadPoint>) {
    && (forall k | 0 <= k < |loads| :: PointOk(log, read, loads[k]))
    && (forall j, k | 0 <= j < k < |loads| :: Earlier(loads[j], loads[k]))
  }

  /** The clock readings of a request that changes slots, taken after everything saved or read. */
  predicate WriterTimes(log: seq<Call>, read: nat, load: nat) {
    LastClock(log) <= load && read <= load
  }

  ghost predicate PcTimes(log: seq<Call>, clock: nat, read: nat, proc: Proc) {
    match proc.pc
    case Loaded(req, _, load, _, _) => Mutating(req) ==> WriterTimes(log, read, load) && load <= clock
    case Decided(call, _, _) => WriterTimes(log, read, call.env.load) && call.env.load <= call.env.later <= clock
    case Saving(call, _, _) => WriterTimes(log, read, call.env.load) && call.env.load <= call.env.later <= clock
    case ReloadLoaded(_, _, point, _) =>
      && PointOk(log, read, point)
      && (proc.device.Some? ==>
            forall k | 0 <= k < |proc.device.value.loads| :: Earlier(proc.device.value.loads[k], point))
    case BootLoaded(_, point, _, _) => PointOk(log, read, point)
    case _ => true
  }

  ghost predicate ProcTimes(log: seq<Call>, clock: nat, read: nat, proc: Proc) {
    && PcTimes(log, clock, read, proc)
    && (proc.device.Some? ==> LoadsOk(log, read, proc.device.value.loads))
  }

  /** The k-th saved request succeeded where it stands in the log. */
  predicate SavedOk(f: File, k: nat)
    requires k < |f.log|
  {
    Mutating(f.log[k].req) && Answered(f.log[k], Run(f.initial, f.log[..k])).Ok?
  }

  ghost predicate Logged(f: File) {
    forall k | 0 <= k < |f.log| :: SavedOk(f, k)
  }

  ghost predicate Times(s: State) {
    && ClockForward(s.file.log) && Logged(s.file)
    && LastClock(s.file.log) <= s.clock && s.read <= s.clock
    && forall p | 0 <= p < |s.procs| :: ProcTimes(s.file.log, s.clock, s.read, s.procs[p])
  }

  lemma StartTimes(slots: Slots, n: nat, stamp: nat, clock: nat)
    ensures Times(Start(slots, n, stamp, clock))
  {
  }

  lemma TickKeepsTimes(s: State, to: nat)
    requires Times(s) && s.clock <= to
    ensures Times(s.(clock := to))
  {
    var s' := s.(clock := to);
    forall p | 0 <= p < |s'.procs| ensures ProcTimes(s'.file.log, s'.clock, s'.read, s'.procs[p]) {
      assert ProcTimes(s.file.log, s.clock, s.read, s.procs[p]);
    }
  }

  /** One process moves; log and clock are left alone. */
  ghost predicate Moved(s: State, s': State, p: nat) {
    && p < |s.procs| && |s'.procs| == |s.procs|
    && s'.file.log == s.file.log && s'.file.initial == s.file.initial && s'.clock == s.clock && s'.read == s.read
    && s'.procs == s.procs[p := s'.procs[p]]
    && ProcTimes(s.file.log, s.clock, s.read, s'.procs[p])
  }

  lemma MoveKeepsTimes(s: State, s': State, p: nat)
    requires Times(s) && Moved(s, s', p)
    ensures Times(s')
  {
    LoggedSame(s.file, s'.file);
    forall q | 0 <= q < |s'.procs| ensures ProcTimes(s'.file.log, s'.clock, s'.read, s'.procs[q]) {
      assert ProcTimes(s.file.log, s.clock, s.read, s.procs[q]);
    }
  }

  lemma ReadKeepsProc(log: seq<Call>, clock: nat, read: nat, proc: Proc)
    requires ProcTimes(log, clock, read, proc) && read <= clock && !HoldsExclusive(proc.pc)
    ensures ProcTimes(log, clock, clock, proc)
  {
    if proc.device.Some? {
      var loads := proc.device.value.loads;
      forall k | 0 <= k < |loads| ensures PointOk(log, clock, loads[k]) {
        assert PointOk(log, read, loads[k]);
      }
    }
  }

  /** A device loads: nobody is writing. */
  lemma ReadKeepsTimes(s: State, p: nat)
    requires ConfigFile.Inv(s) && Times(s) && p < |s.procs| && LoadAct(s, p).Some?
    requires s.procs[p].pc.ReloadHolding? || s.procs[p].pc.BootHolding?
    ensures Times(LoadAct(s, p).value)
  {
    var s' := LoadAct(s, p).value;
    LoadSeesWhole(s, p);
    forall q | 0 <= q < |s'.procs| ensures ProcTimes(s'.file.log, s'.clock, s'.read, s'.procs[q]) {
      assert ProcTimes(s.file.log, s.clock, s.read, s.procs[q]);
      assert !HoldsExclusive(s.procs[q].pc);
      ReadKeepsProc(s.file.log, s.clock, s.read, s.procs[q]);
      if q == p && s.procs[p].device.Some? {
        var loads := s.procs[p].device.value.loads;
        forall k | 0 <= k < |loads| ensures Earlier(loads[k], LoadPoint(|s.file.log|, s.clock)) {
          assert PointOk(s.file.log, s.read, loads[k]);
        }
      }
    }
  }

  lemma ForwardSnoc(log: seq<Call>, call: Call)
    requires ClockForward(log) && LastClock(log) <= call.env.load <= call.env.later
    ensures ClockForward(log + [call]) && LastClock(log + [call]) == call.env.later
  {
    forall j | 0 <= j < |log| ensures log[j].env.later <= call.env.load {
      if j < |log| - 1 {
        assert log[j].env.later <= log[|log| - 1].env.load <= log[|log| - 1].env.later;
      }
    }
  }

  lemma GrowKeepsPoint(log: seq<Call>, read: nat, call: Call, point: LoadPoint)
    requires PointOk(log, read, point) && read <= call.env.load
    ensures PointOk(log + [call], read, point)
  {
  }

  lemma GrowKeepsProc(log: seq<Call>, clock: nat, read: nat, call: Call, proc: Proc)
    requires ProcTimes(log, clock, read, proc) && read <= call.env.load && !HoldsExclusive(proc.pc)
    ensures ProcTimes(log + [call], clock, read, proc)
  {
    if proc.device.Some? {
      var loads := proc.device.value.loads;
      forall k | 0 <= k < |loads| ensures PointOk(log + [call], read, loads[k]) {
        GrowKeepsPoint(log, read, call, loads[k]);
      }
    }
    if proc.pc.ReloadLoaded? || proc.pc.BootLoaded? {
      GrowKeepsPoint(log, read, call, proc.pc.point);
    }
  }

  lemma LoggedSnoc(f: File, call: Call)
    requires Logged(f) && Mutating(call.req) && Answered(call, Content(f)).Ok?
    ensures Logged(f.(log := f.log + [call]))
  {
    var f' := f.(log := f.log + [call]);
    forall k | 0 <= k < |f'.log| ensures SavedOk(f', k) {
      assert f'.log[..k] == f.log[..k];
      if k == |f.log| {
        assert f.log[..k] == f.log;
      } else {
        assert SavedOk(f, k);
      }
    }
  }

  /** Only the log and the first slots matter to this. */
  lemma LoggedSame(f: File, f': File)
    requires Logged(f) && f'.log == f.log && f'.initial == f.initial
    ensures Logged(f')
  {
    forall k | 0 <= k < |f'.log| ensures SavedOk(f', k) {
      assert SavedOk(f, k);
    }
  }

  /** A save completes: the saved request read its clocks after all others. */
  lemma CompleteKeepsTimes(s: State, p: nat, stamp: nat)
    requires ConfigFile.Inv(s) && Times(s) && p < |s.procs| && SaveAct(s, Complete(p, stamp)).Some?
    ensures Times(SaveAct(s, Complete(p, stamp)).value)
  {
    var s', call := SaveAct(s, Complete(p, stamp)).value, s.procs[p].pc.call;
    assert PcOk(s.file, s.procs[p]) && ProcTimes(s.file.log, s.clock, s.read, s.procs[p]);
    ForwardSnoc(s.file.log, call);
    LoggedSnoc(s.file, call);
    assert s'.file.log == s.file.log + [call] && s'.clock == s.clock && s'.read == s.read;
    LoggedSame(s.file.(log := s'.file.log), s'.file);
    forall q | 0 <= q < |s'.procs| ensures ProcTimes(s'.file.log, s'.clock, s'.read, s'.procs[q]) {
      assert ProcTimes(s.file.log, s.clock, s.read, s.procs[q]);
      if q == p {
        GrowKeepsProc(s.file.log, s.clock, s.read, call, s.procs[p].(pc := Idle));
      } else {
        GrowKeepsProc(s.file.log, s.clock, s.read, call, s.procs[q]);
      }
    }
  }

  /** What a process may rely on when it moves. */
  ghost predicate Ready(s: State, p: nat) {
    && p < |s.procs| && ProcTimes(s.file.log, s.clock, s.read, s.procs[p])
    && LastClock(s.file.log) <= s.clock && s.read <= s.clock
  }

  lemma LockMoves(s: State, p: nat)
    requires Ready(s, p)
    ensures LockAct(s, p).Some? ==> Moved(s, LockAct(s, p).value, p)
    ensures UnlockAct(s, p).Some? ==> Moved(s, UnlockAct(s, p).value, p)
  {
  }

  lemma LoadMoves(s: State, p: nat)
    requires Ready(s, p) && s.procs[p].pc.Holding? && LoadAct(s, p).Some?
    ensures Moved(s, LoadAct(s, p).value, p)
  {
  }

  lemma ClientMoves(s: State, a: Action)
    requires (a.Arrive? || a.Decide? || a.Reset?) && Ready(s, a.p) && ClientAct(s, a).Some?
    ensures Moved(s, ClientAct(s, a).value, a.p)
  {
  }

  lemma SaveMoves(s: State, a: Action)
    requires (a.Truncate? || a.Chunk?) && Ready(s, a.p) && SaveAct(s, a).Some?
    ensures Moved(s, SaveAct(s, a).value, a.p)
  {
  }

  lemma DeviceMoves(s: State, a: Action)
    requires (a.ReadStamp? || a.StoreStamp? || a.Boot? || a.Use?) && Ready(s, a.p) && DeviceAct(s, a).Some?
    ensures Moved(s, DeviceAct(s, a).value, a.p)
  {
  }

  /** Every action other than the clock's, a device's load and the end of a save. */
  lemma OtherMoves(s: State, a: Action)
    requires Act(s, a).Some? && !a.Tick? && !a.Complete? && (a.Load? ==> s.procs[a.p].pc.Holding?)
    requires Ready(s, a.p)
    ensures Moved(s, Act(s, a).value, a.p)
  {
    if a.Lock? || a.Unlock? {
      LockMoves(s, a.p);
    } else if a.Load? {
      LoadMoves(s, a.p);
    } else if a.Arrive? || a.Decide? || a.Reset? {
      ClientMoves(s, a);
    } else if a.Truncate? || a.Chunk? {
      SaveMoves(s, a);
    } else {
      DeviceMoves(s, a);
    }
  }

  lemma ActKeepsTimes(s: State, a: Action)
    requires ConfigFile.Inv(s) && Times(s) && Act(s, a).Some?
    ensures Times(Act(s, a).value)
  {
    if a.Tick? {
      TickKeepsTimes(s, a.to);
    } else if a.Complete? {
      CompleteKeepsTimes(s, a.p, a.newStamp);
    } else if a.Load? && !s.procs[a.p].pc.Holding? {
      ReadKeepsTimes(s, a.p);
    } else {
      OtherMoves(s, a);
      MoveKeepsTimes(s, Act(s, a).value, a.p);
    }
  }

  lemma {:induction false} ExecKeepsTimes(s: State, actions: seq<Action>)
    requires ConfigFile.Inv(s) && Times(s) && Exec(s, actions).Some?
    ensures Times(Exec(s, actions).value)
  {
    if actions != [] {
      var before := actions[..|actions| - 1];
      ExecKeepsTimes(s, before);
      ExecKeepsInv(s, before);
      ActKeepsTimes(Exec(s, before).value, actions[|actions| - 1]);
    }
  }

  /** In every interleaving the saved requests read a forward clock, and each succeeded. */
  lemma ReachableTimes(s: State)
    requires Reachable(s)
    ensures Times(s)
  {
    var slots: Slots, n: nat, stamp: nat, clock: nat, actions: seq<Action> :|
      Exec(Start(slots, n, stamp, clock), actions) == Some(s);
    StartInv(slots, n, stamp, clock);
    StartTimes(slots, n, stamp, clock);
    ExecKeepsTimes(Start(slots, n, stamp, clock), actions);
  }
}
