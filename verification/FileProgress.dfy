/**
 Nobody waits for ever on the file: some process can always go on with what it has begun, and what is begun
 takes boundedly many steps.
 */
module FileProgress {
  import opened Common
  import opened Store
  import opened ConfigFile
  import DeviceSpec

  /** The most steps that what a process has begun still takes. */
  function Left(pc: Pc): nat {
    match pc
    case Waiting(_, _, _) => 6
    case Holding(_, _, _) => 5
    case Loaded(_, _, _, _, _) => 4
    case Decided(_, _, _) => 3
    case Saving(_, _, _) => 2
    case Saved(_, _) => 1
    case Reading(_, _, _, _, _, _) => 1
    case ReloadWaiting(_) => 4
    case ReloadHolding(_) => 3
    case ReloadLoaded(_, _, _, locked) => if locked then 2 else 1
    case BootWaiting => 4
    case BootHolding => 3
    case BootLoaded(_, _, _, locked) => if locked then 2 else 1
    case _ => 0
  }

  /** A step with which a process goes on with what it has begun; a save may also write further chunks. */
  predicate GoesOn(s: State, a: Action) {
    || a.Lock? || a.Load? || a.Unlock? || a.Decide? || a.Truncate? || a.Complete? || a.StoreStamp?
    || (a.ReadStamp? && a.p < |s.procs| && s.procs[a.p].pc.BootLoaded?)
  }

  /** Nothing new is begun. */
  predicate Steady(s: State, a: Action) {
    a.Tick? || a.Chunk? || GoesOn(s, a)
  }

  /* ---------- A device that reloads is there ---------- */

  predicate Reloads(pc: Pc) {
    pc.ReloadWaiting? || pc.ReloadHolding? || pc.ReloadLoaded?
  }

  ghost predicate DevicesThere(s: State) {
    forall p | 0 <= p < |s.procs| && Reloads(s.procs[p].pc) :: s.procs[p].device.Some?
  }

  lemma ActKeepsThere(s: State, a: Action)
    requires DevicesThere(s) && Act(s, a).Some?
    ensures DevicesThere(Act(s, a).value)
  {
    var s' := Act(s, a).value;
    forall p | 0 <= p < |s'.procs| && Reloads(s'.procs[p].pc) ensures s'.procs[p].device.Some? {
      if a.Tick? || a.p != p {
        assert |s'.procs| == |s.procs|;
        OthersLeave(s, a, p);
      } else {
        OwnStep(s, a);
      }
    }
  }

  lemma OwnStep(s: State, a: Action)
    requires DevicesThere(s) && Act(s, a).Some? && !a.Tick?
    ensures a.p < |s.procs| == |Act(s, a).value.procs|
    ensures Reloads(Act(s, a).value.procs[a.p].pc) ==> Act(s, a).value.procs[a.p].device.Some?
  {
  }

  lemma {:induction false} ExecKeepsThere(s: State, run: seq<Action>)
    requires DevicesThere(s) && Exec(s, run).Some?
    ensures DevicesThere(Exec(s, run).value)
  {
    if run != [] {
      ExecKeepsThere(s, run[..|run| - 1]);
      ActKeepsThere(Exec(s, run[..|run| - 1]).value, run[|run| - 1]);
    }
  }

  lemma ReachableThere(s: State)
    requires Reachable(s)
    ensures DevicesThere(s)
  {
    var slots: Slots, n: nat, stamp: nat, clock: nat, run: seq<Action> :|
      Exec(Start(slots, n, stamp, clock), run) == Some(s);
    ExecKeepsThere(Start(slots, n, stamp, clock), run);
  }

  /* ---------- Somebody can go on ---------- */

  lemma {:induction false} FreshStamp(used: set<nat>) returns (n: nat)
    ensures forall m | m in used :: m < n
  {
    if used == {} {
      n := 0;
    } else {
      var m :| m in used;
      var k := FreshStamp(used - {m});
      n := if m < k then k else m + 1;
      forall x | x in used ensures x < n {
        assert x == m || x in used - {m};
      }
    }
  }

  ghost predicate SomeGoesOn(s: State) {
    exists a: Action :: GoesOn(s, a) && Act(s, a).Some?
  }

  lemma CanGoOn(s: State, a: Action)
    requires GoesOn(s, a) && Act(s, a).Some?
    ensures SomeGoesOn(s)
  {
  }

  /** Whoever has begun something and is not waiting for the lock goes on. */
  lemma InsideGoesOn(s: State, p: nat)
    requires ConfigFile.Inv(s) && DevicesThere(s) && p < |s.procs| && Left(s.procs[p].pc) > 0
    requires !s.procs[p].pc.Waiting? && !s.procs[p].pc.ReloadWaiting? && !s.procs[p].pc.BootWaiting?
    ensures SomeGoesOn(s)
  {
    var pc := s.procs[p].pc;
    assert PcOk(s.file, s.procs[p]);
    var n := FreshStamp(s.file.used);
    var a := match pc
      case Loaded(req, _, _, _, _) => if Mutating(req) then Decide(p) else Unlock(p)
      case Decided(call, _, before) => if Answered(call, before).Ok? then Truncate(p, n) else Unlock(p)
      case Saving(_, _, _) => Complete(p, n)
      case Saved(_, _) => Unlock(p)
      case Reading(_, _, _, _, _, _) => Decide(p)
      case ReloadLoaded(_, _, _, locked) => if locked then Unlock(p) else StoreStamp(p)
      case BootLoaded(_, _, _, locked) => if locked then Unlock(p) else ReadStamp(p)
      case _ => Load(p);
    CanGoOn(s, a);
  }

  lemma WaitingGoesOn(s: State, p: nat)
    requires p < |s.procs| && Grantable(s, true)
    requires s.procs[p].pc.Waiting? || s.procs[p].pc.ReloadWaiting? || s.procs[p].pc.BootWaiting?
    ensures SomeGoesOn(s)
  {
    assert Grantable(s, false);
    CanGoOn(s, Lock(p));
  }

  /** In every reachable state in which some process has begun something, some process can go on. */
  lemma NobodyStuck(s: State, p: nat)
    requires Reachable(s) && p < |s.procs| && Left(s.procs[p].pc) > 0
    ensures SomeGoesOn(s)
  {
    ReachableInv(s);
    ReachableThere(s);
    if Grantable(s, true) && (s.procs[p].pc.Waiting? || s.procs[p].pc.ReloadWaiting? || s.procs[p].pc.BootWaiting?) {
      WaitingGoesOn(s, p);
    } else if Grantable(s, true) {
      InsideGoesOn(s, p);
    } else {
      var q :| 0 <= q < |s.procs| && (HoldsExclusive(s.procs[q].pc) || HoldsShared(s.procs[q].pc));
      InsideGoesOn(s, q);
    }
  }

  /* ---------- And it ends ---------- */

  function Total(procs: seq<Proc>): nat {
    if procs == [] then 0 else Total(procs[..|procs| - 1]) + Left(procs[|procs| - 1].pc)
  }

  lemma {:induction false} TotalUpdate(procs: seq<Proc>, p: nat, proc: Proc)
    requires p < |procs|
    ensures Total(procs[p := proc]) + Left(procs[p].pc) == Total(procs) + Left(proc.pc)
  {
    var n := |procs| - 1;
    if p < n {
      assert procs[p := proc][..n] == procs[..n][p := proc];
      TotalUpdate(procs[..n], p, proc);
    } else {
      assert procs[p := proc][..n] == procs[..n];
    }
  }

  /** A process that goes on comes closer to its end. */
  lemma StepShrinks(s: State, a: Action)
    requires Act(s, a).Some? && Steady(s, a)
    ensures a.Tick? ==> Act(s, a).value.procs == s.procs
    ensures !a.Tick? ==>
              var procs := Act(s, a).value.procs;
              && a.p < |s.procs| == |procs| && procs == s.procs[a.p := procs[a.p]]
              && if a.Chunk? then Left(procs[a.p].pc) == Left(s.procs[a.p].pc) else Left(procs[a.p].pc) < Left(s.procs[a.p].pc)
  {
    if !a.Tick? {
      forall q | 0 <= q < |s.procs| && q != a.p ensures |Act(s, a).value.procs| == |s.procs| && Act(s, a).value.procs[q] == s.procs[q] {
        OthersLeave(s, a, q);
      }
    }
  }

  /** The steps of a run with which processes go on. */
  function Steps(run: seq<Action>): nat {
    if run == [] then 0
    else Steps(run[..|run| - 1]) + if run[|run| - 1].Tick? || run[|run| - 1].Chunk? then 0 else 1
  }

  ghost predicate SteadyRun(s: State, run: seq<Action>) {
    forall k | 0 <= k < |run| :: Exec(s, run[..k]).Some? && Steady(Exec(s, run[..k]).value, run[k])
  }

  lemma {:induction false} RunShrinks(s: State, run: seq<Action>)
    requires Exec(s, run).Some? && SteadyRun(s, run)
    ensures Total(Exec(s, run).value.procs) + Steps(run) <= Total(s.procs)
    ensures |Exec(s, run).value.procs| == |s.procs|
  {
    if run != [] {
      var n := |run| - 1;
      var before := run[..n];
      forall k | 0 <= k < n ensures Exec(s, before[..k]).Some? && Steady(Exec(s, before[..k]).value, before[k]) {
        assert before[..k] == run[..k];
      }
      RunShrinks(s, before);
      var t := Exec(s, before).value;
      StepShrinks(t, run[n]);
      if !run[n].Tick? {
        TotalUpdate(t.procs, run[n].p, Act(t, run[n]).value.procs[run[n].p]);
      }
    }
  }

  /** From any reachable state, as long as nothing new is begun, processes take at most `Total` steps, and when
      none can go on everything has ended: every request is answered, every reload and start is done. */
  lemma EverythingEnds(s: State, run: seq<Action>, p: nat)
    requires Reachable(s) && Exec(s, run).Some? && SteadyRun(s, run)
    ensures Steps(run) <= Total(s.procs)
    ensures var s' := Exec(s, run).value;
            p < |s'.procs| && !SomeGoesOn(s') ==> s'.procs[p].pc.Idle? || s'.procs[p].pc.Finished?
  {
    RunShrinks(s, run);
    ReachedFrom(s, run);
    var s' := Exec(s, run).value;
    if p < |s'.procs| && !SomeGoesOn(s') {
      if Left(s'.procs[p].pc) > 0 {
        NobodyStuck(s', p);
      }
      Serialisable(s', p);
    }
  }

  /* ---------- What a request and a reload read ---------- */

  /** A reload begins exactly on an idle device whose stamp is not the file's. */
  lemma ReloadBeginsIff(s: State, p: nat)
    requires p < |s.procs| && s.procs[p].pc.Idle?
    ensures Act(s, ReadStamp(p)).Some? <==> s.procs[p].device.Some? && s.procs[p].device.value.view.stamp != s.file.stamp
  {
  }

  /** A process that will change the file has its lock, from before it loads the file until it is done. */
  predicate Writing(pc: Pc) {
    match pc
    case Holding(req, _, _) => !req.DescribeDevice? && !req.DescribeToken?
    case Loaded(req, _, _, _, _) => !req.DescribeDevice? && !req.DescribeToken?
    case Decided(_, _, _) => true
    case Saving(_, _, _) => true
    case Saved(_, _) => true
    case _ => false
  }

  /** A process that only reads it has its lock, until it has loaded the file. */
  predicate ReadingFile(pc: Pc) {
    match pc
    case Holding(req, _, _) => req.DescribeDevice? || req.DescribeToken?
    case Loaded(req, _, _, _, _) => req.DescribeDevice? || req.DescribeToken?
    case ReloadHolding(_) => true
    case ReloadLoaded(_, _, _, locked) => locked
    case BootHolding => true
    case BootLoaded(_, _, _, locked) => locked
    case _ => false
  }

  /** Readers share the file and writers have it alone: a describe request, a reload or a start gets the lock
      exactly when nobody is writing, any other request when nobody reads either. */
  lemma LockGrantedIff(s: State, p: nat)
    requires p < |s.procs|
    ensures Act(s, Lock(p)).Some? <==>
              match s.procs[p].pc
              case Waiting(req, _, _) =>
                forall q | 0 <= q < |s.procs| ::
                  !Writing(s.procs[q].pc) && (req.DescribeDevice? || req.DescribeToken? || !ReadingFile(s.procs[q].pc))
              case ReloadWaiting(_) => forall q | 0 <= q < |s.procs| :: !Writing(s.procs[q].pc)
              case BootWaiting => forall q | 0 <= q < |s.procs| :: !Writing(s.procs[q].pc)
              case _ => false
  {
    assert forall pc: Pc :: Writing(pc) == HoldsExclusive(pc);
    assert forall pc: Pc :: ReadingFile(pc) == HoldsShared(pc);
  }

  /** A process is at work on a request it has loaded the file for. */
  ghost predicate Serving(pc: Pc, req: Request, kms: Kms, load: nat) {
    || (pc.Loaded? && pc.req == req && pc.kms == kms && pc.load == load)
    || (pc.Reading? && pc.req == req && pc.kms == kms && pc.load == load)
  }

  lemma {:induction false} ServingOn(s: State, mid: seq<Action>, p: nat, req: Request, kms: Kms, load: nat)
    requires Exec(s, mid).Some? && p < |s.procs| && Serving(s.procs[p].pc, req, kms, load)
    requires forall k | 0 <= k < |mid| :: mid[k] != Decide(p)
    ensures p < |Exec(s, mid).value.procs| && Serving(Exec(s, mid).value.procs[p].pc, req, kms, load)
  {
    if mid != [] {
      var n := |mid| - 1;
      ServingOn(s, mid[..n], p, req, kms, load);
      ServingStep(Exec(s, mid[..n]).value, mid[n], p, req, kms, load);
    }
  }

  lemma ServingStep(s: State, a: Action, p: nat, req: Request, kms: Kms, load: nat)
    requires Act(s, a).Some? && p < |s.procs| && Serving(s.procs[p].pc, req, kms, load) && a != Decide(p)
    ensures p < |Act(s, a).value.procs| && Serving(Act(s, a).value.procs[p].pc, req, kms, load)
  {
    if a.Tick? || a.p != p {
      OthersLeave(s, a, p);
    }
  }

  /** The call that a process has made of a request. */
  function Made(pc: Pc): Option<Call> {
    match pc
    case Decided(call, _, _) => Some(call)
    case Finished(call, _, _, _) => Some(call)
    case _ => None
  }

  /** Whatever happens in between, a request is served as it came, with the clock at the moment the file was
      loaded for it, and the clock at the moment it read it for the second time. */
  lemma ServedAs(s: State, p: nat, mid: seq<Action>, t: State, t': State)
    requires p < |s.procs| && s.procs[p].pc.Holding? && s.file.disk.Whole? && Act(s, Load(p)).Some?
    requires Exec(Act(s, Load(p)).value, mid) == Some(t) && forall k | 0 <= k < |mid| :: mid[k] != Decide(p)
    requires Act(t, Decide(p)) == Some(t')
    ensures p < |t'.procs| && Made(t'.procs[p].pc) == Some(Call(s.procs[p].pc.req, Env(s.clock, t.clock, s.procs[p].pc.kms)))
  {
    var pc := s.procs[p].pc;
    LoadsFor(s, p);
    ServingOn(Act(s, Load(p)).value, mid, p, pc.req, pc.kms, s.clock);
    DecidesFor(t, p, t', pc.req, pc.kms, s.clock);
  }

  lemma LoadsFor(s: State, p: nat)
    requires p < |s.procs| && s.procs[p].pc.Holding? && s.file.disk.Whole? && Act(s, Load(p)).Some?
    ensures var s' := Act(s, Load(p)).value;
            p < |s'.procs| && Serving(s'.procs[p].pc, s.procs[p].pc.req, s.procs[p].pc.kms, s.clock)
  {
  }

  lemma DecidesFor(t: State, p: nat, t': State, req: Request, kms: Kms, load: nat)
    requires p < |t.procs| && Serving(t.procs[p].pc, req, kms, load) && Act(t, Decide(p)) == Some(t')
    ensures p < |t'.procs| && Made(t'.procs[p].pc) == Some(Call(req, Env(load, t.clock, kms)))
  {
  }
}
