/**
 The device that threads share, on the file that servers share: the threads of `Locks` are those of one
 process of `ConfigFile`, and the file that they reload from is the one its other processes lock,
 truncate and rewrite. Every run of the two together is a run of each, so what is proved of either holds
 of both at once.
 */
module ThreadedDevice {
  import opened Common
  import opened DeviceSpec
  import opened Locks
  import opened Linearise
  import DeviceCopy
  import C = ConfigFile
  import LockProgress
  import AgentDevice
  import Agent = AgentSchedule
  import Store

  datatype Joint = Joint(dev: State, cfg: C.State)

  /** A step of a thread of the device's process, or of another process or the clock. */
  datatype JointMove = Inside(t: Tid, m: Move) | Outside(a: C.Action)

  /* ---------- Steps ---------- */

  /** Some process holds the file's lock exclusively. */
  predicate Taken(cfg: C.State) {
    exists q | 0 <= q < |cfg.procs| :: C.HoldsExclusive(cfg.procs[q].pc)
  }

  /** The file as the threads see it; its content matters to them only while the lock is free. */
  function FileOf(cfg: C.State, content: Store.Slots): FileState {
    FileState(Taken(cfg), cfg.file.stamp, if Taken(cfg) then content else C.Content(cfg.file))
  }

  /** The threads' side of a step outside. */
  function Follow(dev: State, cfg: C.State): State {
    var f := FileOf(cfg, dev.file.content);
    if f == dev.file then dev else Write(dev, f)
  }

  /** What a thread's step is to the file and the device. */
  datatype Doing = Quiet | ReadsStamp | Loads | Stores | Calls(ev: Event)

  function DoingOf(dev: State, t: Tid, dev': State): Doing
    requires t < |dev.threads| && t < |dev'.threads|
  {
    var (pc, pc') := (dev.threads[t], dev'.threads[t]);
    if pc.SeekFile? then Loads
    else if pc.SeekRead? then Stores
    else if pc'.SeekFile? then ReadsStamp
    else if |dev'.log| > |dev.log| && dev'.log[|dev.log|].Call? then Calls(dev'.log[|dev.log|].ev)
    else Quiet
  }

  /** The process's side of a step inside: a lookup that does not reload changes nothing. */
  function ActionsOf(p: nat, d: Doing): seq<C.Action> {
    match d
    case Quiet => []
    case ReadsStamp => [C.ReadStamp(p)]
    case Loads => [C.Lock(p), C.Load(p), C.Unlock(p)]
    case Stores => [C.StoreStamp(p)]
    case Calls(ev) => if ev.op.FindMut? then [] else [C.Use(p, ev.op, ev.now)]
  }

  /** Threads read the clock that everybody reads. */
  function JointAct(p: nat, j: Joint, a: JointMove): Option<Joint> {
    match a
    case Outside(c) =>
      if !c.Tick? && c.p == p then None
      else
        var next := C.Act(j.cfg, c);
        if next.None? then None else Some(Joint(Follow(j.dev, next.value), next.value))
    case Inside(t, m) =>
      var next := ThreadAct(j.dev, t, m);
      if next.None? || (m.Go? && m.now != j.cfg.clock) then None
      else
        var cfg := C.Exec(j.cfg, ActionsOf(p, DoingOf(j.dev, t, next.value)));
        if cfg.None? then None else Some(Joint(next.value, cfg.value))
  }

  function JointExec(p: nat, j: Joint, run: seq<JointMove>): Option<Joint> {
    if run == [] then Some(j)
    else
      var before := JointExec(p, j, run[..|run| - 1]);
      if before.None? then None else JointAct(p, before.value, run[|run| - 1])
  }

  /** The process has just built its device, in any interleaving; its threads have made no calls. */
  ghost predicate Begins(p: nat, j: Joint) {
    && C.Reachable(j.cfg) && p < |j.cfg.procs| && j.cfg.procs[p].pc.Idle? && j.cfg.procs[p].device.Some?
    && Fresh(j.cfg.procs[p].device.value.view)
    && exists n: nat :: j.dev == Start(j.cfg.procs[p].device.value.view, FileOf(j.cfg, []), n)
  }

  ghost predicate JointReachable(p: nat, j: Joint) {
    exists j0: Joint, run: seq<JointMove> :: Begins(p, j0) && JointExec(p, j0, run) == Some(j)
  }

  /* ---------- The link ---------- */

  /** The process is where the owner of the device lock is. */
  predicate PcLinked(owner: Pc, pc: C.Pc) {
    match owner
    case SeekFile(_, _, m, _) => pc == C.ReloadWaiting(m)
    case SeekRead(_, _, m, _, content, _, _) => pc.ReloadLoaded? && pc.mtime == m && pc.content == content && !pc.locked
    case _ => pc.Idle?
  }

  /** A reload under way is of an indexed handle and under a new stamp; a clock that was read is past. */
  predicate OwnerLinked(owner: Pc, v: DeviceView, clock: nat) {
    && (owner.SeekFile? || owner.SeekRead? ==> owner.op.FindMut? && owner.op.h in v.index && owner.mtime != v.stamp)
    && (InLog(owner) ==> owner.now <= clock)
  }

  ghost predicate FileLinked(f: FileState, cfg: C.State) {
    && f.busy == Taken(cfg) && f.stamp == cfg.file.stamp
    && (!f.busy ==> f.content == C.Content(cfg.file))
  }

  /** The device of the process is what the threads' logged calls leave. */
  ghost predicate Linked(p: nat, j: Joint) {
    && p < |j.cfg.procs| && j.cfg.procs[p].device.Some?
    && j.cfg.procs[p].device.value.view == Abstract(j.dev)
    && PcLinked(Owner(j.dev), j.cfg.procs[p].pc)
    && OwnerLinked(Owner(j.dev), Abstract(j.dev), j.cfg.clock)
    && FileLinked(j.dev.file, j.cfg)
  }

  /* ---------- Steps of a thread ---------- */

  /** What the kinds of steps do to the threads' state. */
  ghost predicate Shaped(dev: State, t: Tid, m: Move, dev': State)
    requires t < |dev.threads| && t < |dev'.threads|
  {
    var (pc, pc') := (dev.threads[t], dev'.threads[t]);
    && dev'.start == dev.start && dev'.file == dev.file
    && match DoingOf(dev, t, dev')
       case Quiet =>
         && dev'.log == dev.log && !pc'.SeekFile? && !pc'.SeekRead?
         && (InLog(pc') ==> (InLog(pc) && pc'.now == pc.now) || m == Go(pc'.now))
       case ReadsStamp =>
         && dev'.log == dev.log && pc.Seek? && pc'.op.FindMut? && pc'.mtime == dev.file.stamp
         && pc'.op.h in dev.view.index && dev.file.stamp != dev.view.stamp
       case Loads =>
         && dev'.log == dev.log && m.Go? && !dev.file.busy
         && pc' == SeekRead(pc.op, pc.since, pc.mtime, pc.seen, Store.Sweep(dev.file.content, m.now), |dev.log|, m.now)
       case Stores =>
         && m.Go? && InEnd(pc') && pc.op.FindMut?
         && dev'.log == dev.log + [Call(t, Event(m.now, FindMut(pc.op.h, Stamp(pc.mtime, Some(pc.content)))))]
       case Calls(ev) =>
         && dev'.log == dev.log + [Call(t, ev)] && HasDevice(pc) && InEnd(pc')
         && (m == Go(ev.now) || (InLog(pc) && ev.now == pc.now))
         && (ev.op.FindMut? ==> ev.op.reload == Stamp(dev.view.stamp, None))
  }

  lemma SeekShaped(dev: State, t: Tid, now: nat)
    requires t < |dev.threads| && InSeek(dev.threads[t]) && SeekAct(dev, t, now).Some? && WellPlaced(dev.threads[t])
    ensures Shaped(dev, t, Go(now), SeekAct(dev, t, now).value)
  {
  }

  lemma LogShaped(dev: State, t: Tid, now: nat)
    requires t < |dev.threads| && (Changing(dev.threads[t]) ==> dev.threads[t].op.Login? || dev.threads[t].op.Logout?)
    ensures InLogEnter(dev.threads[t]) && LogEnter(dev, t, now).Some? ==> Shaped(dev, t, Go(now), LogEnter(dev, t, now).value)
    ensures Changing(dev.threads[t]) && LogFinish(dev, t).Some? ==> Shaped(dev, t, Go(now), LogFinish(dev, t).value)
  {
  }

  lemma EndShaped(dev: State, t: Tid, now: nat)
    requires t < |dev.threads|
    ensures InEnd(dev.threads[t]) && EndAct(dev, t).Some? ==> Shaped(dev, t, Go(now), EndAct(dev, t).value)
    ensures DeviceAct(dev, t, now).Some? && WellPlaced(dev.threads[t]) ==> Shaped(dev, t, Go(now), DeviceAct(dev, t, now).value)
  {
  }

  lemma StartShaped(dev: State, t: Tid, m: Move, dev': State)
    requires ThreadAct(dev, t, m) == Some(dev') && (!m.Go? || dev.threads[t].Wait?)
    ensures t < |dev.threads| && t < |dev'.threads| && Shaped(dev, t, m, dev')
  {
  }

  lemma GoShaped(dev: State, t: Tid, now: nat, dev': State)
    requires t < |dev.threads| && GoAct(dev, t, now) == Some(dev') && !dev.threads[t].Wait?
    requires WellPlaced(dev.threads[t]) && (Changing(dev.threads[t]) ==> dev.threads[t].op.Login? || dev.threads[t].op.Logout?)
    ensures t < |dev'.threads| && Shaped(dev, t, Go(now), dev')
  {
    var pc := dev.threads[t];
    if InSeek(pc) {
      SeekShaped(dev, t, now);
    } else if InEnd(pc) || pc.Device? {
      EndShaped(dev, t, now);
    } else {
      LogShaped(dev, t, now);
    }
  }

  lemma ThreadShaped(dev: State, t: Tid, m: Move, dev': State)
    requires Linearise.Inv(dev) && ThreadAct(dev, t, m) == Some(dev')
    ensures t < |dev.threads| && t < |dev'.threads| && Shaped(dev, t, m, dev')
  {
    if !m.Go? || dev.threads[t].Wait? {
      StartShaped(dev, t, m, dev');
    } else {
      if HasDevice(dev.threads[t]) {
        OwnerIs(dev, t);
      }
      GoShaped(dev, t, m.now, dev');
    }
  }

  /** Who owns the device lock after a thread's step. */
  ghost predicate OwnerMoves(dev: State, t: Tid, dev': State)
    requires t < |dev.threads| && t < |dev'.threads|
  {
    var (pc, pc') := (dev.threads[t], dev'.threads[t]);
    && (HasDevice(pc) ==> Owner(dev) == pc && Owner(dev') == if HasDevice(pc') then pc' else Idle)
    && (!HasDevice(pc) && HasDevice(pc') ==> Owner(dev) == Idle && Owner(dev') == pc')
    && (!HasDevice(pc) && !HasDevice(pc') ==> Owner(dev') == Owner(dev))
  }

  lemma OwnerOfStep(dev: State, t: Tid, dev': State)
    requires DeviceInv(dev) && DeviceInv(dev') && DeviceStep(dev, dev', t)
    ensures OwnerMoves(dev, t, dev')
  {
  }

  lemma OwnerAfter(dev: State, t: Tid, m: Move, dev': State)
    requires Linearise.Inv(dev) && ThreadAct(dev, t, m) == Some(dev')
    ensures Linearise.Inv(dev') && t < |dev.threads| && t < |dev'.threads| && OwnerMoves(dev, t, dev')
  {
    ThreadKeepsInv(dev, t, m);
    DeviceMoves(dev, t, m, dev');
    OwnerOfStep(dev, t, dev');
  }

  lemma DeviceMoves(dev: State, t: Tid, m: Move, dev': State)
    requires Linearise.Inv(dev) && ThreadAct(dev, t, m) == Some(dev')
    ensures DeviceStep(dev, dev', t)
  {
    if HasDevice(dev.threads[t]) {
      OwnerIs(dev, t);
      HoldsTwo(dev, dev.threads[t]);
    }
    ThreadLocks(dev, t, m);
  }

  /* ---------- Steps of the process ---------- */

  /** Only the device's process has moved. */
  ghost predicate Moved(cfg: C.State, cfg': C.State, p: nat) {
    && p < |cfg.procs| && |cfg'.procs| == |cfg.procs| && cfg'.procs == cfg.procs[p := cfg'.procs[p]]
    && cfg'.file == cfg.file && cfg'.clock == cfg.clock
    && !C.HoldsExclusive(cfg.procs[p].pc) && !C.HoldsExclusive(cfg'.procs[p].pc)
  }

  lemma MovedKeepsFile(cfg: C.State, cfg': C.State, p: nat, f: FileState)
    requires Moved(cfg, cfg', p) && FileLinked(f, cfg)
    ensures FileLinked(f, cfg')
  {
    if Taken(cfg) {
      var q :| 0 <= q < |cfg.procs| && C.HoldsExclusive(cfg.procs[q].pc);
      assert C.HoldsExclusive(cfg'.procs[q].pc);
    }
    if Taken(cfg') {
      var q :| 0 <= q < |cfg'.procs| && C.HoldsExclusive(cfg'.procs[q].pc);
      assert C.HoldsExclusive(cfg.procs[q].pc);
    }
  }

  lemma FreeIsWhole(cfg: C.State)
    requires C.Inv(cfg) && !Taken(cfg)
    ensures C.Grantable(cfg, false) && cfg.file.disk == C.Whole(C.Content(cfg.file))
  {
    C.DiskIs(cfg, C.Content(cfg.file));
    forall q | 0 <= q < |cfg.procs| ensures !C.HoldsExclusive(cfg.procs[q].pc) && !cfg.procs[q].pc.Saving? {
    }
  }

  lemma ThreeSteps(s0: C.State, a: C.Action, s1: C.State, b: C.Action, s2: C.State, c: C.Action, s3: C.State)
    requires C.Act(s0, a) == Some(s1) && C.Act(s1, b) == Some(s2) && C.Act(s2, c) == Some(s3)
    ensures C.Exec(s0, [a, b, c]) == Some(s3)
  {
    C.ExecOne(s0, a);
    assert [a, b][..1] == [a] && [a, b, c][..2] == [a, b];
    assert C.Exec(s0, [a, b]) == Some(s2);
  }

  /** A process that waits for the file, one that has its lock, and one that has loaded it. */
  lemma ReloadLocks(s: C.State, p: nat, m: nat)
    requires p < |s.procs| && s.procs[p].pc == C.ReloadWaiting(m) && C.Grantable(s, false)
    ensures C.Act(s, C.Lock(p)) == Some(C.SetPc(s, p, C.ReloadHolding(m)))
  {
  }

  lemma ReloadLoads(s: C.State, p: nat, m: nat)
    requires p < |s.procs| && s.procs[p].pc == C.ReloadHolding(m) && s.file.disk.Whole?
    ensures var pc := C.ReloadLoaded(m, Store.Sweep(s.file.disk.slots, s.clock), C.LoadPoint(|s.file.log|, s.clock), true);
            C.Act(s, C.Load(p)) == Some(C.SetPc(s, p, pc).(read := s.clock))
  {
  }

  lemma ReloadUnlocks(s: C.State, p: nat, m: nat, content: Store.Slots, point: C.LoadPoint)
    requires p < |s.procs| && s.procs[p].pc == C.ReloadLoaded(m, content, point, true)
    ensures C.Act(s, C.Unlock(p)) == Some(C.SetPc(s, p, C.ReloadLoaded(m, content, point, false)))
  {
  }

  lemma SetTwice(s: C.State, p: nat, a: C.Pc, b: C.Pc)
    requires p < |s.procs|
    ensures C.SetPc(C.SetPc(s, p, a), p, b) == C.SetPc(s, p, b)
  {
    assert s.procs[p := s.procs[p].(pc := a)][p := s.procs[p].(pc := b)] == s.procs[p := s.procs[p].(pc := b)];
  }

  /** The three steps of a load with nobody in the way. */
  lemma LoadsNow(cfg: C.State, p: nat, m: nat)
    requires C.Inv(cfg) && p < |cfg.procs| && cfg.procs[p].pc == C.ReloadWaiting(m) && !Taken(cfg)
    ensures var content := Store.Sweep(C.Content(cfg.file), cfg.clock);
            var pc := C.ReloadLoaded(m, content, C.LoadPoint(|cfg.file.log|, cfg.clock), false);
            C.Exec(cfg, ActionsOf(p, Loads)) == Some(C.SetPc(cfg.(read := cfg.clock), p, pc))
  {
    FreeIsWhole(cfg);
    var content, point := Store.Sweep(C.Content(cfg.file), cfg.clock), C.LoadPoint(|cfg.file.log|, cfg.clock);
    var held, done := C.ReloadLoaded(m, content, point, true), C.ReloadLoaded(m, content, point, false);
    var cfg' := cfg.(read := cfg.clock);
    var s1, s2 := C.SetPc(cfg, p, C.ReloadHolding(m)), C.SetPc(cfg', p, held);
    ReloadLocks(cfg, p, m);
    ReloadLoads(s1, p, m);
    SetTwice(cfg', p, C.ReloadHolding(m), held);
    ReloadUnlocks(s2, p, m, content, point);
    SetTwice(cfg', p, held, done);
    ThreeSteps(cfg, C.Lock(p), s1, C.Load(p), s2, C.Unlock(p), C.SetPc(cfg', p, done));
  }

  /** The other kinds of steps. */
  lemma StampRead(cfg: C.State, p: nat)
    requires p < |cfg.procs| && cfg.procs[p].pc.Idle? && cfg.procs[p].device.Some?
    requires cfg.procs[p].device.value.view.stamp != cfg.file.stamp
    ensures C.Exec(cfg, ActionsOf(p, ReadsStamp)) == Some(C.SetPc(cfg, p, C.ReloadWaiting(cfg.file.stamp)))
  {
    C.ExecOne(cfg, C.ReadStamp(p));
  }

  lemma StampStored(cfg: C.State, p: nat)
    requires p < |cfg.procs| && cfg.procs[p].pc.ReloadLoaded? && !cfg.procs[p].pc.locked && cfg.procs[p].device.Some?
    ensures C.Exec(cfg, ActionsOf(p, Stores)) == C.Act(cfg, C.StoreStamp(p))
    ensures var (pc, d) := (cfg.procs[p].pc, cfg.procs[p].device.value);
            var view := Reloaded(d.view, pc.content, cfg.clock).(stamp := pc.mtime);
            C.Act(cfg, C.StoreStamp(p)) == Some(C.SetProc(cfg, p, C.Idle, C.Device(view, d.loads + [pc.point], true)))
  {
    C.ExecOne(cfg, C.StoreStamp(p));
    C.StoreIs(cfg, p);
  }

  lemma CallMade(cfg: C.State, p: nat, ev: Event)
    requires p < |cfg.procs| && cfg.procs[p].pc.Idle? && cfg.procs[p].device.Some? && !ev.op.FindMut? && ev.now <= cfg.clock
    ensures var d := cfg.procs[p].device.value;
            C.Exec(cfg, ActionsOf(p, Calls(ev))) == Some(C.SetProc(cfg, p, C.Idle, d.(view := Step(d.view, ev).0)))
  {
    var a := C.Use(p, ev.op, ev.now);
    C.ExecOne(cfg, a);
    assert ActionsOf(p, Calls(ev)) == [a];
    UseIs(cfg, p, ev.op, ev.now);
  }

  lemma UseIs(cfg: C.State, p: nat, op: Op, now: nat)
    requires p < |cfg.procs| && cfg.procs[p].pc.Idle? && cfg.procs[p].device.Some? && !op.FindMut? && now <= cfg.clock
    ensures var d := cfg.procs[p].device.value;
            C.Act(cfg, C.Use(p, op, now)) == Some(C.SetProc(cfg, p, C.Idle, d.(view := Step(d.view, Event(now, op)).0)))
  {
  }

  /* ---------- A thread's step keeps the link ---------- */

  /** What a step inside starts from. */
  ghost predicate Ready(p: nat, j: Joint, t: Tid, m: Move, dev': State) {
    && Linked(p, j) && Linearise.Inv(j.dev) && C.Inv(j.cfg)
    && ThreadAct(j.dev, t, m) == Some(dev') && (m.Go? ==> m.now == j.cfg.clock)
  }

  /** The same by its parts. */
  ghost predicate Parts(p: nat, j: Joint, t: Tid, m: Move, dev': State) {
    && Linked(p, j) && C.Inv(j.cfg) && (m.Go? ==> m.now == j.cfg.clock)
    && t < |j.dev.threads| && t < |dev'.threads|
    && Shaped(j.dev, t, m, dev') && OwnerMoves(j.dev, t, dev')
    && (HasDevice(j.dev.threads[t]) ==> StateOk(j.dev, j.dev.threads[t]))
  }

  lemma ReadyParts(p: nat, j: Joint, t: Tid, m: Move, dev': State)
    requires Ready(p, j, t, m, dev')
    ensures Parts(p, j, t, m, dev') && Linearise.Inv(dev')
  {
    ThreadShaped(j.dev, t, m, dev');
    OwnerAfter(j.dev, t, m, dev');
    if HasDevice(j.dev.threads[t]) {
      OwnerIs(j.dev, t);
    }
  }

  lemma QuietLinked(p: nat, j: Joint, t: Tid, m: Move, dev': State)
    requires Parts(p, j, t, m, dev') && DoingOf(j.dev, t, dev') == Quiet
    ensures Linked(p, Joint(dev', j.cfg))
  {
  }

  lemma ReadsLinked(p: nat, j: Joint, t: Tid, m: Move, dev': State)
    requires Parts(p, j, t, m, dev') && DoingOf(j.dev, t, dev') == ReadsStamp
    ensures C.Exec(j.cfg, ActionsOf(p, ReadsStamp)).Some?
    ensures Linked(p, Joint(dev', C.Exec(j.cfg, ActionsOf(p, ReadsStamp)).value))
  {
    StampRead(j.cfg, p);
    MovedKeepsFile(j.cfg, C.Exec(j.cfg, ActionsOf(p, ReadsStamp)).value, p, j.dev.file);
  }

  lemma LoadsLinked(p: nat, j: Joint, t: Tid, m: Move, dev': State)
    requires Parts(p, j, t, m, dev') && DoingOf(j.dev, t, dev') == Loads
    ensures C.Exec(j.cfg, ActionsOf(p, Loads)).Some?
    ensures Linked(p, Joint(dev', C.Exec(j.cfg, ActionsOf(p, Loads)).value))
  {
    LoadsNow(j.cfg, p, j.dev.threads[t].mtime);
    MovedKeepsFile(j.cfg, C.Exec(j.cfg, ActionsOf(p, Loads)).value, p, j.dev.file);
  }

  lemma StoresLinked(p: nat, j: Joint, t: Tid, m: Move, dev': State)
    requires Parts(p, j, t, m, dev') && DoingOf(j.dev, t, dev') == Stores
    ensures C.Exec(j.cfg, ActionsOf(p, Stores)).Some?
    ensures Linked(p, Joint(dev', C.Exec(j.cfg, ActionsOf(p, Stores)).value))
  {
    var pc := j.dev.threads[t];
    StampStored(j.cfg, p);
    Logged(j.dev, dev', t, Event(m.now, FindMut(pc.op.h, Stamp(pc.mtime, Some(pc.content)))));
    MovedKeepsFile(j.cfg, C.Exec(j.cfg, ActionsOf(p, Stores)).value, p, j.dev.file);
  }

  lemma CallsLinked(p: nat, j: Joint, t: Tid, m: Move, dev': State, ev: Event)
    requires Parts(p, j, t, m, dev') && DoingOf(j.dev, t, dev') == Calls(ev)
    ensures C.Exec(j.cfg, ActionsOf(p, Calls(ev))).Some?
    ensures Linked(p, Joint(dev', C.Exec(j.cfg, ActionsOf(p, Calls(ev))).value))
  {
    Logged(j.dev, dev', t, ev);
    if !ev.op.FindMut? {
      CallMade(j.cfg, p, ev);
      MovedKeepsFile(j.cfg, C.Exec(j.cfg, ActionsOf(p, Calls(ev))).value, p, j.dev.file);
    }
  }

  /** Threads are never held up by the process they belong to, and their steps keep the link. */
  lemma InsideLinked(p: nat, j: Joint, t: Tid, m: Move, dev': State)
    requires Ready(p, j, t, m, dev')
    ensures t < |j.dev.threads| && t < |dev'.threads|
    ensures var cfg := C.Exec(j.cfg, ActionsOf(p, DoingOf(j.dev, t, dev')));
            cfg.Some? && Linked(p, Joint(dev', cfg.value))
  {
    ReadyParts(p, j, t, m, dev');
    match DoingOf(j.dev, t, dev')
    case Quiet => QuietLinked(p, j, t, m, dev');
    case ReadsStamp => ReadsLinked(p, j, t, m, dev');
    case Loads => LoadsLinked(p, j, t, m, dev');
    case Stores => StoresLinked(p, j, t, m, dev');
    case Calls(ev) => CallsLinked(p, j, t, m, dev', ev);
  }

  /* ---------- A step outside keeps the link ---------- */

  /** The file changes only while its lock is taken. */
  lemma FileSteps(cfg: C.State, a: C.Action, cfg': C.State)
    requires C.Act(cfg, a) == Some(cfg')
    ensures cfg'.file == cfg.file || (Taken(cfg) && Taken(cfg'))
    ensures cfg'.clock >= cfg.clock
  {
    if a.Truncate? || a.Chunk? || a.Complete? {
      assert C.HoldsExclusive(cfg.procs[a.p].pc) && C.HoldsExclusive(cfg'.procs[a.p].pc);
    }
  }

  lemma FollowLinked(dev: State, cfg: C.State, cfg': C.State)
    requires FileLinked(dev.file, cfg)
    ensures FileLinked(Follow(dev, cfg').file, cfg')
    ensures Abstract(Follow(dev, cfg')) == Abstract(dev) && Owner(Follow(dev, cfg')) == Owner(dev)
  {
    RunLogNext(dev.start, dev.log, Wrote(FileOf(cfg', dev.file.content)));
  }

  /** To the threads it is a step of the server, or none. */
  lemma FollowReached(dev: State, cfg: C.State, a: C.Action, cfg': C.State)
    requires Locks.Reachable(dev) && FileLinked(dev.file, cfg) && C.Act(cfg, a) == Some(cfg')
    ensures Locks.Reachable(Follow(dev, cfg'))
  {
    FileSteps(cfg, a, cfg');
    var f := FileOf(cfg', dev.file.content);
    if f != dev.file {
      var step := if !dev.file.busy then FileTake else if f.busy then FileTouch(f.stamp) else FileGive(f.stamp, f.content);
      assert Locks.Act(dev, step) == Some(Write(dev, f));
      OneMore(dev, step);
    }
  }

  lemma OneMore(dev: State, a: Locks.Action)
    requires Locks.Reachable(dev) && Locks.Act(dev, a).Some?
    ensures Locks.Reachable(Locks.Act(dev, a).value)
  {
    assert [a][..0] == [];
    assert Locks.Exec(dev, [a]) == Locks.Act(dev, a);
    LockProgress.ReachedFrom(dev, [a]);
  }

  lemma OutsideLinked(p: nat, j: Joint, a: C.Action, cfg': C.State)
    requires Linked(p, j) && C.Act(j.cfg, a) == Some(cfg') && (a.Tick? || a.p != p)
    ensures Linked(p, Joint(Follow(j.dev, cfg'), cfg'))
  {
    C.OthersLeave(j.cfg, a, p);
    FileSteps(j.cfg, a, cfg');
    FollowLinked(j.dev, j.cfg, cfg');
  }

  /* ---------- Main results ---------- */

  /** What holds of every state reached together. */
  ghost predicate Both(p: nat, j: Joint) {
    Locks.Reachable(j.dev) && C.Reachable(j.cfg) && Linked(p, j)
  }

  lemma BeginsBoth(p: nat, j: Joint)
    requires Begins(p, j)
    ensures Both(p, j)
  {
    var v := j.cfg.procs[p].device.value.view;
    var n: nat :| j.dev == Start(v, FileOf(j.cfg, []), n);
    assert Locks.Exec(Start(v, FileOf(j.cfg, []), n), []) == Some(j.dev);
    assert Abstract(j.dev) == v;
  }

  lemma InsideBoth(p: nat, j: Joint, t: Tid, m: Move)
    requires Both(p, j) && ThreadAct(j.dev, t, m).Some? && (m.Go? ==> m.now == j.cfg.clock)
    ensures JointAct(p, j, Inside(t, m)).Some? && Both(p, JointAct(p, j, Inside(t, m)).value)
  {
    var dev' := ThreadAct(j.dev, t, m).value;
    Linearise.ReachableInv(j.dev);
    C.ReachableInv(j.cfg);
    InsideLinked(p, j, t, m, dev');
    OneMore(j.dev, Thread(t, m));
    C.ReachedFrom(j.cfg, ActionsOf(p, DoingOf(j.dev, t, dev')));
  }

  lemma OutsideBoth(p: nat, j: Joint, a: C.Action)
    requires Both(p, j) && JointAct(p, j, Outside(a)).Some?
    ensures Both(p, JointAct(p, j, Outside(a)).value)
  {
    var cfg' := C.Act(j.cfg, a).value;
    OutsideLinked(p, j, a, cfg');
    FollowReached(j.dev, j.cfg, a, cfg');
    C.ExecOne(j.cfg, a);
    C.ReachedFrom(j.cfg, [a]);
  }

  lemma {:induction false} ExecBoth(p: nat, j: Joint, run: seq<JointMove>)
    requires Both(p, j) && JointExec(p, j, run).Some?
    ensures Both(p, JointExec(p, j, run).value)
  {
    if run != [] {
      ExecBoth(p, j, run[..|run| - 1]);
      var before := JointExec(p, j, run[..|run| - 1]).value;
      match run[|run| - 1]
      case Inside(t, m) => InsideBoth(p, before, t, m);
      case Outside(a) => OutsideBoth(p, before, a);
    }
  }

  /** Every run together is a run of the threads and a run of the processes, and the device of the process
      is what the threads' calls leave, made one at a time in the order of the log. */
  lemma RunsTogether(p: nat, j: Joint)
    requires JointReachable(p, j)
    ensures Locks.Reachable(j.dev) && C.Reachable(j.cfg) && Linked(p, j)
  {
    var j0: Joint, run: seq<JointMove> :| Begins(p, j0) && JointExec(p, j0, run) == Some(j);
    BeginsBoth(p, j0);
    ExecBoth(p, j0, run);
  }

  /** Putting the two together takes no step from the threads: what a thread can do it can do there. */
  lemma NeverHeldUp(p: nat, j: Joint, t: Tid, m: Move)
    requires JointReachable(p, j) && ThreadAct(j.dev, t, m).Some? && (m.Go? ==> m.now == j.cfg.clock)
    ensures JointAct(p, j, Inside(t, m)).Some?
  {
    RunsTogether(p, j);
    InsideBoth(p, j, t, m);
  }

  /** A start of the process, in any interleaving, is a beginning. */
  lemma BootBegins(p: nat, cfg: C.State, n: nat)
    requires C.Reachable(cfg) && p < |cfg.procs| && cfg.procs[p].pc.BootLoaded? && !cfg.procs[p].pc.locked
    ensures C.Act(cfg, C.ReadStamp(p)).Some?
    ensures var cfg' := C.Act(cfg, C.ReadStamp(p)).value;
            && p < |cfg'.procs| && cfg'.procs[p].device.Some?
            && Begins(p, Joint(Start(cfg'.procs[p].device.value.view, FileOf(cfg', []), n), cfg'))
  {
    C.ExecOne(cfg, C.ReadStamp(p));
    C.ReachedFrom(cfg, [C.ReadStamp(p)]);
  }

  /** Up to session states, the device in memory is the one of the log, also while a login is under way. */
  lemma TokensAlike(dev: State, i: nat)
    requires Linearise.Inv(dev)
    ensures dev.view.stamp == Abstract(dev).stamp && |dev.view.slots| == |Abstract(dev).slots|
    ensures i < |dev.view.slots| ==>
              var (t, a) := (dev.view.slots[i], Abstract(dev).slots[i]);
              (t.Some? <==> a.Some?) && (t.Some? ==> t.value.built == a.value.built && t.value.expiry == a.value.expiry)
  {
  }

  /** The shared device has reloaded, or agreed when it was built, and its stamp is the file's. */
  predicate SharedInStep(p: nat, j: Joint) {
    && p < |j.cfg.procs| && j.cfg.procs[p].device.Some? && j.cfg.procs[p].device.value.sound
    && j.dev.view.stamp == j.cfg.file.stamp
  }

  /** Reload coherence of the device that threads share, at every moment: when it is in step, the
      file is whole and its content, less what had expired then, is what was last loaded; and a token of
      the device is backed by a stored one in its slot with the same expiry. */
  lemma SharedCoherent(p: nat, j: Joint, i: nat)
    requires SharedInStep(p, j) && JointReachable(p, j)
    ensures var d := j.cfg.procs[p].device.value;
            && d.loads != [] && j.cfg.file.disk == C.Whole(C.Content(j.cfg.file))
            && C.LoadedAt(j.cfg.file, DeviceCopy.Last(d)) == DeviceCopy.Seen(j.cfg, d)
    ensures i < |j.dev.view.slots| && j.dev.view.slots[i].Some? ==>
              && i < |C.Content(j.cfg.file)| && C.Content(j.cfg.file)[i].Some?
              && C.Content(j.cfg.file)[i].value.expiry == j.dev.view.slots[i].value.expiry
  {
    RunsTogether(p, j);
    Linearise.ReachableInv(j.dev);
    TokensAlike(j.dev, i);
    C.ReloadCoherent(j.cfg, p);
    if i < |j.dev.view.slots| && j.dev.view.slots[i].Some? {
      DeviceCopy.TokenIsStored(j.cfg, p, i);
    }
  }

  /** And a slot of it holds the stored token exactly when every load since it was built found a token
      there and the first had the label, PIN and keys of the last. */
  lemma SharedHoldsIff(p: nat, j: Joint, i: nat)
    requires SharedInStep(p, j) && i < |j.dev.view.slots| && JointReachable(p, j)
    ensures j.cfg.procs[p].device.value.loads != []
    ensures var d := j.cfg.procs[p].device.value;
            && i < |DeviceCopy.Seen(j.cfg, d)|
            && (DeviceCopy.Holds(j.dev.view.slots[i], DeviceCopy.Seen(j.cfg, d)[i]) <==> DeviceCopy.FirstIsLast(j.cfg, d, i))
  {
    RunsTogether(p, j);
    Linearise.ReachableInv(j.dev);
    TokensAlike(j.dev, i);
    DeviceCopy.HoldsIff(j.cfg, p, i);
  }

  /** What a lookup answers that takes over loaded content. */
  lemma LookupFinds(v: DeviceView, h: nat, i: nat, m: nat, content: Store.Slots, now: nat)
    requires AgentDevice.SessionIn(v, h, i) && m != v.stamp
    requires i < |content| && content[i].Some? && now <= content[i].value.expiry
    ensures Step(v, Event(now, FindMut(h, Stamp(m, Some(content))))).1 == Found(true)
  {
    AgentDevice.AppliedIff(v, h, i, content, m, now);
  }

  lemma ContentAlive(cfg: C.State, p: nat, a: Agent.Agent, created: nat, run: seq<Agent.Event>, d: nat, i: nat)
    requires p < |cfg.procs| && cfg.procs[p].pc.ReloadLoaded?
    requires AgentDevice.OnSchedule(cfg, cfg.procs[p].pc.point.at, a, created, run, d)
    requires Store.FirstLabel(AgentDevice.Stored(cfg, cfg.procs[p].pc.point.at), a.name, i)
    ensures var content := cfg.procs[p].pc.content;
            i < |content| && content[i].Some? && cfg.clock <= content[i].value.expiry
  {
    AgentDevice.AliveThroughout(cfg, p, a, created, run, d, i);
    AgentDevice.LoadedFacts(cfg, p);
  }

  /** Agent, file and threads together: when the agent is on schedule as of the load, a thread that reloads
      finds the session of its token's slot. */
  lemma SharedFinds(p: nat, j: Joint, t: Tid, a: Agent.Agent, created: nat, run: seq<Agent.Event>, d: nat, i: nat)
    requires t < |j.dev.threads| && j.dev.threads[t].SeekRead? && j.dev.threads[t].op.FindMut?
    requires AgentDevice.SessionIn(j.dev.view, j.dev.threads[t].op.h, i)
    requires p < |j.cfg.procs| && j.cfg.procs[p].pc.ReloadLoaded?
    requires AgentDevice.OnSchedule(j.cfg, j.cfg.procs[p].pc.point.at, a, created, run, d)
    requires Store.FirstLabel(AgentDevice.Stored(j.cfg, j.cfg.procs[p].pc.point.at), a.name, i)
    requires JointReachable(p, j)
    ensures ThreadAct(j.dev, t, Go(j.cfg.clock)).Some?
    ensures ThreadAct(j.dev, t, Go(j.cfg.clock)).value.threads[t].SeekLock?
    ensures ThreadAct(j.dev, t, Go(j.cfg.clock)).value.threads[t].point.reply == Found(true)
  {
    var pc := j.dev.threads[t];
    ContentAlive(j.cfg, p, a, created, run, d, i);
    OwnerReads(p, j, t);
    LookupFinds(j.dev.view, pc.op.h, i, pc.mtime, pc.content, j.cfg.clock);
  }

  lemma OwnerReads(p: nat, j: Joint, t: Tid)
    requires t < |j.dev.threads| && j.dev.threads[t].SeekRead? && JointReachable(p, j)
    ensures p < |j.cfg.procs| && j.cfg.procs[p].pc.ReloadLoaded?
    ensures j.cfg.procs[p].pc.content == j.dev.threads[t].content && j.dev.threads[t].mtime != j.dev.view.stamp
  {
    RunsTogether(p, j);
    Linearise.ReachableInv(j.dev);
    OwnerIs(j.dev, t);
  }
}
