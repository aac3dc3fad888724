/**
 The configuration file as it is shared: any number of processes serve requests under the file
 lock, and any number of devices are built from it and reload when the file's modification stamp
 moves. One action is one step of one process, or of the clock.

 Locks are granted when `flock` would grant them, and writes complete, though a save writes in any
 number of chunks. Every change to the file gives it a stamp it never had before.
 */
module ConfigFile {
  import opened Common
  import opened Store
  import DeviceSpec

  datatype Disk = Partial | Whole(slots: Slots)

  /** When a device loaded the file: after so many saved requests, and at which time. */
  datatype LoadPoint = LoadPoint(at: nat, time: nat)

  /** A device with the loads it was built and then reloaded from. `sound` marks a device that agreed
      with the file when it was built, or has reloaded since. */
  datatype Device = Device(view: DeviceSpec.DeviceView, loads: seq<LoadPoint>, sound: bool)

  datatype Pc =
    | Idle
    // a request being served: `since` is the length of the log when it arrived, `load` the clock when
    // the file was loaded for it
    | Waiting(req: Request, kms: Kms, since: nat)
    | Holding(req: Request, kms: Kms, since: nat)
    | Loaded(req: Request, kms: Kms, load: nat, since: nat, before: Slots)
    // a request that only reads has given the lock back
    | Reading(req: Request, kms: Kms, load: nat, since: nat, at: nat, before: Slots)
    // a request that changes slots has read the clock for the second time
    | Decided(call: Call, since: nat, before: Slots)
    | Saving(call: Call, since: nat, before: Slots)
    | Saved(call: Call, since: nat)
    | Finished(call: Call, since: nat, at: nat, response: Response)
    // a device reloading: `mtime` is the stamp it read first
    | ReloadWaiting(mtime: nat)
    | ReloadHolding(mtime: nat)
    | ReloadLoaded(mtime: nat, content: Slots, point: LoadPoint, locked: bool)
    // a device starting: the content comes first, the stamp after it
    | BootWaiting
    | BootHolding
    | BootLoaded(content: Slots, point: LoadPoint, stampThen: nat, locked: bool)
    // a load that met a half-written file
    | ParseFailed

  datatype Proc = Proc(pc: Pc, device: Option<Device>)

  /** The file, the stamps it has had, and the requests whose saves completed, in order. */
  datatype File = File(disk: Disk, stamp: nat, used: set<nat>, log: seq<Call>, initial: Slots)

  /** `read` is the time of the latest load by a device. */
  datatype State = State(file: File, clock: nat, read: nat, procs: seq<Proc>)

  datatype Action =
    | Tick(to: nat)
    | Arrive(p: nat, req: Request, kms: Kms)
    | Lock(p: nat)
    | Load(p: nat)
    | Decide(p: nat)
    | Truncate(p: nat, newStamp: nat)
    | Chunk(p: nat, newStamp: nat)
    | Complete(p: nat, newStamp: nat)
    | Unlock(p: nat)
    | Reset(p: nat)
    | ReadStamp(p: nat)
    | StoreStamp(p: nat)
    | Boot(p: nat)
    | Use(p: nat, op: DeviceSpec.Op, now: nat)

  predicate Mutating(req: Request) {
    !req.DescribeDevice? && !req.DescribeToken?
  }

  predicate HoldsExclusive(pc: Pc) {
    match pc
    case Holding(req, _, _) => Mutating(req)
    case Loaded(req, _, _, _, _) => Mutating(req)
    case Decided(_, _, _) => true
    case Saving(_, _, _) => true
    case Saved(_, _) => true
    case _ => false
  }

  predicate HoldsShared(pc: Pc) {
    match pc
    case Holding(req, _, _) => !Mutating(req)
    case Loaded(req, _, _, _, _) => !Mutating(req)
    case ReloadHolding(_) => true
    case ReloadLoaded(_, _, _, locked) => locked
    case BootHolding => true
    case BootLoaded(_, _, _, locked) => locked
    case _ => false
  }

  /** What `flock` grants: exclusive when nobody holds the lock, shared when nobody holds it exclusively. */
  predicate Grantable(s: State, exclusive: bool) {
    forall q | 0 <= q < |s.procs| ::
      !HoldsExclusive(s.procs[q].pc) && (exclusive ==> !HoldsShared(s.procs[q].pc))
  }

  function Content(f: File): Slots {
    Run(f.initial, f.log)
  }

  function Answered(call: Call, before: Slots): Response {
    Step(before, call.req, call.env).1
  }

  function Effect(call: Call, before: Slots): Slots {
    Step(before, call.req, call.env).0
  }

  /** The file's content at a load, and what was loaded: the tokens not yet expired. */
  function RawAt(f: File, point: LoadPoint): Slots {
    if point.at <= |f.log| then Run(f.initial, f.log[..point.at]) else Content(f)
  }

  function LoadedAt(f: File, point: LoadPoint): Slots {
    Sweep(RawAt(f, point), point.time)
  }

  function SetPc(s: State, p: nat, pc: Pc): State
    requires p < |s.procs|
  {
    s.(procs := s.procs[p := s.procs[p].(pc := pc)])
  }

  function SetProc(s: State, p: nat, pc: Pc, device: Device): State
    requires p < |s.procs|
  {
    s.(procs := s.procs[p := Proc(pc, Some(device))])
  }

  function Change(f: File, disk: Disk, stamp: nat): File {
    f.(disk := disk, stamp := stamp, used := f.used + {stamp})
  }

  /** A request arrives, decides or is done with. */
  function ClientAct(s: State, a: Action): Option<State>
    requires (a.Arrive? || a.Decide? || a.Reset?) && a.p < |s.procs|
  {
    var pc := s.procs[a.p].pc;
    match a
    case Arrive(p, req, kms) =>
      if !pc.Idle? then None
      else if CheckArgs(req).Some? then
        var call := Call(req, Env(s.clock, s.clock, kms));
        Some(SetPc(s, p, Finished(call, |s.file.log|, |s.file.log|, Err(InvalidArgs(CheckArgs(req).value)))))
      else Some(SetPc(s, p, Waiting(req, kms, |s.file.log|)))
    case Decide(p) =>
      if pc.Loaded? && Mutating(pc.req) then
        Some(SetPc(s, p, Decided(Call(pc.req, Env(pc.load, s.clock, pc.kms)), pc.since, pc.before)))
      else if pc.Reading? then
        var call := Call(pc.req, Env(pc.load, s.clock, pc.kms));
        Some(SetPc(s, p, Finished(call, pc.since, pc.at, Answered(call, pc.before))))
      else None
    case Reset(p) =>
      if pc.Finished? then Some(SetPc(s, p, Idle)) else None
  }

  /** A save: it happens only when the request succeeds and changes slots. */
  function SaveAct(s: State, a: Action): Option<State>
    requires (a.Truncate? || a.Chunk? || a.Complete?) && a.p < |s.procs|
  {
    var pc := s.procs[a.p].pc;
    if a.newStamp in s.file.used then None
    else
      match a
      case Truncate(p, n) =>
        if pc.Decided? && Answered(pc.call, pc.before).Ok?
        then Some(SetPc(s, p, Saving(pc.call, pc.since, pc.before)).(file := Change(s.file, Partial, n)))
        else None
      case Chunk(p, n) =>
        if pc.Saving? then Some(SetPc(s, p, pc).(file := Change(s.file, Partial, n))) else None
      case Complete(p, n) =>
        if pc.Saving?
        then Some(SetPc(s, p, Saved(pc.call, pc.since)).(
                    file := Change(s.file, Whole(Effect(pc.call, pc.before)), n).(log := s.file.log + [pc.call])))
        else None
  }

  /** A device is started, reloads or is used. */
  function DeviceAct(s: State, a: Action): Option<State>
    requires (a.ReadStamp? || a.StoreStamp? || a.Boot? || a.Use?) && a.p < |s.procs|
  {
    var pc, device := s.procs[a.p].pc, s.procs[a.p].device;
    match a
    case ReadStamp(p) =>
      // equal stamps end a reload at once
      if pc.Idle? && device.Some? && s.file.stamp != device.value.view.stamp
      then Some(SetPc(s, p, ReloadWaiting(s.file.stamp)))
      else if pc.BootLoaded? && !pc.locked
      then
        var view := DeviceSpec.DeviceView(DeviceSpec.Built(pc.content), map[], 1, s.file.stamp);
        Some(SetProc(s, p, Idle, Device(view, [pc.point], s.file.disk == Whole(RawAt(s.file, pc.point)))))
      else None
    case StoreStamp(p) =>
      if pc.ReloadLoaded? && !pc.locked && device.Some?
      then
        var view := DeviceSpec.Reloaded(device.value.view, pc.content, s.clock).(stamp := pc.mtime);
        Some(SetProc(s, p, Idle, Device(view, device.value.loads + [pc.point], true)))
      else None
    case Boot(p) =>
      if pc.Idle? && device.None? then Some(SetPc(s, p, BootWaiting)) else None
    case Use(p, op, now) =>
      // a lookup that reloads is made of the steps above; other calls take effect some time after they
      // have read the clock
      if pc.Idle? && device.Some? && !op.FindMut? && now <= s.clock
      then Some(SetProc(s, p, Idle, device.value.(view := DeviceSpec.Step(device.value.view, DeviceSpec.Event(now, op)).0)))
      else None
  }

  function LockAct(s: State, p: nat): Option<State>
    requires p < |s.procs|
  {
    match s.procs[p].pc
    case Waiting(req, kms, since) =>
      if Grantable(s, Mutating(req)) then Some(SetPc(s, p, Holding(req, kms, since))) else None
    case ReloadWaiting(m) =>
      if Grantable(s, false) then Some(SetPc(s, p, ReloadHolding(m))) else None
    case BootWaiting =>
      if Grantable(s, false) then Some(SetPc(s, p, BootHolding)) else None
    case _ => None
  }

  function LoadAct(s: State, p: nat): Option<State>
    requires p < |s.procs|
  {
    var pc := s.procs[p].pc;
    if !(pc.Holding? || pc.ReloadHolding? || pc.BootHolding?) then None
    else if s.file.disk.Partial? then Some(SetPc(s, p, ParseFailed))
    else
      var slots := s.file.disk.slots;
      var point := LoadPoint(|s.file.log|, s.clock);
      match pc
      case Holding(req, kms, since) => Some(SetPc(s, p, Loaded(req, kms, s.clock, since, slots)))
      case ReloadHolding(m) =>
        Some(SetPc(s, p, ReloadLoaded(m, Sweep(slots, s.clock), point, true)).(read := s.clock))
      case BootHolding =>
        Some(SetPc(s, p, BootLoaded(Sweep(slots, s.clock), point, s.file.stamp, true)).(read := s.clock))
  }

  function UnlockAct(s: State, p: nat): Option<State>
    requires p < |s.procs|
  {
    match s.procs[p].pc
    case Loaded(req, kms, load, since, before) =>
      if Mutating(req) then None
      else Some(SetPc(s, p, Reading(req, kms, load, since, |s.file.log|, before)))
    case Decided(call, since, before) =>
      // a writer gives up without saving when the request fails
      if Answered(call, before).Err?
      then Some(SetPc(s, p, Finished(call, since, |s.file.log|, Answered(call, before))))
      else None
    case Saved(call, since) =>
      if s.file.log == [] then None
      else Some(SetPc(s, p, Finished(call, since, |s.file.log| - 1, Ok(Nothing))))
    case ReloadLoaded(m, content, point, true) => Some(SetPc(s, p, ReloadLoaded(m, content, point, false)))
    case BootLoaded(content, point, stamp, true) => Some(SetPc(s, p, BootLoaded(content, point, stamp, false)))
    case _ => None
  }

  /** The state after an action; None when the action is not enabled. */
  function Act(s: State, a: Action): Option<State> {
    if a.Tick? then if a.to >= s.clock then Some(s.(clock := a.to)) else None
    else if a.p >= |s.procs| then None
    else if a.Lock? then LockAct(s, a.p)
    else if a.Load? then LoadAct(s, a.p)
    else if a.Unlock? then UnlockAct(s, a.p)
    else if a.Arrive? || a.Decide? || a.Reset? then ClientAct(s, a)
    else if a.Truncate? || a.Chunk? || a.Complete? then SaveAct(s, a)
    else DeviceAct(s, a)
  }

  function Exec(s: State, actions: seq<Action>): Option<State> {
    if actions == [] then Some(s)
    else
      match Exec(s, actions[..|actions| - 1])
      case None => None
      case Some(t) => Act(t, actions[|actions| - 1])
  }

  /** `n` idle processes around a complete file. */
  function Start(slots: Slots, n: nat, stamp: nat, clock: nat): State {
    State(File(Whole(slots), stamp, {stamp}, [], slots), clock, 0, seq(n, _ => Proc(Idle, None)))
  }

  /* ---------- The invariant ---------- */

  /** A response that the serial execution of the log gives at position `at`, reached while the
      request was being served. */
  ghost predicate Serial(f: File, call: Call, since: nat, at: nat, r: Response) {
    && since <= at <= |f.log|
    && r == Answered(call, Run(f.initial, f.log[..at]))
    && (Mutating(call.req) && r.Ok? ==> at < |f.log| && f.log[at] == call)
  }

  /** The content last loaded is the file's whenever the stamps agree. */
  ghost predicate Coherent(f: File, d: Device)
    requires d.loads != []
  {
    d.view.stamp == f.stamp ==> f.disk == Whole(RawAt(f, d.loads[|d.loads| - 1]))
  }

  /** Content loaded under a stamp. */
  ghost predicate LoadOk(f: File, content: Slots, point: LoadPoint, stamp: nat) {
    && stamp in f.used && point.at <= |f.log| && content == LoadedAt(f, point)
    && (stamp == f.stamp ==> f.disk == Whole(RawAt(f, point)))
  }

  ghost predicate PcOk(f: File, proc: Proc) {
    match proc.pc
    case Waiting(req, _, since) => since <= |f.log| && CheckArgs(req).None?
    case Holding(req, _, since) => since <= |f.log| && CheckArgs(req).None?
    case Loaded(req, _, _, since, before) =>
      since <= |f.log| && CheckArgs(req).None? && f.disk == Whole(before) && before == Content(f)
    case Reading(req, _, _, since, at, before) =>
      since <= at <= |f.log| && CheckArgs(req).None? && !Mutating(req) && before == Run(f.initial, f.log[..at])
    case Decided(call, since, before) =>
      && since <= |f.log| && CheckArgs(call.req).None? && Mutating(call.req)
      && f.disk == Whole(before) && before == Content(f)
    case Saving(call, since, before) =>
      && since <= |f.log| && f.disk.Partial? && before == Content(f)
      && Mutating(call.req) && Answered(call, before).Ok?
    case Saved(call, since) =>
      && |f.log| > 0 && since < |f.log| && f.log[|f.log| - 1] == call && Mutating(call.req)
      && Answered(call, Run(f.initial, f.log[..|f.log| - 1])).Ok?
    case Finished(call, since, at, r) => Serial(f, call, since, at, r)
    case ReloadWaiting(m) => m in f.used
    case ReloadHolding(m) => m in f.used
    case ReloadLoaded(m, content, point, _) => LoadOk(f, content, point, m)
    case BootWaiting => proc.device.None?
    case BootHolding => proc.device.None?
    case BootLoaded(content, point, stampThen, _) => proc.device.None? && LoadOk(f, content, point, stampThen)
    case ParseFailed => false
    case _ => true
  }

  ghost predicate DeviceOk(f: File, proc: Proc) {
    proc.device.Some? ==>
      var d := proc.device.value;
      && d.view.stamp in f.used && d.loads != []
      && (forall k | 0 <= k < |d.loads| :: d.loads[k].at <= |f.log|)
      && (d.sound ==> Coherent(f, d))
  }

  ghost predicate Exclusion(s: State) {
    forall p, q | 0 <= p < |s.procs| && 0 <= q < |s.procs| && p != q && HoldsExclusive(s.procs[p].pc) ::
      !HoldsExclusive(s.procs[q].pc) && !HoldsShared(s.procs[q].pc)
  }

  ghost predicate NobodySaves(s: State) {
    forall q | 0 <= q < |s.procs| :: !s.procs[q].pc.Saving?
  }

  ghost predicate Inv(s: State) {
    && s.file.stamp in s.file.used
    && Exclusion(s)
    && (forall p | 0 <= p < |s.procs| :: PcOk(s.file, s.procs[p]) && DeviceOk(s.file, s.procs[p]))
    && (NobodySaves(s) ==> s.file.disk == Whole(Content(s.file)))
  }

  lemma StartInv(slots: Slots, n: nat, stamp: nat, clock: nat)
    ensures Inv(Start(slots, n, stamp, clock))
  {
  }

  /** The invariant is about the file and the processes only. */
  lemma SameFile(s: State, s': State)
    requires Inv(s) && s'.file == s.file && s'.procs == s.procs
    ensures Inv(s')
  {
  }

  /** Steps that move one process and leave the file alone. */
  lemma MoveKeepsInv(s: State, p: nat, proc: Proc)
    requires Inv(s) && p < |s.procs|
    requires PcOk(s.file, proc) && DeviceOk(s.file, proc)
    requires HoldsExclusive(proc.pc) ==> HoldsExclusive(s.procs[p].pc) || Grantable(s, true)
    requires HoldsShared(proc.pc) ==> HoldsShared(s.procs[p].pc) || Grantable(s, false)
    requires proc.pc.Saving? <==> s.procs[p].pc.Saving?
    ensures Inv(s.(procs := s.procs[p := proc]))
  {
    var s' := s.(procs := s.procs[p := proc]);
    if NobodySaves(s') {
      forall q | 0 <= q < |s.procs| ensures !s.procs[q].pc.Saving? {
        assert !s'.procs[q].pc.Saving?;
      }
    }
  }

  /** Loads keep their content when the log grows. */
  lemma LoadsKept(f: File, f': File, point: LoadPoint)
    requires point.at <= |f.log| && f.log <= f'.log && f'.initial == f.initial
    ensures RawAt(f', point) == RawAt(f, point) && LoadedAt(f', point) == LoadedAt(f, point)
  {
    assert f'.log[..point.at] == f.log[..point.at];
  }

  /** A process outside the lock is not disturbed by a save. */
  lemma OthersKeepOk(f: File, f': File, proc: Proc, disk: Disk, stamp: nat, log: seq<Call>)
    requires stamp !in f.used && PcOk(f, proc) && DeviceOk(f, proc)
    requires !HoldsExclusive(proc.pc) && !HoldsShared(proc.pc)
    requires f.log <= log && f' == Change(f, disk, stamp).(log := log)
    ensures PcOk(f', proc)
  {
    match proc.pc
    case Finished(_, _, at, _) => assert log[..at] == f.log[..at];
    case Reading(_, _, _, _, at, _) => assert log[..at] == f.log[..at];
    case ReloadLoaded(_, _, point, _) => LoadsKept(f, f', point);
    case BootLoaded(_, point, _, _) => LoadsKept(f, f', point);
    case _ =>
  }

  lemma DevicesKeepOk(f: File, f': File, proc: Proc, disk: Disk, stamp: nat, log: seq<Call>)
    requires stamp !in f.used && DeviceOk(f, proc)
    requires f.log <= log && f' == Change(f, disk, stamp).(log := log)
    ensures DeviceOk(f', proc)
  {
  }

  /** Steps of a save: the file gets a new stamp while one process excludes all others. */
  lemma SaveKeepsInv(s: State, p: nat, disk: Disk, stamp: nat, pc: Pc, log: seq<Call>)
    requires Inv(s) && p < |s.procs| && stamp !in s.file.used && s.file.log <= log
    requires HoldsExclusive(s.procs[p].pc) && HoldsExclusive(pc)
    requires var f' := Change(s.file, disk, stamp).(log := log);
             PcOk(f', s.procs[p].(pc := pc)) && (!pc.Saving? ==> disk == Whole(Content(f')))
    ensures Inv(SetPc(s, p, pc).(file := Change(s.file, disk, stamp).(log := log)))
  {
    var f' := Change(s.file, disk, stamp).(log := log);
    var s' := SetPc(s, p, pc).(file := f');
    forall q | 0 <= q < |s'.procs| ensures PcOk(f', s'.procs[q]) && DeviceOk(f', s'.procs[q]) {
      DevicesKeepOk(s.file, f', s.procs[q], disk, stamp, log);
      if q != p {
        assert s'.procs[q] == s.procs[q];
        OthersKeepOk(s.file, f', s.procs[q], disk, stamp, log);
      }
    }
    if NobodySaves(s') {
      assert !s'.procs[p].pc.Saving?;
    }
  }

  /** While somebody holds the lock and nobody saves, the file is complete: no load meets a
      half-written file. */
  lemma LoadSeesWhole(s: State, p: nat)
    requires Inv(s) && p < |s.procs|
    requires HoldsShared(s.procs[p].pc) || (HoldsExclusive(s.procs[p].pc) && !s.procs[p].pc.Saving?)
    ensures s.file.disk == Whole(Content(s.file))
  {
    forall q | 0 <= q < |s.procs| ensures !s.procs[q].pc.Saving? {
      if s.procs[q].pc.Saving? && q != p {
        assert false;
      }
    }
  }

  lemma RunSnoc(slots: Slots, log: seq<Call>, call: Call)
    ensures Run(slots, log + [call]) == Effect(call, Run(slots, log))
  {
    assert (log + [call])[..|log|] == log;
  }

  lemma LockKeepsInv(s: State, p: nat)
    requires Inv(s) && p < |s.procs| && LockAct(s, p).Some?
    ensures Inv(LockAct(s, p).value)
  {
    var s' := LockAct(s, p).value;
    assert PcOk(s.file, s.procs[p]) && DeviceOk(s.file, s.procs[p]);
    MoveKeepsInv(s, p, s'.procs[p]);
  }

  lemma LoadKeepsInv(s: State, p: nat)
    requires Inv(s) && p < |s.procs| && LoadAct(s, p).Some?
    ensures Inv(LoadAct(s, p).value)
  {
    var s' := LoadAct(s, p).value;
    assert PcOk(s.file, s.procs[p]) && DeviceOk(s.file, s.procs[p]);
    LoadSeesWhole(s, p);
    assert s.file.log[..|s.file.log|] == s.file.log;
    MoveKeepsInv(s, p, s'.procs[p]);
    SameFile(s.(procs := s.procs[p := s'.procs[p]]), s');
  }

  lemma UnlockKeepsInv(s: State, p: nat)
    requires Inv(s) && p < |s.procs| && UnlockAct(s, p).Some?
    ensures Inv(UnlockAct(s, p).value)
  {
    var s' := UnlockAct(s, p).value;
    assert PcOk(s.file, s.procs[p]) && DeviceOk(s.file, s.procs[p]);
    assert s.file.log[..|s.file.log|] == s.file.log;
    if s.procs[p].pc.Saved? {
      MutatingAnswer(s.procs[p].pc.call, Run(s.file.initial, s.file.log[..|s.file.log| - 1]));
    }
    MoveKeepsInv(s, p, s'.procs[p]);
  }

  /** A request that changes slots answers with no content when it succeeds. */
  lemma MutatingAnswer(call: Call, before: Slots)
    requires Mutating(call.req) && Answered(call, before).Ok?
    ensures Answered(call, before) == Ok(Nothing)
  {
  }

  lemma CompleteKeepsInv(s: State, p: nat, stamp: nat)
    requires Inv(s) && p < |s.procs| && s.procs[p].pc.Saving? && stamp !in s.file.used
    ensures Inv(SaveAct(s, Complete(p, stamp)).value)
  {
    var pc := s.procs[p].pc;
    assert PcOk(s.file, s.procs[p]);
    RunSnoc(s.file.initial, s.file.log, pc.call);
    assert (s.file.log + [pc.call])[..|s.file.log|] == s.file.log;
    SaveKeepsInv(s, p, Whole(Effect(pc.call, pc.before)), stamp, Saved(pc.call, pc.since), s.file.log + [pc.call]);
  }

  lemma SaveStepKeepsInv(s: State, a: Action)
    requires Inv(s) && (a.Truncate? || a.Chunk?) && a.p < |s.procs| && SaveAct(s, a).Some?
    ensures Inv(SaveAct(s, a).value)
  {
    assert PcOk(s.file, s.procs[a.p]) && DeviceOk(s.file, s.procs[a.p]);
    SaveKeepsInv(s, a.p, Partial, a.newStamp, SaveAct(s, a).value.procs[a.p].pc, s.file.log);
  }

  lemma DeviceStepOk(s: State, a: Action)
    requires (a.ReadStamp? || a.StoreStamp? || a.Boot? || a.Use?) && a.p < |s.procs| && DeviceAct(s, a).Some?
    requires PcOk(s.file, s.procs[a.p]) && DeviceOk(s.file, s.procs[a.p]) && s.file.stamp in s.file.used
    ensures var proc := DeviceAct(s, a).value.procs[a.p];
            && PcOk(s.file, proc) && DeviceOk(s.file, proc)
            && DeviceAct(s, a).value == s.(procs := s.procs[a.p := proc])
            && !HoldsExclusive(proc.pc) && !HoldsShared(proc.pc) && !proc.pc.Saving? && !s.procs[a.p].pc.Saving?
  {
    if a.Use? {
      UseKeepsStamp(s.procs[a.p].device.value.view, DeviceSpec.Event(a.now, a.op));
    }
  }

  lemma DeviceStepKeepsInv(s: State, a: Action)
    requires Inv(s) && (a.ReadStamp? || a.StoreStamp? || a.Boot? || a.Use?) && a.p < |s.procs|
    requires DeviceAct(s, a).Some?
    ensures Inv(DeviceAct(s, a).value)
  {
    assert PcOk(s.file, s.procs[a.p]) && DeviceOk(s.file, s.procs[a.p]);
    DeviceStepOk(s, a);
    MoveKeepsInv(s, a.p, DeviceAct(s, a).value.procs[a.p]);
  }

  lemma UseKeepsStamp(v: DeviceSpec.DeviceView, ev: DeviceSpec.Event)
    requires !ev.op.FindMut?
    ensures DeviceSpec.Step(v, ev).0.stamp == v.stamp
  {
  }

  lemma ClientStepKeepsInv(s: State, a: Action)
    requires Inv(s) && (a.Arrive? || a.Decide? || a.Reset?) && a.p < |s.procs| && ClientAct(s, a).Some?
    ensures Inv(ClientAct(s, a).value)
  {
    assert PcOk(s.file, s.procs[a.p]) && DeviceOk(s.file, s.procs[a.p]);
    assert s.file.log[..|s.file.log|] == s.file.log;
    MoveKeepsInv(s, a.p, ClientAct(s, a).value.procs[a.p]);
  }

  lemma ActKeepsInv(s: State, a: Action)
    requires Inv(s) && Act(s, a).Some?
    ensures Inv(Act(s, a).value)
  {
    if a.Tick? {
      SameFile(s, Act(s, a).value);
    } else if a.Lock? {
      LockKeepsInv(s, a.p);
    } else if a.Load? {
      LoadKeepsInv(s, a.p);
    } else if a.Unlock? {
      UnlockKeepsInv(s, a.p);
    } else if a.Arrive? || a.Decide? || a.Reset? {
      ClientStepKeepsInv(s, a);
    } else if a.Complete? {
      CompleteKeepsInv(s, a.p, a.newStamp);
    } else if a.Truncate? || a.Chunk? {
      SaveStepKeepsInv(s, a);
    } else {
      DeviceStepKeepsInv(s, a);
    }
  }

  lemma {:induction false} ExecKeepsInv(s: State, actions: seq<Action>)
    requires Inv(s) && Exec(s, actions).Some?
    ensures Inv(Exec(s, actions).value)
  {
    if actions != [] {
      ExecKeepsInv(s, actions[..|actions| - 1]);
      ActKeepsInv(Exec(s, actions[..|actions| - 1]).value, actions[|actions| - 1]);
    }
  }

  /* ---------- Main results ---------- */

  /** A state that some interleaving of any number of processes reaches. */
  ghost predicate Reachable(s: State) {
    exists slots: Slots, n: nat, stamp: nat, clock: nat, actions: seq<Action> ::
      Exec(Start(slots, n, stamp, clock), actions) == Some(s)
  }

  /** A state reached from a newly made configuration file: every slot free. */
  ghost predicate FromNew(s: State) {
    exists n: nat, stamp: nat, clock: nat, actions: seq<Action> ::
      Exec(Start(Store.Empty(), n, stamp, clock), actions) == Some(s)
  }

  lemma ReachableInv(s: State)
    requires Reachable(s)
    ensures Inv(s)
  {
    var slots: Slots, n: nat, stamp: nat, clock: nat, actions: seq<Action> :|
      Exec(Start(slots, n, stamp, clock), actions) == Some(s);
    StartInv(slots, n, stamp, clock);
    ExecKeepsInv(Start(slots, n, stamp, clock), actions);
  }

  lemma {:induction false} ExecThen(s: State, first: seq<Action>, more: seq<Action>)
    requires Exec(s, first).Some?
    ensures Exec(s, first + more) == Exec(Exec(s, first).value, more)
  {
    if more == [] {
      assert first + more == first;
    } else {
      var n := |more| - 1;
      assert (first + more)[..|first + more| - 1] == first + more[..n];
      ExecThen(s, first, more[..n]);
    }
  }

  /** What is reached from a reachable state is reachable. */
  lemma ReachedFrom(s: State, more: seq<Action>)
    requires Reachable(s) && Exec(s, more).Some?
    ensures Reachable(Exec(s, more).value)
  {
    var slots: Slots, n: nat, stamp: nat, clock: nat, first: seq<Action> :|
      Exec(Start(slots, n, stamp, clock), first) == Some(s);
    ExecThen(Start(slots, n, stamp, clock), first, more);
  }

  /** A step of the clock or of another process leaves a process as it is. */
  lemma OthersLeave(s: State, a: Action, p: nat)
    requires Act(s, a).Some? && p < |s.procs| && (a.Tick? || a.p != p)
    ensures |Act(s, a).value.procs| == |s.procs| && Act(s, a).value.procs[p] == s.procs[p]
  {
  }

  /** The last step of a reload. */
  lemma StoreIs(s: State, p: nat)
    requires p < |s.procs| && s.procs[p].pc.ReloadLoaded? && !s.procs[p].pc.locked && s.procs[p].device.Some?
    ensures var (pc, d) := (s.procs[p].pc, s.procs[p].device.value);
            var view := DeviceSpec.Reloaded(d.view, pc.content, s.clock).(stamp := pc.mtime);
            Act(s, StoreStamp(p)) == Some(SetProc(s, p, Idle, Device(view, d.loads + [pc.point], true)))
  {
  }

  lemma ExecOne(s: State, a: Action)
    ensures Exec(s, [a]) == Act(s, a)
  {
    assert [a][..0] == [];
  }

  /** Serialisability. In every interleaving the saved requests, in the order of the log, explain
      the file and every answer: outside a save the file is the serial result, each answer is the
      one the serial execution gives at a point between arrival and completion, a request that saved
      is at that point in the log, and no load meets a half-written file. */
  lemma Serialisable(s: State, p: nat)
    requires Reachable(s) && p < |s.procs|
    ensures NobodySaves(s) ==> s.file.disk == Whole(Run(s.file.initial, s.file.log))
    ensures s.procs[p].pc.Finished? ==>
              Serial(s.file, s.procs[p].pc.call, s.procs[p].pc.since, s.procs[p].pc.at, s.procs[p].pc.response)
    ensures !s.procs[p].pc.ParseFailed?
  {
    ReachableInv(s);
    assert PcOk(s.file, s.procs[p]);
  }

  /** What is on disk, and whether a save is under way. */
  lemma DiskIs(s: State, v: Slots)
    requires Inv(s)
    ensures s.file.disk == Whole(v) <==> NobodySaves(s) && Content(s.file) == v
  {
    if !NobodySaves(s) {
      var q :| 0 <= q < |s.procs| && s.procs[q].pc.Saving?;
      assert PcOk(s.file, s.procs[q]);
    }
  }

  /** Reload coherence. In every interleaving, for a device that has reloaded or agreed when it was
      built: when its stamp is the file's, the content it last loaded is the file's current complete
      content, less what had expired at the load. */
  lemma ReloadCoherent(s: State, p: nat)
    requires Reachable(s) && p < |s.procs| && s.procs[p].device.Some? && s.procs[p].device.value.sound
    requires s.procs[p].device.value.view.stamp == s.file.stamp
    ensures var d := s.procs[p].device.value;
            && d.loads != [] && NobodySaves(s)
            && s.file.disk == Whole(Content(s.file))
            && LoadedAt(s.file, d.loads[|d.loads| - 1]) == Sweep(Content(s.file), d.loads[|d.loads| - 1].time)
  {
    ReachableInv(s);
    var d := s.procs[p].device.value;
    assert DeviceOk(s.file, s.procs[p]);
    DiskIs(s, RawAt(s.file, d.loads[|d.loads| - 1]));
  }

  /** A start reads the content before the stamp. It agrees with the file exactly when no save is under
      way as it reads the stamp, and the saves since it read the content add up to no change. An unmoved
      stamp is enough. */
  lemma BootAgreesIff(s: State, p: nat)
    requires Reachable(s) && p < |s.procs| && s.procs[p].pc.BootLoaded? && !s.procs[p].pc.locked
    ensures Act(s, ReadStamp(p)).Some? && Act(s, ReadStamp(p)).value.procs[p].device.Some?
    ensures Act(s, ReadStamp(p)).value.procs[p].device.value.loads == [s.procs[p].pc.point]
    ensures s.procs[p].pc.point.at <= |s.file.log|
    ensures var s' := Act(s, ReadStamp(p)).value;
            var agrees := Coherent(s'.file, s'.procs[p].device.value);
            && (agrees <==> s'.procs[p].device.value.sound)
            && (agrees <==> NobodySaves(s) && Content(s.file) == Run(s.file.initial, s.file.log[..s.procs[p].pc.point.at]))
            && (s.file.stamp == s.procs[p].pc.stampThen ==> agrees)
  {
    ReachableInv(s);
    assert PcOk(s.file, s.procs[p]);
    DiskIs(s, RawAt(s.file, s.procs[p].pc.point));
  }
}
