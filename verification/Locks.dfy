/**
 The PKCS#11 entry points under concurrency: one device lock, one lock per session object that is only
 ever waited for while the device lock is held, and the file lock that a reload waits for inside it.
 Any number of threads make calls on the device of `DeviceSpec`; a server process locks and rewrites
 the file as it likes.

 A call on a session takes the device lock, looks the session up (reloading first when it may change
 the session), takes the session lock, gives the device lock back and works. Login and logout keep the
 device lock, take the named session's lock, and visit the token's other sessions one at a time, in any
 order. The other calls work under the device lock alone. A session object stays lockable by its holder
 after it is closed.

 Besides the locks the state keeps a log: the calls in the order in which they take effect, and among
 them the changes of the file.
 */
module Locks {
  import opened Common
  import opened DeviceSpec
  import Store

  type Tid = nat
  type Oid = nat

  /** The file: whether the server holds its lock, the stamp and the content. */
  datatype FileState = FileState(busy: bool, stamp: nat, content: Store.Slots)

  /** A call that took effect, with the clock it read and what its reload met; or a step of the server. */
  datatype Entry = Call(tid: Tid, ev: Event) | Wrote(file: FileState)

  /** Where in the log a call took effect, and its reply. */
  datatype Point = Point(at: nat, reply: Reply)

  /** `since` is the length of the log when the call began, `seen` when it read the stamp, `loaded` when it
      loaded the file, at clock `time`. */
  datatype Pc =
    | Idle
    | Wait(op: Op, since: nat)
    // a call on a session, up to finding it
    | Seek(op: Op, since: nat)
    | SeekFile(op: Op, since: nat, mtime: nat, seen: nat)
    | SeekRead(op: Op, since: nat, mtime: nat, seen: nat, content: Store.Slots, loaded: nat, time: nat)
    // and with the session found
    | SeekLock(op: Op, since: nat, point: Point, oid: Oid)
    | Locked(op: Op, since: nat, point: Point, oid: Oid)
    | Work(op: Op, since: nat, point: Point, oid: Oid)
    // open and close
    | Device(op: Op, since: nat)
    // login and logout
    | LogDevice(op: Op, since: nat)
    | LogLock(op: Op, since: nat, now: nat, slot: nat, oid: Oid)
    | LogMain(op: Op, since: nat, now: nat, slot: nat, oid: Oid)
    | LogLoop(op: Op, since: nat, now: nat, slot: nat, oid: Oid, rest: set<nat>)
    | LogOther(op: Op, since: nat, now: nat, slot: nat, oid: Oid, rest: set<nat>, cur: nat, curOid: Oid)
    | LogFlag(op: Op, since: nat, now: nat, slot: nat, oid: Oid)
    | LogRelease(op: Op, since: nat, point: Point, oid: Oid)
    // about to give the device lock back
    | Exit(op: Op, since: nat, point: Point)
    | Finished(op: Op, since: nat, point: Point)

  /** `objs` names the object of the session that a slot's table has under a handle. */
  datatype State = State(
    device: Option<Tid>,
    held: map<Oid, Tid>,
    view: DeviceView,
    objs: map<(nat, nat), Oid>,
    nextOid: Oid,
    file: FileState,
    firstFile: FileState,
    start: DeviceView,
    log: seq<Entry>,
    threads: seq<Pc>)

  /** What a thread does next: begin a call, or take the one step its call is at, reading the clock;
      which session the loop of login and logout visits next is open. */
  datatype Move = Begin(op: Op) | Go(now: nat) | Visit(h: nat)

  datatype Action = Thread(t: Tid, m: Move) | FileTake | FileTouch(stamp: nat) | FileGive(stamp: nat, content: Store.Slots)

  /* ---------- Steps ---------- */

  function Goto(s: State, t: Tid, pc: Pc): State
    requires t < |s.threads|
  {
    s.(threads := s.threads[t := pc])
  }

  function TakeDevice(s: State, t: Tid, pc: Pc): Option<State>
    requires t < |s.threads|
  {
    if s.device.None? then Some(Goto(s, t, pc).(device := Some(t))) else None
  }

  function GiveDevice(s: State, t: Tid, pc: Pc): Option<State>
    requires t < |s.threads|
  {
    Some(Goto(s, t, pc).(device := None))
  }

  function TakeSession(s: State, t: Tid, oid: Oid, pc: Pc): Option<State>
    requires t < |s.threads|
  {
    if oid in s.held then None else Some(Goto(s, t, pc).(held := s.held[oid := t]))
  }

  function GiveSession(s: State, t: Tid, oid: Oid, pc: Pc): Option<State>
    requires t < |s.threads|
  {
    Some(Goto(s, t, pc).(held := s.held - {oid}))
  }

  function ObjOf(s: State, slot: nat, h: nat): Oid {
    if (slot, h) in s.objs then s.objs[(slot, h)] else 0
  }

  /** A call takes effect: its event is logged, and the device becomes `view`. */
  function Effect(s: State, t: Tid, ev: Event, view: DeviceView, pc: Pc): State
    requires t < |s.threads|
  {
    Goto(s, t, pc).(view := view, log := s.log + [Call(t, ev)])
  }

  /** The point of a call that takes effect now. */
  function Now(s: State, ev: Event): Point {
    Point(|s.log|, Step(s.view, ev).1)
  }

  /** A lookup takes effect: found sessions are locked next. */
  function Lookup(s: State, t: Tid, op: Op, since: nat, ev: Event): State
    requires t < |s.threads| && (op.Find? || op.FindMut?)
  {
    var point := Now(s, ev);
    var pc := if point.reply == Found(true) && op.h in s.view.index
              then SeekLock(op, since, point, ObjOf(s, s.view.index[op.h], op.h)) else Exit(op, since, point);
    Effect(s, t, ev, Step(s.view, ev).0, pc)
  }

  /** A lookup that may change the session reloads when the stamp has moved: it loads the file once that is
      free, and then takes over what it loaded. */
  function SeekAct(s: State, t: Tid, now: nat): Option<State>
    requires t < |s.threads|
  {
    match s.threads[t]
    case Seek(op, since) =>
      if op.Find? then Some(Lookup(s, t, op, since, Event(now, op)))
      else if !op.FindMut? then None
      else if op.h in s.view.index && s.file.stamp != s.view.stamp then Some(Goto(s, t, SeekFile(op, since, s.file.stamp, |s.log|)))
      else Some(Lookup(s, t, op, since, Event(now, FindMut(op.h, Stamp(s.view.stamp, None)))))
    case SeekFile(op, since, m, seen) =>
      if s.file.busy then None
      else Some(Goto(s, t, SeekRead(op, since, m, seen, Store.Sweep(s.file.content, now), |s.log|, now)))
    case SeekRead(op, since, m, _, content, _, _) =>
      if !op.FindMut? then None
      else Some(Lookup(s, t, op, since, Event(now, FindMut(op.h, Stamp(m, Some(content))))))
    case _ => None
  }

  /** The rest of a call on a session, and the end of every call. */
  function EndAct(s: State, t: Tid): Option<State>
    requires t < |s.threads|
  {
    match s.threads[t]
    case SeekLock(op, since, point, oid) => TakeSession(s, t, oid, Locked(op, since, point, oid))
    case Locked(op, since, point, oid) => GiveDevice(s, t, Work(op, since, point, oid))
    case Work(op, since, point, oid) => GiveSession(s, t, oid, Finished(op, since, point))
    case LogRelease(op, since, point, oid) => GiveSession(s, t, oid, Exit(op, since, point))
    case Exit(op, since, point) => GiveDevice(s, t, Finished(op, since, point))
    case Finished(_, _, _) => Some(Goto(s, t, Idle))
    case _ => None
  }

  /** Open, close and close all. A new session is a new object. */
  function DeviceAct(s: State, t: Tid, now: nat): Option<State>
    requires t < |s.threads|
  {
    match s.threads[t]
    case Device(op, since) =>
      var ev := Event(now, op);
      var point := Now(s, ev);
      var s' := Effect(s, t, ev, Step(s.view, ev).0, Exit(op, since, point));
      if op.Open? && point.reply.Handle?
      then Some(s'.(objs := s.objs[(op.slot, point.reply.h) := s.nextOid], nextOid := s.nextOid + 1))
      else Some(s')
    case _ => None
  }

  function Target(op: Op): SessionState {
    if op.Login? then RoUser else RoPublic
  }

  /** Login and logout end before any session is locked. */
  predicate Early(v: DeviceView, op: Op, now: nat)
    requires op.Login? || op.Logout?
  {
    || op.h !in v.index || LiveToken(v, v.index[op.h], now).Err?
    || (op.Login? && v.slots[v.index[op.h]].value.built.pin != op.pin)
    || op.h !in v.slots[v.index[op.h]].value.sessions
  }

  predicate Present(v: DeviceView, slot: nat, h: nat) {
    slot < |v.slots| && v.slots[slot].Some? && h in v.slots[slot].value.sessions
  }

  function SetSession(v: DeviceView, slot: nat, h: nat, st: SessionState): DeviceView
    requires slot < |v.slots| && v.slots[slot].Some?
  {
    var t := v.slots[slot].value;
    WithToken(v, slot, t.(sessions := t.sessions[h := st]))
  }

  /** Login and logout, up to the loop over the other sessions. */
  function LogEnter(s: State, t: Tid, now: nat): Option<State>
    requires t < |s.threads|
  {
    match s.threads[t]
    case LogDevice(op, since) =>
      if !(op.Login? || op.Logout?) then None
      else if Early(s.view, op, now) then
        Some(Effect(s, t, Event(now, op), s.view, Exit(op, since, Now(s, Event(now, op)))))
      else
        var slot := s.view.index[op.h];
        Some(Goto(s, t, LogLock(op, since, now, slot, ObjOf(s, slot, op.h))))
    case LogLock(op, since, n, slot, oid) => TakeSession(s, t, oid, LogMain(op, since, n, slot, oid))
    case LogMain(op, since, n, slot, oid) =>
      if !(op.Login? || op.Logout?) || !Present(s.view, slot, op.h) then None
      else if s.view.slots[slot].value.sessions[op.h] == Target(op) then
        Some(Effect(s, t, Event(n, op), s.view, LogRelease(op, since, Now(s, Event(n, op)), oid)))
      else
        Some(Goto(s, t, LogLoop(op, since, n, slot, oid, s.view.slots[slot].value.sessions.Keys - {op.h}))
             .(view := SetSession(s.view, slot, op.h, Target(op))))
    case _ => None
  }

  /** Login and logout, the rest: the flag is set last. */
  function LogFinish(s: State, t: Tid): Option<State>
    requires t < |s.threads|
  {
    match s.threads[t]
    case LogLoop(op, since, n, slot, oid, rest) =>
      if rest == {} then Some(Goto(s, t, LogFlag(op, since, n, slot, oid))) else None
    case LogOther(op, since, n, slot, oid, rest, cur, curOid) =>
      if !Present(s.view, slot, cur) then None
      else
        GiveSession(s.(view := SetSession(s.view, slot, cur, Target(op))), t, curOid, LogLoop(op, since, n, slot, oid, rest))
    case LogFlag(op, since, n, slot, oid) =>
      if slot >= |s.view.slots| || s.view.slots[slot].None? then None
      else
        var tok := s.view.slots[slot].value;
        Some(Effect(s, t, Event(n, op), WithToken(s.view, slot, tok.(userLogin := op.Login?)),
                    LogRelease(op, since, Point(|s.log|, Reply.Done), oid)))
    case _ => None
  }

  /** Where a call goes once it has the device lock. */
  function Entered(op: Op, since: nat): Pc {
    match op
    case Find(_) => Seek(op, since)
    case FindMut(_, _) => Seek(op, since)
    case Login(_, _) => LogDevice(op, since)
    case Logout(_) => LogDevice(op, since)
    case _ => Device(op, since)
  }

  predicate InSeek(pc: Pc) {
    pc.Seek? || pc.SeekFile? || pc.SeekRead?
  }

  predicate InEnd(pc: Pc) {
    pc.SeekLock? || pc.Locked? || pc.Work? || pc.LogRelease? || pc.Exit? || pc.Finished?
  }

  predicate InLogEnter(pc: Pc) {
    pc.LogDevice? || pc.LogLock? || pc.LogMain?
  }

  function GoAct(s: State, t: Tid, now: nat): Option<State>
    requires t < |s.threads|
  {
    var pc := s.threads[t];
    if pc.Idle? then None
    else if pc.Wait? then TakeDevice(s, t, Entered(pc.op, pc.since))
    else if InSeek(pc) then SeekAct(s, t, now)
    else if InEnd(pc) then EndAct(s, t)
    else if pc.Device? then DeviceAct(s, t, now)
    else if InLogEnter(pc) then LogEnter(s, t, now)
    else LogFinish(s, t)
  }

  /** One step of a thread; None when it cannot take it (a lock is not free). */
  function ThreadAct(s: State, t: Tid, m: Move): Option<State> {
    if t >= |s.threads| then None
    else
      var pc := s.threads[t];
      match m
      case Begin(op) => if pc.Idle? then Some(Goto(s, t, Wait(op, |s.log|))) else None
      case Visit(h) =>
        if pc.LogLoop? && h in pc.rest then
          var oid := ObjOf(s, pc.slot, h);
          TakeSession(s, t, oid, LogOther(pc.op, pc.since, pc.now, pc.slot, pc.oid, pc.rest - {h}, h, oid))
        else None
      case Go(now) => GoAct(s, t, now)
  }

  function Act(s: State, a: Action): Option<State> {
    match a
    case Thread(t, m) => ThreadAct(s, t, m)
    case FileTake => if s.file.busy then None else Some(Write(s, s.file.(busy := true)))
    case FileTouch(stamp) => if s.file.busy then Some(Write(s, s.file.(stamp := stamp))) else None
    case FileGive(stamp, content) => if s.file.busy then Some(Write(s, FileState(false, stamp, content))) else None
  }

  /** The server changes the file. */
  function Write(s: State, f: FileState): State {
    s.(file := f, log := s.log + [Wrote(f)])
  }

  function Exec(s: State, run: seq<Action>): Option<State> {
    if run == [] then Some(s)
    else
      match Exec(s, run[..|run| - 1])
      case None => None
      case Some(s') => Act(s', run[|run| - 1])
  }

  /** A fresh device, and `n` threads that have made no calls. */
  function Start(v: DeviceView, f: FileState, n: nat): State {
    State(None, map[], v, map[], 0, f, f, v, [], seq(n, _ => Idle))
  }

  ghost predicate Reachable(s: State) {
    exists v: DeviceView, f: FileState, n: nat, run: seq<Action> ::
      DeviceSpec.Fresh(v) && Exec(Start(v, f, n), run) == Some(s)
  }

  /* ---------- What the log stands for ---------- */

  /** One logged call, or nothing for a change of the file. */
  function StepEntry(v: DeviceView, e: Entry): DeviceView {
    if e.Call? then Step(v, e.ev).0 else v
  }

  /** The device after the logged calls, one at a time. */
  function RunLog(v: DeviceView, log: seq<Entry>): DeviceView {
    if log == [] then v else StepEntry(RunLog(v, log[..|log| - 1]), log[|log| - 1])
  }

  lemma RunLogNext(v: DeviceView, log: seq<Entry>, e: Entry)
    ensures RunLog(v, log + [e]) == StepEntry(RunLog(v, log), e)
  {
    assert (log + [e])[..|log|] == log;
  }

  lemma {:induction false} RunLogUniform(v: DeviceView, log: seq<Entry>)
    requires DeviceSpec.Fresh(v)
    ensures Uniform(RunLog(v, log))
  {
    if log != [] {
      RunLogUniform(v, log[..|log| - 1]);
      if log[|log| - 1].Call? {
        StepKeepsUniform(RunLog(v, log[..|log| - 1]), log[|log| - 1].ev);
      }
    }
  }

  /** The file after the logged changes. */
  function FileAfter(f: FileState, log: seq<Entry>): FileState {
    if log == [] then f
    else if log[|log| - 1].Wrote? then log[|log| - 1].file
    else FileAfter(f, log[..|log| - 1])
  }

  lemma FileAfterNext(f: FileState, log: seq<Entry>, e: Entry)
    ensures FileAfter(f, log + [e]) == if e.Wrote? then e.file else FileAfter(f, log)
  {
    assert (log + [e])[..|log|] == log;
  }

  /** The device as the calls that took effect left it. */
  function Abstract(s: State): DeviceView {
    RunLog(s.start, s.log)
  }

  /* ---------- Locks ---------- */

  predicate HasDevice(pc: Pc) {
    !pc.Idle? && !pc.Wait? && !pc.Work? && !pc.Finished?
  }

  function Holds(pc: Pc): set<Oid> {
    match pc
    case Locked(_, _, _, oid) => {oid}
    case Work(_, _, _, oid) => {oid}
    case LogMain(_, _, _, _, oid) => {oid}
    case LogLoop(_, _, _, _, oid, _) => {oid}
    case LogOther(_, _, _, _, oid, _, _, curOid) => {oid, curOid}
    case LogFlag(_, _, _, _, oid) => {oid}
    case LogRelease(_, _, _, oid) => {oid}
    case _ => {}
  }

  ghost predicate DeviceInv(s: State) {
    && (forall t | 0 <= t < |s.threads| :: s.device == Some(t) <==> HasDevice(s.threads[t]))
    && (s.device.Some? ==> s.device.value < |s.threads|)
  }

  ghost predicate HeldInv(s: State) {
    && (forall t, oid | 0 <= t < |s.threads| && oid in Holds(s.threads[t]) :: oid in s.held && s.held[oid] == t)
    && (forall oid | oid in s.held :: s.held[oid] < |s.threads| && oid in Holds(s.threads[s.held[oid]]))
  }

  /** What any step does to the device lock: the moving thread keeps, takes or gives it. */
  ghost predicate DeviceStep(s: State, s': State, t: Tid) {
    && t < |s.threads|
    && |s'.threads| == |s.threads|
    && (forall u | 0 <= u < |s.threads| && u != t :: s'.threads[u] == s.threads[u])
    && if HasDevice(s'.threads[t]) then s'.device == Some(t) && (HasDevice(s.threads[t]) || s.device.None?)
       else s'.device == if HasDevice(s.threads[t]) then None else s.device
  }

  /** What any step does to the session locks: the moving thread changes at most its hold on `x`. */
  ghost predicate HeldStep(s: State, s': State, t: Tid, x: Oid) {
    && t < |s.threads|
    && |s'.threads| == |s.threads|
    && (forall u | 0 <= u < |s.threads| && u != t :: s'.threads[u] == s.threads[u])
    && var (mine, mine') := (Holds(s.threads[t]), Holds(s'.threads[t]));
       || (mine' == mine && s'.held == s.held)
       || (x !in s.held && mine' == mine + {x} && s'.held == s.held[x := t])
       || (x in mine && mine' == mine - {x} && s'.held == s.held - {x})
  }

  lemma DeviceStepKeeps(s: State, s': State, t: Tid)
    requires DeviceInv(s) && DeviceStep(s, s', t)
    ensures DeviceInv(s')
  {
  }

  lemma HeldStepKeeps(s: State, s': State, t: Tid, x: Oid)
    requires HeldInv(s) && HeldStep(s, s', t, x)
    ensures HeldInv(s')
  {
    forall u, oid | 0 <= u < |s'.threads| && oid in Holds(s'.threads[u])
      ensures oid in s'.held && s'.held[oid] == u
    {
      if oid in Holds(s.threads[u]) {
        assert s.held[oid] == u;
      }
    }
    forall oid | oid in s'.held ensures s'.held[oid] < |s'.threads| && oid in Holds(s'.threads[s'.held[oid]]) {
      if oid in s.held {
        assert oid in Holds(s.threads[s.held[oid]]);
      }
    }
  }

  /** The session lock that a step is about. */
  function Touched(s: State, pc: Pc, m: Move): Oid {
    if m.Visit? then if pc.LogLoop? then ObjOf(s, pc.slot, m.h) else 0
    else
      match pc
      case SeekLock(_, _, _, oid) => oid
      case Work(_, _, _, oid) => oid
      case LogLock(_, _, _, _, oid) => oid
      case LogOther(_, _, _, _, _, _, _, curOid) => curOid
      case LogRelease(_, _, _, oid) => oid
      case _ => 0
  }

  ghost predicate LockStep(s: State, s': State, t: Tid, x: Oid) {
    DeviceStep(s, s', t) && HeldStep(s, s', t, x)
  }

  /** A thread that holds two locks holds two. */
  predicate TwoLocks(pc: Pc) {
    pc.LogOther? ==> pc.oid != pc.curOid
  }

  lemma SeekLocks(s: State, t: Tid, now: nat)
    requires t < |s.threads| && SeekAct(s, t, now).Some? && s.device == Some(t) && InSeek(s.threads[t])
    ensures LockStep(s, SeekAct(s, t, now).value, t, 0)
  {
  }

  lemma EndDevice(s: State, t: Tid)
    requires t < |s.threads| && EndAct(s, t).Some? && (HasDevice(s.threads[t]) ==> s.device == Some(t))
    ensures DeviceStep(s, EndAct(s, t).value, t)
  {
  }

  lemma TakesHeld(s: State, t: Tid, oid: Oid, pc: Pc)
    requires t < |s.threads| && oid !in s.held && Holds(pc) == Holds(s.threads[t]) + {oid}
    ensures HeldStep(s, TakeSession(s, t, oid, pc).value, t, oid)
  {
  }

  lemma GivesHeld(s: State, t: Tid, oid: Oid, pc: Pc)
    requires t < |s.threads| && oid in Holds(s.threads[t]) && Holds(pc) == Holds(s.threads[t]) - {oid}
    ensures HeldStep(s, GiveSession(s, t, oid, pc).value, t, oid)
  {
  }

  lemma EndHeld(s: State, t: Tid, m: Move)
    requires t < |s.threads| && EndAct(s, t).Some? && InEnd(s.threads[t]) && m.Go?
    ensures HeldStep(s, EndAct(s, t).value, t, Touched(s, s.threads[t], m))
  {
    match s.threads[t]
    case SeekLock(op, since, point, oid) => TakesHeld(s, t, oid, Locked(op, since, point, oid));
    case Work(op, since, point, oid) => GivesHeld(s, t, oid, Finished(op, since, point));
    case LogRelease(op, since, point, oid) => GivesHeld(s, t, oid, Exit(op, since, point));
    case _ =>
  }

  lemma EndLocks(s: State, t: Tid, m: Move)
    requires t < |s.threads| && EndAct(s, t).Some? && (HasDevice(s.threads[t]) ==> s.device == Some(t))
    requires InEnd(s.threads[t]) && m.Go?
    ensures LockStep(s, EndAct(s, t).value, t, Touched(s, s.threads[t], m))
  {
    EndDevice(s, t);
    EndHeld(s, t, m);
  }

  lemma DeviceLocks(s: State, t: Tid, now: nat)
    requires t < |s.threads| && DeviceAct(s, t, now).Some? && s.device == Some(t)
    ensures LockStep(s, DeviceAct(s, t, now).value, t, 0)
  {
  }

  lemma LogEnterLocks(s: State, t: Tid, m: Move)
    requires t < |s.threads| && m.Go? && LogEnter(s, t, m.now).Some? && s.device == Some(t)
    ensures LockStep(s, LogEnter(s, t, m.now).value, t, Touched(s, s.threads[t], m))
  {
  }

  lemma LogFinishLocks(s: State, t: Tid, m: Move)
    requires t < |s.threads| && LogFinish(s, t).Some? && s.device == Some(t) && m.Go?
    requires TwoLocks(s.threads[t])
    ensures LockStep(s, LogFinish(s, t).value, t, Touched(s, s.threads[t], m))
  {
  }

  lemma GoLocks(s: State, t: Tid, now: nat)
    requires t < |s.threads| && GoAct(s, t, now).Some? && TwoLocks(s.threads[t]) && !s.threads[t].Wait?
    requires HasDevice(s.threads[t]) ==> s.device == Some(t)
    ensures LockStep(s, GoAct(s, t, now).value, t, Touched(s, s.threads[t], Go(now)))
  {
    var pc := s.threads[t];
    if InSeek(pc) {
      SeekLocks(s, t, now);
    } else if InEnd(pc) {
      EndLocks(s, t, Go(now));
    } else if pc.Device? {
      DeviceLocks(s, t, now);
    } else if InLogEnter(pc) {
      LogEnterLocks(s, t, Go(now));
    } else {
      LogFinishLocks(s, t, Go(now));
    }
  }

  lemma ThreadLocks(s: State, t: Tid, m: Move)
    requires DeviceInv(s) && HeldInv(s) && ThreadAct(s, t, m).Some? && TwoLocks(s.threads[t])
    ensures LockStep(s, ThreadAct(s, t, m).value, t, Touched(s, s.threads[t], m))
  {
    if m.Go? && !s.threads[t].Wait? {
      GoLocks(s, t, m.now);
    }
  }

  lemma ThreadKeepsLocks(s: State, t: Tid, m: Move)
    requires DeviceInv(s) && HeldInv(s) && ThreadAct(s, t, m).Some? && TwoLocks(s.threads[t])
    ensures DeviceInv(ThreadAct(s, t, m).value) && HeldInv(ThreadAct(s, t, m).value)
  {
    ThreadLocks(s, t, m);
    DeviceStepKeeps(s, ThreadAct(s, t, m).value, t);
    HeldStepKeeps(s, ThreadAct(s, t, m).value, t, Touched(s, s.threads[t], m));
  }
}
