/**
 Runs of two processes, a device and a server, that show where a device and the file part.
 */
module FileRuns {
  import opened Common
  import opened Store
  import opened ConfigFile
  import opened DeviceCopy
  import DeviceSpec

  lemma Moves(s: State, a: Action, s': State)
    requires FromNew(s) && Act(s, a).Some?
    requires var t := Act(s, a).value;
             t.file == s'.file && t.clock == s'.clock && t.read == s'.read && t.procs == s'.procs
    ensures FromNew(s')
  {
    var n: nat, stamp: nat, clock: nat, actions: seq<Action> :|
      Exec(Start(Store.Empty(), n, stamp, clock), actions) == Some(s);
    assert (actions + [a])[..|actions|] == actions;
    assert Exec(Start(Store.Empty(), n, stamp, clock), actions + [a]) == Some(s');
  }

  /** The device's process and an idle server. */
  function Pair(f: File, clock: nat, read: nat, device: Proc): State {
    State(f, clock, read, [device, Proc(Idle, None)])
  }

  function With(f: File, clock: nat, read: nat, device: Proc, pc: Pc): State {
    State(f, clock, read, [device, Proc(pc, None)])
  }

  predicate Unlocked(proc: Proc) {
    !HoldsExclusive(proc.pc) && !HoldsShared(proc.pc)
  }

  /* ---------- The server serves one request ---------- */

  lemma ServeLoads(f: File, clock: nat, read: nat, device: Proc, req: Request, kms: Kms)
    requires FromNew(Pair(f, clock, read, device)) && Unlocked(device) && f.disk.Whole?
    requires CheckArgs(req).None? && Mutating(req)
    ensures FromNew(With(f, clock, read, device, Loaded(req, kms, clock, |f.log|, f.disk.slots)))
  {
    var s1 := With(f, clock, read, device, Waiting(req, kms, |f.log|));
    Moves(Pair(f, clock, read, device), Arrive(1, req, kms), s1);
    var s2 := With(f, clock, read, device, Holding(req, kms, |f.log|));
    Moves(s1, Lock(1), s2);
    Moves(s2, Load(1), With(f, clock, read, device, Loaded(req, kms, clock, |f.log|, f.disk.slots)));
  }

  function Served(f: File, call: Call, slots: Slots, n1: nat, n2: nat): File {
    Change(Change(f, Partial, n1), Whole(Effect(call, slots)), n2).(log := f.log + [call])
  }

  lemma ServeSaves(f: File, clock: nat, read: nat, device: Proc, call: Call, n1: nat, n2: nat)
    requires f.disk.Whole? && FromNew(With(f, clock, read, device, Decided(call, |f.log|, f.disk.slots)))
    requires Answered(call, f.disk.slots).Ok? && n1 !in f.used && n2 !in f.used && n1 != n2
    ensures FromNew(With(Served(f, call, f.disk.slots, n1, n2), clock, read, device, Saved(call, |f.log|)))
  {
    var slots := f.disk.slots;
    var f1 := Change(f, Partial, n1);
    var s1 := With(f1, clock, read, device, Saving(call, |f.log|, slots));
    Moves(With(f, clock, read, device, Decided(call, |f.log|, slots)), Truncate(1, n1), s1);
    Moves(s1, Complete(1, n2), With(Served(f, call, slots, n1, n2), clock, read, device, Saved(call, |f.log|)));
  }

  lemma ServeEnds(f: File, clock: nat, read: nat, device: Proc, call: Call, since: nat)
    requires f.log != [] && FromNew(With(f, clock, read, device, Saved(call, since)))
    ensures FromNew(Pair(f, clock, read, device))
  {
    var s1 := With(f, clock, read, device, Finished(call, since, |f.log| - 1, Ok(Nothing)));
    Moves(With(f, clock, read, device, Saved(call, since)), Unlock(1), s1);
    Moves(s1, Reset(1), Pair(f, clock, read, device));
  }

  /** A request that succeeds, served while the device's process stands still outside the lock. */
  lemma Serves(f: File, clock: nat, read: nat, device: Proc, req: Request, kms: Kms, n1: nat, n2: nat)
    requires FromNew(Pair(f, clock, read, device)) && Unlocked(device) && f.disk.Whole?
    requires CheckArgs(req).None? && Mutating(req) && n1 !in f.used && n2 !in f.used && n1 != n2
    requires Answered(Call(req, Env(clock, clock, kms)), f.disk.slots).Ok?
    ensures FromNew(Pair(Served(f, Call(req, Env(clock, clock, kms)), f.disk.slots, n1, n2), clock, read, device))
  {
    ServeLoads(f, clock, read, device, req, kms);
    var call := Call(req, Env(clock, clock, kms));
    Moves(With(f, clock, read, device, Loaded(req, kms, clock, |f.log|, f.disk.slots)), Decide(1),
          With(f, clock, read, device, Decided(call, |f.log|, f.disk.slots)));
    ServeSaves(f, clock, read, device, call, n1, n2);
    ServeEnds(Served(f, call, f.disk.slots, n1, n2), clock, read, device, call, |f.log|);
  }

  /* ---------- The device starts, reloads and is used ---------- */

  function NewFile(): File {
    File(Whole(Store.Empty()), 0, {0}, [], Store.Empty())
  }

  lemma TwoIdle(clock: nat)
    ensures FromNew(Pair(NewFile(), clock, 0, Proc(Idle, None)))
  {
    var s := Pair(NewFile(), clock, 0, Proc(Idle, None));
    assert Start(Store.Empty(), 2, 0, clock).procs == s.procs;
    assert Start(Store.Empty(), 2, 0, clock) == s;
    assert Exec(Start(Store.Empty(), 2, 0, clock), []) == Some(s);
  }

  /** The device's process after it has loaded the content and before it reads the stamp. */
  function HalfBooted(slots: Slots, point: LoadPoint, stamp: nat): Proc {
    Proc(BootLoaded(Sweep(slots, point.time), point, stamp, false), None)
  }

  lemma BootLocks(f: File, clock: nat, read: nat)
    requires FromNew(Pair(f, clock, read, Proc(Idle, None)))
    ensures FromNew(Pair(f, clock, read, Proc(BootHolding, None)))
  {
    var s1 := Pair(f, clock, read, Proc(BootWaiting, None));
    Moves(Pair(f, clock, read, Proc(Idle, None)), Boot(0), s1);
    Moves(s1, Lock(0), Pair(f, clock, read, Proc(BootHolding, None)));
  }

  lemma Boots(f: File, clock: nat, read: nat)
    requires FromNew(Pair(f, clock, read, Proc(Idle, None))) && f.disk.Whole?
    ensures FromNew(Pair(f, clock, clock, HalfBooted(f.disk.slots, LoadPoint(|f.log|, clock), f.stamp)))
  {
    BootLocks(f, clock, read);
    BootLoads(f, clock, read);
    var point := LoadPoint(|f.log|, clock);
    var s3 := Pair(f, clock, clock, Proc(BootLoaded(Sweep(f.disk.slots, clock), point, f.stamp, true), None));
    Moves(s3, Unlock(0), Pair(f, clock, clock, HalfBooted(f.disk.slots, point, f.stamp)));
  }

  lemma BootLoads(f: File, clock: nat, read: nat)
    requires FromNew(Pair(f, clock, read, Proc(BootHolding, None))) && f.disk.Whole?
    ensures var pc := BootLoaded(Sweep(f.disk.slots, clock), LoadPoint(|f.log|, clock), f.stamp, true);
            FromNew(Pair(f, clock, clock, Proc(pc, None)))
  {
    var pc := BootLoaded(Sweep(f.disk.slots, clock), LoadPoint(|f.log|, clock), f.stamp, true);
    Moves(Pair(f, clock, read, Proc(BootHolding, None)), Load(0), Pair(f, clock, clock, Proc(pc, None)));
  }

  /** The device of a half-started process that reads the stamp of the file now. */
  function BootedDevice(f: File, slots: Slots, point: LoadPoint): Device {
    Device(DeviceSpec.DeviceView(DeviceSpec.Built(Sweep(slots, point.time)), map[], 1, f.stamp),
           [point], f.disk == Whole(RawAt(f, point)))
  }

  lemma BootEnds(f: File, clock: nat, read: nat, slots: Slots, point: LoadPoint, stamp: nat)
    requires FromNew(Pair(f, clock, read, HalfBooted(slots, point, stamp)))
    ensures FromNew(Pair(f, clock, read, Proc(Idle, Some(BootedDevice(f, slots, point)))))
  {
    Moves(Pair(f, clock, read, HalfBooted(slots, point, stamp)), ReadStamp(0),
          Pair(f, clock, read, Proc(Idle, Some(BootedDevice(f, slots, point)))));
  }

  lemma Uses(f: File, clock: nat, read: nat, d: Device, op: DeviceSpec.Op)
    requires FromNew(Pair(f, clock, read, Proc(Idle, Some(d)))) && !op.FindMut?
    ensures var d' := d.(view := DeviceSpec.Step(d.view, DeviceSpec.Event(clock, op)).0);
            FromNew(Pair(f, clock, read, Proc(Idle, Some(d'))))
  {
    var d' := d.(view := DeviceSpec.Step(d.view, DeviceSpec.Event(clock, op)).0);
    Moves(Pair(f, clock, read, Proc(Idle, Some(d))), Use(0, op, clock), Pair(f, clock, read, Proc(Idle, Some(d'))));
  }

  /** The device after a reload of the file as it is. */
  function ReloadedDevice(f: File, clock: nat, d: Device): Device
    requires f.disk.Whole?
  {
    Device(DeviceSpec.Reloaded(d.view, Sweep(f.disk.slots, clock), clock).(stamp := f.stamp),
           d.loads + [LoadPoint(|f.log|, clock)], true)
  }

  lemma ReloadLocks(f: File, clock: nat, read: nat, d: Device)
    requires FromNew(Pair(f, clock, read, Proc(Idle, Some(d)))) && d.view.stamp != f.stamp
    ensures FromNew(Pair(f, clock, read, Proc(ReloadHolding(f.stamp), Some(d))))
  {
    var s1 := Pair(f, clock, read, Proc(ReloadWaiting(f.stamp), Some(d)));
    Moves(Pair(f, clock, read, Proc(Idle, Some(d))), ReadStamp(0), s1);
    Moves(s1, Lock(0), Pair(f, clock, read, Proc(ReloadHolding(f.stamp), Some(d))));
  }

  lemma ReloadLoads(f: File, clock: nat, read: nat, d: Device)
    requires FromNew(Pair(f, clock, read, Proc(ReloadHolding(f.stamp), Some(d)))) && f.disk.Whole?
    ensures var pc := ReloadLoaded(f.stamp, Sweep(f.disk.slots, clock), LoadPoint(|f.log|, clock), false);
            FromNew(Pair(f, clock, clock, Proc(pc, Some(d))))
  {
    var content, point := Sweep(f.disk.slots, clock), LoadPoint(|f.log|, clock);
    var s3 := Pair(f, clock, clock, Proc(ReloadLoaded(f.stamp, content, point, true), Some(d)));
    Moves(Pair(f, clock, read, Proc(ReloadHolding(f.stamp), Some(d))), Load(0), s3);
    Moves(s3, Unlock(0), Pair(f, clock, clock, Proc(ReloadLoaded(f.stamp, content, point, false), Some(d))));
  }

  lemma Reloads(f: File, clock: nat, read: nat, d: Device)
    requires FromNew(Pair(f, clock, read, Proc(Idle, Some(d)))) && d.view.stamp != f.stamp && f.disk.Whole?
    ensures FromNew(Pair(f, clock, clock, Proc(Idle, Some(ReloadedDevice(f, clock, d)))))
  {
    ReloadLocks(f, clock, read, d);
    ReloadLoads(f, clock, read, d);
    var pc := ReloadLoaded(f.stamp, Sweep(f.disk.slots, clock), LoadPoint(|f.log|, clock), false);
    Moves(Pair(f, clock, clock, Proc(pc, Some(d))), StoreStamp(0),
          Pair(f, clock, clock, Proc(Idle, Some(ReloadedDevice(f, clock, d)))));
  }

  /* ---------- The store with one token ---------- */

  /** The slots of a store that holds one token, in the first slot. */
  function One(a: Token): Slots {
    Store.Empty()[0 := Some(a)]
  }

  /** The token that an add stores. */
  function Added(t: NewToken, clock: nat, kms: Kms): Token
    requires DecryptKeys(t.keys, kms).Ok?
  {
    Token(t.name, DecryptKeys(t.keys, kms).value, t.pin, clock + TOKEN_EXPIRY_SECS)
  }

  /** A token that the server accepts. */
  ghost predicate Acceptable(t: NewToken, kms: Kms) {
    CheckToken(t).None? && DecryptKeys(t.keys, kms).Ok?
  }

  lemma SweepOne(a: Token, clock: nat)
    requires !Expired(a, clock)
    ensures Sweep(One(a), clock) == One(a)
  {
  }

  lemma Removes(a: Token, clock: nat, kms: Kms)
    requires CheckPinLabel(a.pin, a.name).None? && !Expired(a, clock)
    ensures Step(One(a), RemoveToken(a.name, a.pin), Env(clock, clock, kms)) == (Store.Empty(), Ok(Nothing))
  {
    SweepOne(a, clock);
    assert HasLabel(One(a)[0], a.name);
    assert FindLabel(One(a), a.name) == Some(0);
    assert One(a)[0 := None] == Store.Empty();
  }

  lemma Adds(t: NewToken, clock: nat, kms: Kms)
    requires Acceptable(t, kms)
    ensures Step(Store.Empty(), AddToken(t), Env(clock, clock, kms)) == (One(Added(t, clock, kms)), Ok(Nothing))
  {
    assert Sweep(Store.Empty(), clock) == Store.Empty();
    assert Store.Empty()[0].None?;
    assert FindFree(Store.Empty()) == Some(0);
  }

  function Adding(t: NewToken, clock: nat, kms: Kms): Call {
    Call(AddToken(t), Env(clock, clock, kms))
  }

  function Removing(a: Token, clock: nat, kms: Kms): Call {
    Call(RemoveToken(a.name, a.pin), Env(clock, clock, kms))
  }

  /** A new file after the first token was added. */
  function FirstAdded(t: NewToken, clock: nat, kms: Kms): File {
    Served(NewFile(), Adding(t, clock, kms), Store.Empty(), 1, 2)
  }

  lemma AddsFirst(t: NewToken, clock: nat, kms: Kms)
    requires Acceptable(t, kms)
    ensures FromNew(Pair(FirstAdded(t, clock, kms), clock, 0, Proc(Idle, None)))
    ensures FirstAdded(t, clock, kms).disk == Whole(One(Added(t, clock, kms)))
  {
    TwoIdle(clock);
    Adds(t, clock, kms);
    Serves(NewFile(), clock, 0, Proc(Idle, None), AddToken(t), kms, 1, 2);
  }

  /** The file after the token was removed again. */
  function Removed(f: File, a: Token, clock: nat, kms: Kms): File {
    Served(f, Removing(a, clock, kms), One(a), 3, 4)
  }

  lemma RemovesFirst(f: File, clock: nat, read: nat, device: Proc, a: Token, kms: Kms)
    requires FromNew(Pair(f, clock, read, device)) && Unlocked(device) && f.disk == Whole(One(a)) && f.used == {0, 1, 2}
    requires CheckPinLabel(a.pin, a.name).None? && !Expired(a, clock)
    ensures FromNew(Pair(Removed(f, a, clock, kms), clock, read, device))
    ensures Removed(f, a, clock, kms).disk == Whole(Store.Empty())
  {
    Removes(a, clock, kms);
    Serves(f, clock, read, device, RemoveToken(a.name, a.pin), kms, 3, 4);
  }

  /* ---------- A start that is overtaken by a removal ---------- */

  /** The race is real: a removal saved between the two reads of a start leaves the device with a
      token that the file no longer has, under the file's current stamp. */
  lemma BootRace(t: NewToken, clock: nat, kms: Kms) returns (s: State)
    requires Acceptable(t, kms)
    ensures FromNew(s) && |s.procs| == 2 && s.procs[0].device.Some? && s.file.disk == Whole(Store.Empty())
    ensures var v := s.procs[0].device.value.view;
            v.stamp == s.file.stamp && |v.slots| > 0 && v.slots[0] == Some(DeviceSpec.NewToken(Added(t, clock, kms)))
  {
    var a, f, point := Added(t, clock, kms), FirstAdded(t, clock, kms), LoadPoint(1, clock);
    AddsFirst(t, clock, kms);
    Boots(f, clock, 0);
    RemovesFirst(f, clock, clock, HalfBooted(One(a), point, 2), a, kms);
    var f2 := Removed(f, a, clock, kms);
    BootEnds(f2, clock, clock, One(a), point, 2);
    s := Pair(f2, clock, clock, Proc(Idle, Some(BootedDevice(f2, One(a), point))));
    SweepOne(a, clock);
  }

  /* ---------- A slot that is emptied and filled again between two reloads ---------- */

  /** A device built from one live token, with a session open on it. */
  function Opened(a: Token): DeviceSpec.DeviceView {
    var open := DeviceSpec.NewToken(a).(sessions := map[1 := DeviceSpec.RoPublic]);
    DeviceSpec.DeviceView(DeviceSpec.Built(One(a))[0 := Some(open)], map[1 := 0], 2, 2)
  }

  lemma Opens(a: Token, clock: nat)
    requires !Expired(a, clock)
    ensures var v := DeviceSpec.DeviceView(DeviceSpec.Built(One(a)), map[], 1, 2);
            DeviceSpec.Step(v, DeviceSpec.Event(clock, DeviceSpec.Open(0))).0 == Opened(a)
  {
    var v := DeviceSpec.DeviceView(DeviceSpec.Built(One(a)), map[], 1, 2);
    assert v.slots[0] == Some(DeviceSpec.NewToken(a));
    var v' := DeviceSpec.Step(v, DeviceSpec.Event(clock, DeviceSpec.Open(0))).0;
    assert v'.slots[0].value.sessions == map[1 := DeviceSpec.RoPublic];
  }

  /** The device is started and a session opened. */
  lemma Opening(t: NewToken, clock: nat, kms: Kms) returns (d: Device)
    requires Acceptable(t, kms)
    ensures d.view == Opened(Added(t, clock, kms))
    ensures FromNew(Pair(FirstAdded(t, clock, kms), clock, clock, Proc(Idle, Some(d))))
  {
    var a, f, point := Added(t, clock, kms), FirstAdded(t, clock, kms), LoadPoint(1, clock);
    AddsFirst(t, clock, kms);
    Boots(f, clock, 0);
    BootEnds(f, clock, clock, One(a), point, 2);
    SweepOne(a, clock);
    Opens(a, clock);
    Uses(f, clock, clock, BootedDevice(f, One(a), point), DeviceSpec.Open(0));
    var booted := BootedDevice(f, One(a), point);
    d := booted.(view := DeviceSpec.Step(booted.view, DeviceSpec.Event(clock, DeviceSpec.Open(0))).0);
  }

  /** The slot's token is removed and another one added. */
  lemma Refilling(f: File, clock: nat, device: Proc, a: Token, t: NewToken, kms: Kms) returns (f': File)
    requires FromNew(Pair(f, clock, clock, device)) && Unlocked(device) && f.disk == Whole(One(a)) && f.used == {0, 1, 2}
    requires CheckPinLabel(a.pin, a.name).None? && !Expired(a, clock) && Acceptable(t, kms)
    ensures FromNew(Pair(f', clock, clock, device))
    ensures f'.disk == Whole(One(Added(t, clock, kms))) && f'.stamp == 6
  {
    RemovesFirst(f, clock, clock, device, a, kms);
    Adds(t, clock, kms);
    var f1 := Removed(f, a, clock, kms);
    Serves(f1, clock, clock, device, AddToken(t), kms, 5, 6);
    f' := Served(f1, Adding(t, clock, kms), Store.Empty(), 5, 6);
  }

  lemma KeepsOld(a: Token, b: Token, clock: nat, stamp: nat)
    requires !Expired(b, clock)
    ensures var v := DeviceSpec.Reloaded(Opened(a), Sweep(One(b), clock), clock).(stamp := stamp);
            && |v.slots| > 0 && v.slots[0].Some? && v.slots[0].value.built == a && v.slots[0].value.expiry == b.expiry
            && DeviceSpec.Step(v, DeviceSpec.Event(clock, DeviceSpec.Login(1, a.pin))).1.Done?
  {
    SweepOne(b, clock);
    var v := DeviceSpec.Reloaded(Opened(a), One(b), clock).(stamp := stamp);
    assert v.index == map[1 := 0];
    assert v.slots[0] == DeviceSpec.ReloadedSlot(Opened(a).slots[0], One(b)[0]);
  }

  /** On a new file: add A, start a device and open a session, remove A, add B, reload. The stamps agree,
      the file holds B, and the device holds A under B's expiry and accepts A's PIN. */
  lemma OldTokenStays(ta: NewToken, tb: NewToken, clock: nat, kms: Kms) returns (s: State)
    requires Acceptable(ta, kms) && Acceptable(tb, kms)
    ensures FromNew(s) && InStep(s, 0) && s.file.disk == Whole(One(Added(tb, clock, kms)))
    ensures var v := s.procs[0].device.value.view;
            && |v.slots| > 0 && v.slots[0].Some?
            && v.slots[0].value.built == Added(ta, clock, kms) && v.slots[0].value.expiry == Added(tb, clock, kms).expiry
            && DeviceSpec.Step(v, DeviceSpec.Event(s.clock, DeviceSpec.Login(1, ta.pin))).1.Done?
  {
    var a, b := Added(ta, clock, kms), Added(tb, clock, kms);
    var d := Opening(ta, clock, kms);
    AddsFirst(ta, clock, kms);
    var f := Refilling(FirstAdded(ta, clock, kms), clock, Proc(Idle, Some(d)), a, tb, kms);
    Reloads(f, clock, clock, d);
    s := Pair(f, clock, clock, Proc(Idle, Some(ReloadedDevice(f, clock, d))));
    KeepsOld(a, b, clock, f.stamp);
  }
}
