/**
 What a device holds, against what the file holds. A reload takes over nothing but the expiry of a
 token, and empties slots; so the tokens of a device are those of the slots it was built from.
 */
module DeviceCopy {
  import opened Common
  import opened Store
  import opened ConfigFile
  import opened FileClock
  import DeviceSpec

  /** The same label, PIN and keys. */
  predicate SameToken(a: Token, b: Token) {
    a.name == b.name && a.pin == b.pin && a.keys == b.keys
  }

  /** Slot `i` as the device's k-th load found it; the 0-th is the one it was built from. */
  function SlotAt(f: File, d: Device, k: nat, i: nat): Option<Token>
    requires k < |d.loads|
  {
    var slots := LoadedAt(f, d.loads[k]);
    if i < |slots| then slots[i] else None
  }

  /** Every load, the first included, found a token in the slot. */
  ghost predicate AlwaysFound(f: File, d: Device, i: nat) {
    forall k | 0 <= k < |d.loads| :: SlotAt(f, d, k, i).Some?
  }

  /** A slot of the device holds a token exactly when every load found one there; it is the token of
      the first load with the expiry of the last. */
  ghost predicate SlotOk(f: File, d: Device, i: nat)
    requires i < |d.view.slots| && d.loads != []
  {
    && (d.view.slots[i].Some? <==> AlwaysFound(f, d, i))
    && (d.view.slots[i].Some? ==>
          && d.view.slots[i].value.built == SlotAt(f, d, 0, i).value
          && d.view.slots[i].value.expiry == SlotAt(f, d, |d.loads| - 1, i).value.expiry)
  }

  ghost predicate Copied(f: File, d: Device) {
    && d.loads != [] && |d.view.slots| == |f.initial|
    && forall i | 0 <= i < |d.view.slots| :: SlotOk(f, d, i)
  }

  ghost predicate CopiedProc(f: File, proc: Proc) {
    proc.device.Some? ==> Copied(f, proc.device.value)
  }

  lemma {:induction false} RunLength(slots: Slots, calls: seq<Call>)
    ensures |Run(slots, calls)| == |slots|
  {
    if calls != [] {
      var n := |calls| - 1;
      RunLength(slots, calls[..n]);
      StepFrame(Run(slots, calls[..n]), calls[n].req, calls[n].env);
    }
  }

  lemma LoadedLength(f: File, point: LoadPoint)
    ensures |LoadedAt(f, point)| == |f.initial|
  {
    RunLength(f.initial, f.log);
    if point.at <= |f.log| {
      RunLength(f.initial, f.log[..point.at]);
    }
  }

  /* ---------- Every action keeps the relation ---------- */

  /** The log grows and the device stays. */
  lemma GrowKeepsCopy(f: File, f': File, d: Device)
    requires Copied(f, d) && f.log <= f'.log && f'.initial == f.initial
    requires forall k | 0 <= k < |d.loads| :: d.loads[k].at <= |f.log|
    ensures Copied(f', d)
  {
    forall k | 0 <= k < |d.loads| ensures LoadedAt(f', d.loads[k]) == LoadedAt(f, d.loads[k]) {
      LoadsKept(f, f', d.loads[k]);
    }
    forall i | 0 <= i < |d.view.slots| ensures SlotOk(f', d, i) {
      assert SlotOk(f, d, i);
      assert forall k | 0 <= k < |d.loads| :: SlotAt(f', d, k, i) == SlotAt(f, d, k, i);
    }
  }

  lemma BootCopies(f: File, point: LoadPoint, stamp: nat, sound: bool)
    ensures var view := DeviceSpec.DeviceView(DeviceSpec.Built(LoadedAt(f, point)), map[], 1, stamp);
            Copied(f, Device(view, [point], sound))
  {
    LoadedLength(f, point);
    var view := DeviceSpec.DeviceView(DeviceSpec.Built(LoadedAt(f, point)), map[], 1, stamp);
    var d := Device(view, [point], sound);
    forall i | 0 <= i < |d.view.slots| ensures SlotOk(f, d, i) {
      assert d.loads[0] == point;
      assert AlwaysFound(f, d, i) <==> SlotAt(f, d, 0, i).Some?;
    }
  }

  lemma ReloadCopies(f: File, d: Device, point: LoadPoint, now: nat, stamp: nat)
    requires Copied(f, d)
    ensures var view := DeviceSpec.Reloaded(d.view, LoadedAt(f, point), now).(stamp := stamp);
            Copied(f, Device(view, d.loads + [point], true))
  {
    LoadedLength(f, point);
    var view := DeviceSpec.Reloaded(d.view, LoadedAt(f, point), now).(stamp := stamp);
    var d' := Device(view, d.loads + [point], true);
    forall i | 0 <= i < |d'.view.slots| ensures SlotOk(f, d', i) {
      assert SlotOk(f, d, i);
      FoundAgain(f, d, d', point, i);
      assert d'.view.slots[i] == DeviceSpec.ReloadedSlot(d.view.slots[i], LoadedAt(f, point)[i]);
    }
  }

  lemma FoundAgain(f: File, d: Device, d': Device, point: LoadPoint, i: nat)
    requires d.loads != [] && d'.loads == d.loads + [point]
    ensures AlwaysFound(f, d', i) <==> AlwaysFound(f, d, i) && SlotAt(f, d', |d.loads|, i).Some?
    ensures SlotAt(f, d', 0, i) == SlotAt(f, d, 0, i)
  {
    assert forall k | 0 <= k < |d.loads| :: SlotAt(f, d', k, i) == SlotAt(f, d, k, i);
    if AlwaysFound(f, d', i) {
      forall k | 0 <= k < |d.loads| ensures SlotAt(f, d, k, i).Some? {
        assert SlotAt(f, d', k, i).Some?;
      }
    }
  }

  /** The calls on a device other than a reload leave its tokens what they are. */
  lemma UseKeepsTokens(v: DeviceSpec.DeviceView, ev: DeviceSpec.Event)
    requires !ev.op.FindMut?
    ensures var v' := DeviceSpec.Step(v, ev).0;
            && |v'.slots| == |v.slots|
            && forall i | 0 <= i < |v.slots| ::
                 && (v'.slots[i].Some? <==> v.slots[i].Some?)
                 && (v.slots[i].Some? ==>
                       v'.slots[i].value.built == v.slots[i].value.built && v'.slots[i].value.expiry == v.slots[i].value.expiry)
  {
  }

  lemma UseCopies(f: File, d: Device, ev: DeviceSpec.Event)
    requires Copied(f, d) && !ev.op.FindMut?
    ensures Copied(f, d.(view := DeviceSpec.Step(d.view, ev).0))
  {
    UseKeepsTokens(d.view, ev);
    var d' := d.(view := DeviceSpec.Step(d.view, ev).0);
    forall i | 0 <= i < |d'.view.slots| ensures SlotOk(f, d', i) {
      assert SlotOk(f, d, i);
      assert forall k | 0 <= k < |d.loads| :: SlotAt(f, d', k, i) == SlotAt(f, d, k, i);
    }
  }

  /** What an action does to the file and to the devices of the others. */
  lemma ActFrame(s: State, a: Action, q: nat)
    requires Act(s, a).Some? && q < |s.procs|
    ensures var s' := Act(s, a).value;
            && |s'.procs| == |s.procs| && s.file.log <= s'.file.log && s'.file.initial == s.file.initial
            && (a.Tick? || a.p != q || !(a.ReadStamp? || a.StoreStamp? || a.Use?) ==> s'.procs[q].device == s.procs[q].device)
            && (a.ReadStamp? || a.StoreStamp? || a.Use? ==> s'.file == s.file)
  {
  }

  lemma DeviceActCopies(s: State, a: Action)
    requires ConfigFile.Inv(s) && (a.ReadStamp? || a.StoreStamp? || a.Use?) && a.p < |s.procs|
    requires DeviceAct(s, a).Some? && CopiedProc(s.file, s.procs[a.p])
    ensures CopiedProc(s.file, DeviceAct(s, a).value.procs[a.p])
  {
    var pc, device := s.procs[a.p].pc, s.procs[a.p].device;
    assert PcOk(s.file, s.procs[a.p]);
    if a.ReadStamp? && pc.BootLoaded? {
      BootCopies(s.file, pc.point, s.file.stamp, s.file.disk == Whole(RawAt(s.file, pc.point)));
    } else if a.StoreStamp? {
      ReloadCopies(s.file, device.value, pc.point, s.clock, pc.mtime);
    } else if a.Use? {
      UseCopies(s.file, device.value, DeviceSpec.Event(a.now, a.op));
    }
  }

  lemma ActKeepsCopies(s: State, a: Action, q: nat)
    requires ConfigFile.Inv(s) && Act(s, a).Some? && q < |s.procs| && CopiedProc(s.file, s.procs[q])
    ensures q < |Act(s, a).value.procs| && CopiedProc(Act(s, a).value.file, Act(s, a).value.procs[q])
  {
    var s' := Act(s, a).value;
    ActFrame(s, a, q);
    assert DeviceOk(s.file, s.procs[q]);
    if !a.Tick? && a.p == q && (a.ReadStamp? || a.StoreStamp? || a.Use?) {
      DeviceActCopies(s, a);
    } else if s.procs[q].device.Some? {
      GrowKeepsCopy(s.file, s'.file, s.procs[q].device.value);
    }
  }

  lemma {:induction false} ExecKeepsCopies(s: State, actions: seq<Action>, q: nat)
    requires ConfigFile.Inv(s) && Exec(s, actions).Some? && q < |Exec(s, actions).value.procs|
    requires forall r | 0 <= r < |s.procs| :: s.procs[r].device.None?
    ensures CopiedProc(Exec(s, actions).value.file, Exec(s, actions).value.procs[q])
  {
    if actions != [] {
      var before, a := actions[..|actions| - 1], actions[|actions| - 1];
      var t := Exec(s, before).value;
      ExecKeepsInv(s, before);
      ActProcs(t, a);
      ExecKeepsCopies(s, before, q);
      ActKeepsCopies(t, a, q);
    }
  }

  lemma ActProcs(s: State, a: Action)
    requires Act(s, a).Some?
    ensures |Act(s, a).value.procs| == |s.procs|
  {
  }

  /** In every interleaving, what each slot of each device holds. */
  lemma ReachableCopies(s: State, p: nat)
    requires Reachable(s) && p < |s.procs| && s.procs[p].device.Some?
    ensures Copied(s.file, s.procs[p].device.value)
  {
    var slots: Slots, n: nat, stamp: nat, clock: nat, actions: seq<Action> :|
      Exec(Start(slots, n, stamp, clock), actions) == Some(s);
    StartInv(slots, n, stamp, clock);
    ExecKeepsCopies(Start(slots, n, stamp, clock), actions, p);
  }

  /* ---------- When the stamps agree ---------- */

  /** Process `p` has a device that reloaded, or agreed when it was built, under the file's stamp. */
  ghost predicate InStep(s: State, p: nat) {
    && p < |s.procs| && s.procs[p].device.Some? && s.procs[p].device.value.sound
    && s.procs[p].device.value.view.stamp == s.file.stamp
  }

  function Last(d: Device): LoadPoint
    requires d.loads != []
  {
    d.loads[|d.loads| - 1]
  }

  /** The token of a device slot is this stored token: label, PIN, keys and expiry. */
  predicate Holds(t: Option<DeviceSpec.TokenView>, stored: Option<Token>) {
    t.Some? && stored.Some? && SameToken(t.value.built, stored.value) && t.value.expiry == stored.value.expiry
  }

  /** The stored slots, less what had expired when the device last looked. */
  function Seen(s: State, d: Device): Slots
    requires d.loads != []
  {
    Sweep(Content(s.file), Last(d).time)
  }

  /** Every load found a token in the slot, and the first had the label, PIN and keys of the last. */
  ghost predicate FirstIsLast(s: State, d: Device, i: nat)
    requires d.loads != [] && i < |Seen(s, d)|
  {
    && AlwaysFound(s.file, d, i) && Seen(s, d)[i].Some?
    && SameToken(SlotAt(s.file, d, 0, i).value, Seen(s, d)[i].value)
  }

  lemma InStepFacts(s: State, p: nat)
    requires Reachable(s) && InStep(s, p)
    ensures var d := s.procs[p].device.value;
            && Copied(s.file, d) && s.file.disk == Whole(Content(s.file))
            && |Content(s.file)| == |s.file.initial|
            && LoadedAt(s.file, Last(d)) == Seen(s, d)
  {
    ReachableCopies(s, p);
    ReloadCoherent(s, p);
    RunLength(s.file.initial, s.file.log);
  }

  /** What is known of one slot. */
  lemma SlotFacts(s: State, p: nat, i: nat)
    requires Reachable(s) && InStep(s, p) && i < |s.procs[p].device.value.view.slots|
    ensures var d := s.procs[p].device.value;
            && d.loads != [] && SlotOk(s.file, d, i)
            && i < |Content(s.file)| && s.file.disk == Whole(Content(s.file))
            && SlotAt(s.file, d, |d.loads| - 1, i) == Kept(Content(s.file)[i], Last(d).time)
  {
    InStepFacts(s, p);
  }

  /** A token of the device is backed by a stored token in the same slot with the same expiry. */
  lemma TokenIsStored(s: State, p: nat, i: nat)
    requires Reachable(s) && InStep(s, p)
    requires i < |s.procs[p].device.value.view.slots| && s.procs[p].device.value.view.slots[i].Some?
    ensures s.file.disk.Whole? && i < |s.file.disk.slots| && s.file.disk.slots[i].Some?
    ensures s.file.disk.slots[i].value.expiry == s.procs[p].device.value.view.slots[i].value.expiry
  {
    SlotFacts(s, p, i);
    var d := s.procs[p].device.value;
    assert SlotAt(s.file, d, |d.loads| - 1, i).Some?;
  }

  /** A slot of the device holds the stored token exactly when every load since the device was built,
      that one included, found a token there, and the first had the label, PIN and keys of the last. */
  lemma HoldsIff(s: State, p: nat, i: nat)
    requires Reachable(s) && InStep(s, p) && i < |s.procs[p].device.value.view.slots|
    ensures s.procs[p].device.value.loads != []
    ensures var d := s.procs[p].device.value;
            && i < |Seen(s, d)|
            && (Holds(d.view.slots[i], Seen(s, d)[i]) <==> FirstIsLast(s, d, i))
  {
    SlotFacts(s, p, i);
    var d := s.procs[p].device.value;
    assert Seen(s, d)[i] == Kept(Content(s.file)[i], Last(d).time);
  }

  /* ---------- In terms of the saved requests ---------- */

  /** A request that puts a token into slot `i`, takes it out, or updates it. */
  predicate Touches(before: Slots, call: Call, i: nat) {
    var live := Sweep(before, call.env.load);
    && Answered(call, before).Ok?
    && match call.req
       case AddToken(_) => FindFree(live) == Some(i)
       case RemoveToken(name, _) => FindLabel(live, name) == Some(i)
       case UpdateToken(name, _, _) => FindLabel(live, name) == Some(i)
       case _ => false
  }

  /** Slot `i` after the first `n` saved requests. */
  function StoredAt(f: File, n: nat, i: nat): Option<Token>
    requires n <= |f.log|
  {
    var slots := Run(f.initial, f.log[..n]);
    if i < |slots| then slots[i] else None
  }

  /** No request saved at or after position `from` touches slot `i`. */
  ghost predicate Untouched(f: File, from: nat, i: nat) {
    forall k | from <= k < |f.log| :: !TouchedBy(f, k, i)
  }

  predicate TouchedBy(f: File, k: nat, i: nat)
    requires k < |f.log|
  {
    Touches(Run(f.initial, f.log[..k]), f.log[k], i)
  }

  lemma UntouchedStep(before: Slots, call: Call, i: nat)
    requires Mutating(call.req) && Answered(call, before).Ok? && !Touches(before, call, i)
    requires i < |Effect(call, before)| && Effect(call, before)[i].Some?
    ensures i < |before| && before[i].Some? && SameToken(before[i].value, Effect(call, before)[i].value)
    ensures before[i].value.expiry > call.env.load
  {
    StepFrame(before, call.req, call.env);
  }

  lemma NextStored(f: File, n: nat)
    requires n < |f.log|
    ensures Run(f.initial, f.log[..n + 1]) == Effect(f.log[n], Run(f.initial, f.log[..n]))
  {
    assert f.log[..n + 1] == f.log[..n] + [f.log[n]];
    RunSnoc(f.initial, f.log[..n], f.log[n]);
  }

  lemma UntouchedOne(f: File, n: nat, i: nat)
    requires n < |f.log| && SavedOk(f, n)
    requires !TouchedBy(f, n, i) && StoredAt(f, n + 1, i).Some?
    ensures StoredAt(f, n, i).Some? && SameToken(StoredAt(f, n, i).value, StoredAt(f, n + 1, i).value)
    ensures StoredAt(f, n, i).value.expiry > f.log[n].env.load
  {
    NextStored(f, n);
    var before := Run(f.initial, f.log[..n]);
    UntouchedStep(before, f.log[n], i);
  }

  /** Slot by slot history: what is there at the end, and each time came from what was there alive before,
      was there all along. */
  lemma {:induction false} Backwards(hist: seq<Option<Token>>, loads: seq<nat>, from: nat, last: nat)
    requires from <= last < |hist| && |loads| + 1 == |hist| && hist[last].Some?
    requires forall n | from <= n < |loads| && hist[n + 1].Some? ::
               hist[n].Some? && SameToken(hist[n].value, hist[n + 1].value) && hist[n].value.expiry > loads[n]
    ensures hist[from].Some? && SameToken(hist[from].value, hist[last].value)
    ensures from < last ==> hist[from].value.expiry > loads[from]
    decreases last - from
  {
    if from < last {
      Backwards(hist, loads, from, last - 1);
    }
  }

  /** A token still stored at the end was there all along, and alive at every load in between. */
  lemma UntouchedBack(f: File, from: nat, i: nat)
    requires Logged(f) && from <= |f.log| && Untouched(f, from, i) && StoredAt(f, |f.log|, i).Some?
    ensures StoredAt(f, from, i).Some? && SameToken(StoredAt(f, from, i).value, StoredAt(f, |f.log|, i).value)
    ensures from < |f.log| ==> StoredAt(f, from, i).value.expiry > f.log[from].env.load
  {
    var hist := seq(|f.log| + 1, n requires 0 <= n <= |f.log| => StoredAt(f, n, i));
    var loads := seq(|f.log|, n requires 0 <= n < |f.log| => f.log[n].env.load);
    forall n | from <= n < |f.log| && hist[n + 1].Some?
      ensures hist[n].Some? && SameToken(hist[n].value, hist[n + 1].value) && hist[n].value.expiry > loads[n]
    {
      assert SavedOk(f, n) && !TouchedBy(f, n, i);
      UntouchedOne(f, n, i);
    }
    Backwards(hist, loads, from, |f.log|);
  }

  /** So every load in between found it. */
  lemma UntouchedFound(f: File, read: nat, point: LoadPoint, last: LoadPoint, i: nat)
    requires Logged(f) && PointOk(f.log, read, point) && Earlier(point, last) && Untouched(f, point.at, i)
    requires i < |Content(f)| && Sweep(Content(f), last.time)[i].Some?
    ensures i < |LoadedAt(f, point)| && LoadedAt(f, point)[i].Some?
    ensures SameToken(LoadedAt(f, point)[i].value, Content(f)[i].value)
  {
    assert f.log[..|f.log|] == f.log;
    assert StoredAt(f, |f.log|, i) == Content(f)[i];
    UntouchedBack(f, point.at, i);
    var raw := Run(f.initial, f.log[..point.at]);
    assert raw == RawAt(f, point);
    if point.at < |f.log| {
      assert point.time <= f.log[point.at].env.load;
    }
    assert raw[i].value.expiry > point.time;
    assert LoadedAt(f, point)[i] == Kept(raw[i], point.time);
  }

  /** The loads of a device in time. */
  lemma LoadFacts(s: State, p: nat)
    requires Reachable(s) && p < |s.procs| && s.procs[p].device.Some?
    ensures Logged(s.file) && LoadsOk(s.file.log, s.read, s.procs[p].device.value.loads)
  {
    ReachableTimes(s);
    assert ProcTimes(s.file.log, s.clock, s.read, s.procs[p]);
  }

  /** In an untouched slot each load found the token that is stored now. */
  lemma UntouchedLoad(f: File, read: nat, d: Device, i: nat, k: nat)
    requires k < |d.loads| && Logged(f) && LoadsOk(f.log, read, d.loads)
    requires Untouched(f, d.loads[0].at, i) && i < |Content(f)| && Sweep(Content(f), Last(d).time)[i].Some?
    ensures SlotAt(f, d, k, i).Some? && SameToken(SlotAt(f, d, k, i).value, Content(f)[i].value)
  {
    assert PointOk(f.log, read, d.loads[k]) && Earlier(d.loads[0], d.loads[k]) && Earlier(d.loads[k], Last(d));
    assert Untouched(f, d.loads[k].at, i);
    UntouchedFound(f, read, d.loads[k], Last(d), i);
  }

  lemma UntouchedLoads(f: File, read: nat, d: Device, i: nat)
    requires d.loads != [] && Logged(f) && LoadsOk(f.log, read, d.loads)
    requires Untouched(f, d.loads[0].at, i) && i < |Content(f)| && Sweep(Content(f), Last(d).time)[i].Some?
    ensures AlwaysFound(f, d, i) && SameToken(SlotAt(f, d, 0, i).value, Content(f)[i].value)
  {
    UntouchedLoad(f, read, d, i, 0);
    forall k | 0 <= k < |d.loads| ensures SlotAt(f, d, k, i).Some? {
      UntouchedLoad(f, read, d, i, k);
    }
  }

  /** When no request saved since the device was built touched slot `i`, the device holds the stored
      token there exactly when there was one to build from and it is still stored. */
  lemma UntouchedIff(s: State, p: nat, i: nat)
    requires Reachable(s) && InStep(s, p) && i < |s.procs[p].device.value.view.slots|
    ensures s.procs[p].device.value.loads != []
    ensures var d := s.procs[p].device.value;
            && i < |Seen(s, d)|
            && (Untouched(s.file, d.loads[0].at, i) ==>
                  (Holds(d.view.slots[i], Seen(s, d)[i]) <==>
                     SlotAt(s.file, d, 0, i).Some? && Seen(s, d)[i].Some?))
  {
    HoldsIff(s, p, i);
    var d := s.procs[p].device.value;
    assert Seen(s, d)[i] == Kept(Content(s.file)[i], Last(d).time);
    if Untouched(s.file, d.loads[0].at, i) && Seen(s, d)[i].Some? {
      LoadFacts(s, p);
      UntouchedLoads(s.file, s.read, d, i);
    }
  }

  /* ---------- Which PIN logs in ---------- */

  /** In every interleaving and at every stamp, a login on a session takes the PIN that the token had
      when the device was built, whatever token the file now holds in that slot. */
  lemma LoginTakesBuiltPin(s: State, p: nat, h: nat, pin: Bytes)
    requires Reachable(s) && p < |s.procs| && s.procs[p].device.Some?
    requires var v := s.procs[p].device.value.view;
             DeviceSpec.Resolves(v, h, s.clock) && v.slots[v.index[h]].value.sessions[h].RoPublic?
    ensures var d := s.procs[p].device.value;
            && d.loads != [] && SlotAt(s.file, d, 0, d.view.index[h]).Some?
            && (pin == SlotAt(s.file, d, 0, d.view.index[h]).value.pin <==>
                  DeviceSpec.Step(d.view, DeviceSpec.Event(s.clock, DeviceSpec.Login(h, pin))).1.Done?)
  {
    ReachableCopies(s, p);
    var d := s.procs[p].device.value;
    assert SlotOk(s.file, d, d.view.index[h]);
  }
}
