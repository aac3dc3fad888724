/**
 The agent, the store and a device together: while the agent keeps its schedule, a device that looks
 at the file finds the agent's token unexpired.
 */
module AgentDevice {
  import opened Common
  import opened Store
  import opened StoreMap
  import opened ConfigFile
  import opened DeviceCopy
  import Agent = AgentSchedule
  import ConcurrentStore
  import FileClock
  import DeviceSpec

  /* ---------- The saved requests of an agent's run ---------- */

  function Saving(m: Table, call: Call): seq<Call> {
    if Mutating(call.req) && PlainStep(m, call.req, call.env).1.Ok? then [call] else []
  }

  /** What an event sends to the store besides describing. */
  function Sent(a: Agent.Agent, s: Agent.State, e: Agent.Event): Option<Call> {
    match e
    case Sync(_, _, load, stamp, _, _, kms) =>
      var req := Agent.Chosen(a, s, e);
      if req.None? then None else Some(Call(req.value, Env(Agent.Secs(load), Agent.Secs(stamp), kms)))
    case Foreign(load, later, req, kms) => Some(Call(req, Env(Agent.Secs(load), Agent.Secs(later), kms)))
  }

  /** The requests that a run saves, in order: the agent's and those of others. */
  function LogOf(a: Agent.Agent, s: Agent.State, run: seq<Agent.Event>): seq<Call>
    requires Agent.Exec(a, s, run).Some?
  {
    if run == [] then []
    else
      var before, e := run[..|run| - 1], run[|run| - 1];
      var t := Agent.Exec(a, s, before).value;
      LogOf(a, s, before) + if Sent(a, t, e).None? then [] else Saving(t.table, Sent(a, t, e).value)
  }

  lemma UnsavedLeaves(m: Table, call: Call)
    requires Saving(m, call) == []
    ensures PlainStep(m, call.req, call.env).0 == m
  {
  }

  lemma PlainSnoc(m: Table, log: seq<Call>, call: Call)
    ensures PlainRun(m, log + [call]) == PlainStep(PlainRun(m, log), call.req, call.env).0
  {
    assert (log + [call])[..|log|] == log;
  }

  lemma SentTable(a: Agent.Agent, s: Agent.State, e: Agent.Event)
    requires Agent.Apply(a, s, e).Some?
    ensures var t := Agent.Apply(a, s, e).value.table;
            if Sent(a, s, e).None? then t == s.table
            else t == PlainStep(s.table, Sent(a, s, e).value.req, Sent(a, s, e).value.env).0
  {
  }

  /** The table of a run is what its saved requests make. */
  lemma {:induction false} LogTable(a: Agent.Agent, s: Agent.State, run: seq<Agent.Event>)
    requires Agent.Exec(a, s, run).Some?
    ensures Agent.Exec(a, s, run).value.table == PlainRun(s.table, LogOf(a, s, run))
  {
    if run != [] {
      var before, e := run[..|run| - 1], run[|run| - 1];
      LogTable(a, s, before);
      var t := Agent.Exec(a, s, before).value;
      SentTable(a, t, e);
      var call := Sent(a, t, e);
      if call.Some? {
        if Saving(t.table, call.value) == [] {
          UnsavedLeaves(t.table, call.value);
          assert LogOf(a, s, before) + [] == LogOf(a, s, before);
        } else {
          PlainSnoc(s.table, LogOf(a, s, before), call.value);
        }
      } else {
        assert LogOf(a, s, before) + [] == LogOf(a, s, before);
      }
    }
  }

  /* ---------- The stored token is alive ---------- */

  /** The first `n` saved requests of the file are those of a run of the agent that keeps its bound, and
      as seen from there the next sync is not overdue: the file's clock shows no later than tick `d`. */
  ghost predicate OnSchedule(s: State, n: nat, a: Agent.Agent, created: nat, run: seq<Agent.Event>, d: nat) {
    && FromNew(s) && n <= |s.file.log| && Agent.Age(a) <= Agent.LIFETIME
    && Agent.Exec(a, Agent.Created(map[], created), run).Some?
    && s.file.log[..n] == LogOf(a, Agent.Created(map[], created), run)
    && var t := Agent.Exec(a, Agent.Created(map[], created), run).value;
       t.last.Some? && d <= t.last.value + a.maxGap && s.clock <= Agent.Secs(d)
  }

  /** The stored slots after so many saved requests. */
  function Stored(s: State, n: nat): Slots
    requires n <= |s.file.log|
  {
    Run(s.file.initial, s.file.log[..n])
  }

  lemma EntryAlive(a: Agent.Agent, created: nat, run: seq<Agent.Event>, d: nat)
    requires Agent.Age(a) <= Agent.LIFETIME && Agent.Exec(a, Agent.Created(map[], created), run).Some?
    requires var t := Agent.Exec(a, Agent.Created(map[], created), run).value;
             t.last.Some? && d <= t.last.value + a.maxGap
    ensures var t := Agent.Exec(a, Agent.Created(map[], created), run).value;
            a.name in t.table && t.table[a.name].expiry > Agent.Secs(d)
  {
    Agent.NoLapse(a, map[], created, run);
    var t := Agent.Exec(a, Agent.Created(map[], created), run).value;
    var ext: nat :| Agent.Kept(a, t, ext);
    Agent.KeptOnline(a, t, ext, d);
  }

  /** A stored slot stands for its entry. */
  lemma EntryOfSlot(slots: Slots, m: Table, name: Bytes, i: nat)
    requires Rel(slots, m) && name in m && FirstLabel(slots, name, i)
    ensures i < |slots| && slots[i].Some? && slots[i].value.expiry == m[name].expiry
  {
    RelFind(slots, m, name);
  }

  /** The agent's token is stored then, and will not have expired by now. */
  lemma SlotAlive(s: State, n: nat, a: Agent.Agent, created: nat, run: seq<Agent.Event>, d: nat, i: nat)
    requires OnSchedule(s, n, a, created, run, d) && FirstLabel(Stored(s, n), a.name, i)
    ensures i < |Stored(s, n)| && Stored(s, n)[i].Some? && Stored(s, n)[i].value.expiry > s.clock
  {
    EntryAlive(a, created, run, d);
    LogTable(a, Agent.Created(map[], created), run);
    ConcurrentStore.FromEmpty(s);
    ConcurrentStore.LogIsPlain(s.file.log[..n]);
    EntryOfSlot(Stored(s, n), PlainRun(map[], s.file.log[..n]), a.name, i);
  }

  /* ---------- So the device finds it ---------- */

  /** A session of the token that a device has in slot `i`. */
  predicate SessionIn(v: DeviceSpec.DeviceView, h: nat, i: nat) {
    && h in v.index && v.index[h] == i && i < |v.slots| && v.slots[i].Some? && h in v.slots[i].value.sessions
  }

  /** After a reload a session is found exactly when the slot got a token that is not past its expiry. */
  lemma AppliedIff(v: DeviceSpec.DeviceView, h: nat, i: nat, content: Slots, stamp: nat, now: nat)
    requires SessionIn(v, h, i) && i < |content|
    ensures DeviceSpec.Resolves(DeviceSpec.Reloaded(v, content, now).(stamp := stamp), h, now)
            <==> content[i].Some? && now <= content[i].value.expiry
  {
    var w := DeviceSpec.Reloaded(v, content, now);
    assert w.slots[i] == DeviceSpec.ReloadedSlot(v.slots[i], content[i]);
    if content[i].Some? {
      assert !DeviceSpec.Released(v, content, i, now);
    }
  }

  /** What a reload under way has loaded. */
  lemma LoadedFacts(s: State, p: nat)
    requires Reachable(s) && p < |s.procs| && s.procs[p].pc.ReloadLoaded?
    ensures var pc := s.procs[p].pc;
            && pc.point.at <= |s.file.log| && pc.point.time <= s.clock
            && pc.content == Sweep(Stored(s, pc.point.at), pc.point.time)
  {
    ReachableInv(s);
    FileClock.ReachableTimes(s);
    assert PcOk(s.file, s.procs[p]);
    assert FileClock.ProcTimes(s.file.log, s.clock, s.read, s.procs[p]);
  }

  predicate Reloading(pc: Pc) {
    pc.ReloadWaiting? || pc.ReloadHolding? || pc.ReloadLoaded?
  }

  lemma OwnStep(s: State, a: Action)
    requires ConfigFile.Inv(s) && Act(s, a).Some? && !a.Tick? && Reloading(s.procs[a.p].pc) && !a.StoreStamp?
    ensures var s' := Act(s, a).value;
            |s'.procs| == |s.procs| && Reloading(s'.procs[a.p].pc) && s'.procs[a.p].device == s.procs[a.p].device
  {
    if a.Load? {
      LoadSeesWhole(s, a.p);
    }
  }

  /** Up to its last step a reload leaves the device as it is, whatever happens in between. */
  lemma ReloadGoesOn(s: State, a: Action, p: nat)
    requires ConfigFile.Inv(s) && Act(s, a).Some? && p < |s.procs| && Reloading(s.procs[p].pc) && a != StoreStamp(p)
    ensures p < |Act(s, a).value.procs| && Reloading(Act(s, a).value.procs[p].pc)
    ensures Act(s, a).value.procs[p].device == s.procs[p].device
  {
    if a.Tick? || a.p != p {
      OthersLeave(s, a, p);
    } else {
      OwnStep(s, a);
    }
  }

  lemma {:induction false} ReloadUnderWay(s: State, mid: seq<Action>, p: nat)
    requires ConfigFile.Inv(s) && Exec(s, mid).Some? && p < |s.procs| && Reloading(s.procs[p].pc)
    requires forall k | 0 <= k < |mid| :: mid[k] != StoreStamp(p)
    ensures var t := Exec(s, mid).value;
            ConfigFile.Inv(t) && p < |t.procs| && Reloading(t.procs[p].pc) && t.procs[p].device == s.procs[p].device
  {
    if mid != [] {
      var n := |mid| - 1;
      ReloadUnderWay(s, mid[..n], p);
      ReloadGoesOn(Exec(s, mid[..n]).value, mid[n], p);
      ActKeepsInv(Exec(s, mid[..n]).value, mid[n]);
    }
  }

  /** The end of a reload, in any interleaving: the session is found exactly when the file, as it was
      loaded, had a token in the slot that had not expired then and is not past its expiry now. */
  lemma ReloadFindsIff(s: State, p: nat, s': State, h: nat, i: nat)
    requires Reachable(s) && p < |s.procs| && s.procs[p].pc.ReloadLoaded? && Act(s, StoreStamp(p)) == Some(s')
    requires s.procs[p].device.Some? && SessionIn(s.procs[p].device.value.view, h, i)
    ensures s.procs[p].pc.point.at <= |s.file.log| && i < |Stored(s, s.procs[p].pc.point.at)|
    ensures p < |s'.procs| && s'.procs[p].device.Some?
    ensures var stored := Stored(s, s.procs[p].pc.point.at)[i];
            DeviceSpec.Resolves(s'.procs[p].device.value.view, h, s'.clock)
            <==> Kept(stored, s.procs[p].pc.point.time).Some? && s.clock <= stored.value.expiry
  {
    LoadedFacts(s, p);
    ReachableCopies(s, p);
    var pc, v := s.procs[p].pc, s.procs[p].device.value.view;
    RunLength(s.file.initial, s.file.log[..pc.point.at]);
    AppliedIff(v, h, i, pc.content, pc.mtime, s.clock);
    StoreIs(s, p);
  }

  /** A reload from reading the stamp to storing it, with any steps of other processes and of the clock in
      between; `s` is the state before the last step. */
  ghost predicate ReloadRun(s0: State, p: nat, mid: seq<Action>, s: State, s': State) {
    && p < |s0.procs| && s0.procs[p].device.Some? && Act(s0, ReadStamp(p)).Some?
    && Exec(Act(s0, ReadStamp(p)).value, mid) == Some(s) && (forall k | 0 <= k < |mid| :: mid[k] != StoreStamp(p))
    && p < |s.procs| && s.procs[p].pc.ReloadLoaded? && Act(s, StoreStamp(p)) == Some(s')
  }

  lemma ReloadRunKeeps(s0: State, p: nat, mid: seq<Action>, s: State, s': State)
    requires FromNew(s0) && ReloadRun(s0, p, mid, s, s')
    ensures s.procs[p].device == s0.procs[p].device
  {
    ConcurrentStore.FromEmpty(s0);
    ReachableInv(s0);
    ActKeepsInv(s0, ReadStamp(p));
    StartsReload(s0, p);
    ReloadUnderWay(Act(s0, ReadStamp(p)).value, mid, p);
  }

  lemma AliveThroughout(s: State, p: nat, a: Agent.Agent, created: nat, run: seq<Agent.Event>, d: nat, i: nat)
    requires p < |s.procs| && s.procs[p].pc.ReloadLoaded?
    requires OnSchedule(s, s.procs[p].pc.point.at, a, created, run, d)
    requires FirstLabel(Stored(s, s.procs[p].pc.point.at), a.name, i)
    ensures Reachable(s) && i < |Stored(s, s.procs[p].pc.point.at)|
    ensures var stored := Stored(s, s.procs[p].pc.point.at)[i];
            Kept(stored, s.procs[p].pc.point.time).Some? && s.clock <= stored.value.expiry
  {
    ConcurrentStore.FromEmpty(s);
    SlotAlive(s, s.procs[p].pc.point.at, a, created, run, d, i);
    LoadedFacts(s, p);
  }

  /** When the agent is on schedule as of the load, the session of its token's slot is found at the end of
      such a reload, and the token unexpired. */
  lemma ReloadFinds(s0: State, p: nat, mid: seq<Action>, s: State, s': State,
                    a: Agent.Agent, created: nat, run: seq<Agent.Event>, d: nat, i: nat, h: nat)
    requires FromNew(s0) && ReloadRun(s0, p, mid, s, s') && SessionIn(s0.procs[p].device.value.view, h, i)
    requires OnSchedule(s, s.procs[p].pc.point.at, a, created, run, d)
    requires FirstLabel(Stored(s, s.procs[p].pc.point.at), a.name, i)
    ensures p < |s'.procs| && s'.procs[p].device.Some?
    ensures DeviceSpec.Resolves(s'.procs[p].device.value.view, h, s'.clock)
  {
    ReloadRunKeeps(s0, p, mid, s, s');
    EndFinds(s, p, s', a, created, run, d, i, h);
  }

  lemma EndFinds(s: State, p: nat, s': State, a: Agent.Agent, created: nat, run: seq<Agent.Event>, d: nat, i: nat, h: nat)
    requires p < |s.procs| && s.procs[p].pc.ReloadLoaded? && Act(s, StoreStamp(p)) == Some(s')
    requires s.procs[p].device.Some? && SessionIn(s.procs[p].device.value.view, h, i)
    requires OnSchedule(s, s.procs[p].pc.point.at, a, created, run, d)
    requires FirstLabel(Stored(s, s.procs[p].pc.point.at), a.name, i)
    ensures p < |s'.procs| && s'.procs[p].device.Some?
    ensures DeviceSpec.Resolves(s'.procs[p].device.value.view, h, s'.clock)
  {
    AliveThroughout(s, p, a, created, run, d, i);
    ReloadFindsIff(s, p, s', h, i);
  }

  lemma StartsReload(s: State, p: nat)
    requires ConfigFile.Inv(s) && Act(s, ReadStamp(p)).Some? && s.procs[p].device.Some?
    ensures var s' := Act(s, ReadStamp(p)).value;
            p < |s'.procs| && Reloading(s'.procs[p].pc) && s'.procs[p].device == s.procs[p].device
  {
    assert PcOk(s.file, s.procs[p]);
  }

  /** A device in step with the file finds the session without a reload. */
  lemma InStepFinds(s: State, p: nat, a: Agent.Agent, created: nat, run: seq<Agent.Event>, d: nat, i: nat, h: nat)
    requires OnSchedule(s, |s.file.log|, a, created, run, d) && FirstLabel(Content(s.file), a.name, i)
    requires InStep(s, p) && SessionIn(s.procs[p].device.value.view, h, i)
    ensures DeviceSpec.Resolves(s.procs[p].device.value.view, h, s.clock)
  {
    NowAlive(s, a, created, run, d, i);
    assert Reachable(s) by {
      ConcurrentStore.FromEmpty(s);
    }
    TokenIsStored(s, p, i);
    InStepFacts(s, p);
  }

  lemma NowAlive(s: State, a: Agent.Agent, created: nat, run: seq<Agent.Event>, d: nat, i: nat)
    requires OnSchedule(s, |s.file.log|, a, created, run, d) && FirstLabel(Content(s.file), a.name, i)
    ensures i < |Content(s.file)| && Content(s.file)[i].Some? && Content(s.file)[i].value.expiry > s.clock
  {
    assert s.file.log[..|s.file.log|] == s.file.log;
    SlotAlive(s, |s.file.log|, a, created, run, d, i);
  }

  /** A device in step that was built when the slot held a token, with no request since that added to,
      removed from or updated the slot, holds the agent's own token there, unexpired. */
  lemma UntouchedAlive(s: State, p: nat, a: Agent.Agent, created: nat, run: seq<Agent.Event>, d: nat, i: nat)
    requires OnSchedule(s, |s.file.log|, a, created, run, d) && FirstLabel(Content(s.file), a.name, i)
    requires InStep(s, p) && i < |s.procs[p].device.value.view.slots|
    requires var dev := s.procs[p].device.value;
             dev.loads != [] && Untouched(s.file, dev.loads[0].at, i) && SlotAt(s.file, dev, 0, i).Some?
    ensures var t := s.procs[p].device.value.view.slots[i];
            && Holds(t, Content(s.file)[i]) && t.value.built.name == a.name && !t.value.Expired(s.clock)
  {
    NowAlive(s, a, created, run, d, i);
    assert Reachable(s) by {
      ConcurrentStore.FromEmpty(s);
    }
    UntouchedIff(s, p, i);
    LastLoadPast(s, p);
  }

  lemma LastLoadPast(s: State, p: nat)
    requires Reachable(s) && p < |s.procs| && s.procs[p].device.Some? && s.procs[p].device.value.loads != []
    ensures Last(s.procs[p].device.value).time <= s.clock
  {
    FileClock.ReachableTimes(s);
    assert FileClock.ProcTimes(s.file.log, s.clock, s.read, s.procs[p]);
    var loads := s.procs[p].device.value.loads;
    assert FileClock.PointOk(s.file.log, s.read, loads[|loads| - 1]);
  }
}
