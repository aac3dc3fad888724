/**
 All parts together: requests served concurrently under the file lock, against slots that start out
 empty, are answered as by one plain map that serves them one at a time; and what the devices hold
 is measured against that map.
 */
module ConcurrentStore {
  import opened Common
  import opened Store
  import opened StoreMap
  import opened ConfigFile
  import opened FileClock
  import opened DeviceCopy

  lemma {:induction false} ExecKeepsInitial(s: State, actions: seq<Action>)
    requires Exec(s, actions).Some?
    ensures Exec(s, actions).value.file.initial == s.file.initial
  {
    if actions != [] {
      var before, a := actions[..|actions| - 1], actions[|actions| - 1];
      ExecKeepsInitial(s, before);
      ActKeepsInitial(Exec(s, before).value, a);
    }
  }

  lemma ActKeepsInitial(s: State, a: Action)
    requires Act(s, a).Some?
    ensures Act(s, a).value.file.initial == s.file.initial
  {
  }

  lemma FromEmpty(s: State)
    requires FromNew(s)
    ensures Reachable(s) && s.file.initial == Store.Empty()
  {
    var n: nat, stamp: nat, clock: nat, actions: seq<Action> :|
      Exec(Start(Store.Empty(), n, stamp, clock), actions) == Some(s);
    ExecKeepsInitial(Start(Store.Empty(), n, stamp, clock), actions);
  }

  /** The content, in the order of the log, is the plain map after the log. */
  lemma LogIsPlain(log: seq<Call>)
    ensures Rel(Run(Store.Empty(), log), PlainRun(map[], log))
  {
    RunRefines(log, Call(DescribeDevice, Env(0, 0, _ => KmsFailed)));
  }

  /** The stored content, whenever no save is under way, is the plain map after the log. */
  lemma ContentIsPlain(s: State)
    requires FromNew(s) && NobodySaves(s)
    ensures s.file.disk.Whole? && Rel(s.file.disk.slots, PlainRun(map[], s.file.log))
  {
    FromEmpty(s);
    ReachableInv(s);
    LogIsPlain(s.file.log);
  }

  /** Every answer given to a client is the plain map's answer at one point of the serial order,
      between the arrival of the request and its completion. */
  lemma AnswersArePlain(s: State, p: nat)
    requires FromNew(s) && p < |s.procs| && s.procs[p].pc.Finished?
    ensures var pc := s.procs[p].pc;
            && pc.since <= pc.at <= |s.file.log|
            && AbsResponse(pc.response) == PlainStep(PlainRun(map[], s.file.log[..pc.at]), pc.call.req, pc.call.env).1
            && (Mutating(pc.call.req) && pc.response.Ok? ==> pc.at < |s.file.log| && s.file.log[pc.at] == pc.call)
  {
    FromEmpty(s);
    Serialisable(s, p);
    RunRefines(s.file.log[..s.procs[p].pc.at], s.procs[p].pc.call);
  }

  lemma LaterClock(slots: Slots, clock: nat, clock': nat)
    requires Store.Inv(slots, clock) && clock <= clock'
    ensures Store.Inv(slots, clock')
  {
  }

  /** The store invariant holds in every interleaving: the clock is read under the lock. */
  lemma ContentIsGood(s: State)
    requires FromNew(s) && NobodySaves(s)
    ensures s.file.disk.Whole? && Store.Inv(s.file.disk.slots, s.clock)
  {
    FromEmpty(s);
    ReachableInv(s);
    ReachableTimes(s);
    RunKeepsInv(s.file.log);
    LaterClock(s.file.disk.slots, LastClock(s.file.log), s.clock);
  }

  /** The content that a device in step with the file last loaded is the plain map of that time. */
  lemma LastLoadIsPlain(s: State, p: nat)
    requires FromNew(s) && InStep(s, p)
    ensures s.procs[p].device.value.loads != []
    ensures var d := s.procs[p].device.value;
            Rel(LoadedAt(s.file, Last(d)), Live(PlainRun(map[], s.file.log), Last(d).time))
  {
    FromEmpty(s);
    InStepFacts(s, p);
    LogIsPlain(s.file.log);
    RelSweep(Content(s.file), PlainRun(map[], s.file.log), Last(s.procs[p].device.value).time);
  }

  /** Each token of a device in step stands for an entry of the plain map with its expiry. */
  lemma TokensArePlain(s: State, p: nat, i: nat) returns (name: Bytes)
    requires FromNew(s) && InStep(s, p)
    requires i < |s.procs[p].device.value.view.slots| && s.procs[p].device.value.view.slots[i].Some?
    ensures name in PlainRun(map[], s.file.log)
    ensures PlainRun(map[], s.file.log)[name].expiry == s.procs[p].device.value.view.slots[i].value.expiry
  {
    FromEmpty(s);
    TokenIsStored(s, p, i);
    InStepFacts(s, p);
    LogIsPlain(s.file.log);
    name := s.file.disk.slots[i].value.name;
  }
}
