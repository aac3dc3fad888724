/**
 The agent's managed token as a mutable object that talks to the worker, proved against
 `AgentSchedule.SyncStep`. RPC, credentials and fetching the key material succeed.
 */
module ManagedToken {
  import opened Common
  import opened Store
  import opened StoreMap
  import opened AgentSchedule
  import Worker

  class Managed {
    const agent: Agent
    var db: seq<EncryptedKey>
    var nextRefresh: nat

    constructor (agent: Agent, db: seq<EncryptedKey>, now: nat)
      ensures this.agent == agent && this.db == db && nextRefresh == now
    {
      this.agent := agent;
      this.db := db;
      nextRefresh := now;
    }

    /** Fetch the key material anew; true when it changed. */
    method UpdateDb(fetched: seq<EncryptedKey>) returns (changed: bool)
      modifies this`db
      ensures changed <==> fetched != old(db)
      ensures db == fetched
    {
      changed := fetched != db;
      db := fetched;
    }

    /** The event that a sync with these clock readings and key material is. */
    ghost function AsEvent(fetched: seq<EncryptedKey>, describe: nat, decide: nat, load: nat, stamp: nat, kms: Kms): Event
      reads this`db
    {
      Event.Sync(describe, decide, load, stamp, fetched != db, fetched, kms)
    }

    /** Ask the worker for this token. */
    method Describe(f: Worker.SlotFile, d: nat, ghost m: Table) returns (online: bool)
      requires Rel(f.content, m) && |f.content| == DEVICE_MAX_SLOTS
      modifies f
      ensures f.content == old(f.content) && online == Online(agent, m, d)
    {
      var req, env := DescribeToken(agent.name, agent.pin), Env(Secs(d), Secs(d), _ => KmsFailed);
      StepRefines(f.content, m, req, env);
      StepFrame(f.content, req, env);
      var r := Worker.Serve(f, req, env);
      return r.Ok?;
    }

    /** Send a request that extends the token. */
    method Extend(f: Worker.SlotFile, req: Request, env: Env, ghost m: Table) returns (ok: bool)
      requires Rel(f.content, m) && |f.content| == DEVICE_MAX_SLOTS
      modifies f
      ensures ok <==> PlainStep(m, req, env).1.Ok?
      ensures ok ==> Rel(f.content, PlainStep(m, req, env).0)
      ensures !ok ==> f.content == old(f.content)
    {
      StepRefines(f.content, m, req, env);
      StepFrame(f.content, req, env);
      var r := Worker.Serve(f, req, env);
      return r.Ok?;
    }

    /** One sync against the worker's file, whose slots the table `m` describes. */
    method Sync(f: Worker.SlotFile, fetched: seq<EncryptedKey>, describe: nat, decide: nat, load: nat, stamp: nat,
                kms: Kms, ghost s: State) returns (ok: bool)
      requires Rel(f.content, s.table) && |f.content| == DEVICE_MAX_SLOTS && s.nextRefresh == nextRefresh
      modifies this`db, this`nextRefresh, f
      ensures db == fetched
      ensures ok <==> SyncStep(agent, s, old(AsEvent(fetched, describe, decide, load, stamp, kms))).Some?
      ensures ok ==> var s' := SyncStep(agent, s, old(AsEvent(fetched, describe, decide, load, stamp, kms))).value;
                     Rel(f.content, s'.table) && nextRefresh == s'.nextRefresh
      ensures !ok ==> f.content == old(f.content) && nextRefresh == old(nextRefresh)
    {
      var changed := UpdateDb(fetched);
      var online := Describe(f, describe, s.table);
      var token := NewToken(agent.name, agent.pin, db);
      var env := Env(Secs(load), Secs(stamp), kms);
      match (online, changed) {
        case (true, true) => ok := Extend(f, UpdateToken(agent.name, agent.pin, token), env, s.table);
        case (true, false) =>
          ok := true;
          if nextRefresh <= decide {
            ok := Extend(f, RefreshToken(agent.name, agent.pin), env, s.table);
            if ok {
              nextRefresh := nextRefresh + agent.refreshInterval * TICKS_PER_SEC;
            }
          }
        case (false, _) => ok := Extend(f, AddToken(token), env, s.table);
      }
    }
  }
}
