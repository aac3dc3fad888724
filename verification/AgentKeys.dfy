/**
 Which key material the store holds for the agent's token: that of the last sync that had to send it.
 */
module AgentKeys {
  import opened Common
  import opened Store
  import opened StoreMap
  import opened StoreLaws
  import opened AgentSchedule

  /** The token runs under the agent's PIN when the sync asks for it. */
  predicate Present(a: Agent, m: Table, e: Event)
    requires e.Sync?
  {
    && Sized(a.pin, a.name) && a.name in m && m[a.name].pin == a.pin && m[a.name].expiry > Secs(e.describe)
  }

  /** The sync has to send key material: the token is not there, or the material has changed. */
  predicate Sends(a: Agent, s: State, e: Event) {
    e.Sync? && (e.dbChanged || !Present(a, s.table, e))
  }

  lemma PresentIff(a: Agent, m: Table, e: Event)
    requires e.Sync?
    ensures Online(a, m, e.describe) <==> Present(a, m, e)
  {
    OnlineIff(a, m, e.describe);
    ArgsValid(RefreshToken(a.name, a.pin));
    assert CheckArgs(RefreshToken(a.name, a.pin)) == CheckPinLabel(a.pin, a.name);
  }

  /* ---------- One event ---------- */

  /** The token is in the table with keys made of this material. */
  ghost predicate Has(a: Agent, m: Table, keys: seq<EncryptedKey>, kms: Kms) {
    a.name in m && m[a.name].pin == a.pin && KeysFrom(m[a.name].keys, keys, kms)
  }

  /** A successful sync with changed material, or for a token that is gone, leaves exactly its material in
      the store. */
  lemma SentIsStored(a: Agent, s: State, e: Event)
    requires Sends(a, s, e) && Apply(a, s, e).Some?
    ensures Has(a, Apply(a, s, e).value.table, e.keys, e.kms)
  {
    PresentIff(a, s.table, e);
    KeysTaken(e.keys, e.kms);
  }

  /** Any other sync keeps the keys. */
  lemma OtherwiseKept(a: Agent, s: State, e: Event)
    requires e.Sync? && !Sends(a, s, e) && Apply(a, s, e).Some?
    ensures var t := Apply(a, s, e).value.table;
            && a.name in t && t[a.name].keys == s.table[a.name].keys && t[a.name].pin == a.pin
  {
    PresentIff(a, s.table, e);
  }

  /* ---------- Over runs ---------- */

  /** The last event of a run that had to send key material. */
  function LastSent(a: Agent, s: State, run: seq<Event>): (r: Option<Event>)
    requires Exec(a, s, run).Some?
    ensures r.Some? ==> r.value in run && r.value.Sync?
  {
    if run == [] then None
    else
      var before, e := run[..|run| - 1], run[|run| - 1];
      if Sends(a, Exec(a, s, before).value, e) then Some(e) else LastSent(a, s, before)
  }

  /** Under the bound of `NoLapse`, in every run, whatever other clients without the PIN do, the stored keys of
      the agent's token are those of the last sync that found it gone or its material changed. */
  lemma {:induction false} KeysAreLastSent(a: Agent, m: Table, created: nat, run: seq<Event>)
    requires Age(a) <= LIFETIME && Exec(a, Created(m, created), run).Some?
    ensures var s, sent := Exec(a, Created(m, created), run).value, LastSent(a, Created(m, created), run);
            sent.Some? ==> Has(a, s.table, sent.value.keys, sent.value.kms) && s.last.Some?
  {
    if run != [] {
      var before, e := run[..|run| - 1], run[|run| - 1];
      var s := Exec(a, Created(m, created), before).value;
      KeysAreLastSent(a, m, created, before);
      if Sends(a, s, e) {
        SentIsStored(a, s, e);
      } else if e.Sync? {
        OtherwiseKept(a, s, e);
      } else if s.last.Some? {
        NoLapse(a, m, created, before);
        OthersLeave(a, s, e);
      }
    }
  }

  lemma OthersLeave(a: Agent, s: State, e: Event)
    requires Age(a) <= LIFETIME && Ready(a, s) && e.Foreign? && Apply(a, s, e).Some?
    ensures a.name in s.table && a.name in Apply(a, s, e).value.table
    ensures Apply(a, s, e).value.table[a.name] == s.table[a.name]
  {
    var ext: nat :| AgentSchedule.Kept(a, s, ext);
    KeptOnline(a, s, ext, e.load);
    ForeignLeaves(a, s.table, e.req, Env(Secs(e.load), Secs(e.later), e.kms));
  }

  /* ---------- When the next refresh is due ---------- */

  /** The sync refreshes: the token is there, its material as before, and the time has come. */
  predicate Refreshes(a: Agent, s: State, e: Event) {
    e.Sync? && !Sends(a, s, e) && s.nextRefresh <= e.decide
  }

  function RefreshCount(a: Agent, s: State, run: seq<Event>): nat
    requires Exec(a, s, run).Some?
  {
    if run == [] then 0
    else
      var before := run[..|run| - 1];
      RefreshCount(a, s, before) + if Refreshes(a, Exec(a, s, before).value, run[|run| - 1]) then 1 else 0
  }

  lemma NextRefreshIs(a: Agent, s: State, e: Event)
    requires Apply(a, s, e).Some?
    ensures Apply(a, s, e).value.nextRefresh
            == s.nextRefresh + if Refreshes(a, s, e) then a.refreshInterval * 1_000_000_000 else 0
  {
    if e.Sync? {
      PresentIff(a, s.table, e);
    }
  }

  lemma GridStep(created: nat, next: nat, next': nat, n: nat, n': nat, step: nat, refreshed: bool)
    requires next == created + n * step && next' == next + (if refreshed then step else 0)
    requires n' == if refreshed then n + 1 else n
    ensures next' == created + n' * step
  {
    assert (n + 1) * step == n * step + step;
  }

  /** Over every run, refreshes fall due on a fixed grid from the creation of the agent on: one interval later for
      each refresh made, whenever it was made, and for nothing else. */
  lemma {:induction false} DueOnGrid(a: Agent, m: Table, created: nat, run: seq<Event>)
    requires Exec(a, Created(m, created), run).Some?
    ensures Exec(a, Created(m, created), run).value.nextRefresh
            == created + RefreshCount(a, Created(m, created), run) * (a.refreshInterval * 1_000_000_000)
  {
    if run != [] {
      var before, e, start := run[..|run| - 1], run[|run| - 1], Created(m, created);
      CountNext(a, start, run);
      DueOnGrid(a, m, created, before);
      var s, s' := Exec(a, start, before).value, Exec(a, start, run).value;
      NextRefreshIs(a, s, e);
      GridStep(created, s.nextRefresh, s'.nextRefresh, RefreshCount(a, start, before), RefreshCount(a, start, run),
               a.refreshInterval * 1_000_000_000, Refreshes(a, s, e));
    }
  }

  lemma CountNext(a: Agent, s: State, run: seq<Event>)
    requires run != [] && Exec(a, s, run).Some?
    ensures var (before, e) := (run[..|run| - 1], run[|run| - 1]);
            && Exec(a, s, before).Some? && Apply(a, Exec(a, s, before).value, e) == Exec(a, s, run)
            && RefreshCount(a, s, run)
               == if Refreshes(a, Exec(a, s, before).value, e) then RefreshCount(a, s, before) + 1 else RefreshCount(a, s, before)
  {
  }

  /* ---------- When a sync succeeds ---------- */

  /** A sync with changed material for a token that still runs succeeds exactly when the new keys are valid
      and all decrypt; one without, when no refresh is due or the KMS gives the stored text of the first key. */
  lemma SyncSucceedsIff(a: Agent, s: State, e: Event)
    requires e.Sync? && Present(a, s.table, e) && s.table[a.name].expiry > Secs(e.load)
    ensures SyncStep(a, s, e).Some? <==>
              if e.dbChanged then KeysDiffer(e.keys) && AllText(e.keys, e.kms)
              else
                var keys := s.table[a.name].keys;
                s.nextRefresh <= e.decide ==> keys != [] && e.kms(keys[0].encryptedPem) == Plain(keys[0].pem)
  {
    PresentIff(a, s.table, e);
    KeysTaken(e.keys, e.kms);
    KeysValid(e.keys);
    ArgsValid(UpdateToken(a.name, a.pin, NewToken(a.name, a.pin, e.keys)));
    ArgsValid(RefreshToken(a.name, a.pin));
  }

  /** A sync for a token that is gone succeeds exactly when the store takes the token anew: valid arguments, the
      label not in use, all keys decrypted, and fewer than 128 running tokens. */
  lemma AddSucceedsIff(a: Agent, s: State, e: Event)
    requires e.Sync? && !Present(a, s.table, e)
    ensures SyncStep(a, s, e).Some? <==>
              && Sized(a.pin, a.name) && KeysDiffer(e.keys) && AllText(e.keys, e.kms)
              && !(a.name in s.table && s.table[a.name].expiry > Secs(e.load))
              && |Live(s.table, Secs(e.load))| != 128
  {
    PresentIff(a, s.table, e);
    KeysTaken(e.keys, e.kms);
    ArgsValid(AddToken(NewToken(a.name, a.pin, e.keys)));
  }

  /** Under the bound, a sync in time whose material has not changed does not fail, as long as the KMS gives
      for the first key what it gave when that was sent. */
  lemma RefreshNeverFails(a: Agent, m: Table, created: nat, run: seq<Event>, e: Event)
    requires Age(a) <= LIFETIME && Exec(a, Created(m, created), run).Some? && LastSent(a, Created(m, created), run).Some?
    requires var s, sent := Exec(a, Created(m, created), run).value, LastSent(a, Created(m, created), run).value;
             && e.Sync? && !e.dbChanged && s.now <= e.describe <= e.decide <= e.load <= e.stamp
             && (s.last.Some? ==> e.load <= s.last.value + a.maxGap)
             && sent.keys != [] && e.kms(sent.keys[0].encryptedPem) == sent.kms(sent.keys[0].encryptedPem)
    ensures Apply(a, Exec(a, Created(m, created), run).value, e).Some?
  {
    var s, sent := Exec(a, Created(m, created), run).value, LastSent(a, Created(m, created), run).value;
    KeysAreLastSent(a, m, created, run);
    NoLapse(a, m, created, run);
    var ext: nat :| AgentSchedule.Kept(a, s, ext);
    KeptOnline(a, s, ext, e.load);
    KeptOnline(a, s, ext, e.describe);
    PresentIff(a, s.table, e);
    OnlineIff(a, s.table, e.describe);
    assert KeyFrom(s.table[a.name].keys[0], sent.keys[0], sent.kms);
    SyncSucceedsIff(a, s, e);
  }
}
