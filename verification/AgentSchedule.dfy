/**
 The agent that keeps one token alive, against the store that forgets tokens after 48 hours.

 Time is in clock ticks; the store sees whole seconds. A sync reads the clock four times: when the
 store loads for the describe call, when the agent compares its refresh time, when the store loads
 for the call that extends the token, and when that call stamps the new expiry. Other clients may
 send any request in between, except that they do not know this token's PIN.
 */
module AgentSchedule {
  import opened Common
  import opened Store
  import opened StoreMap

  const TICKS_PER_SEC: nat := 1_000_000_000

  /** What the agent was configured with: intervals in seconds and in ticks. */
  datatype Agent = Agent(name: Bytes, pin: Bytes, refreshInterval: nat, maxGap: nat)

  datatype State = State(
    table: Table,
    nextRefresh: nat,
    last: Option<nat>,   // describe time of the last sync
    now: nat,            // no event before this tick
    lapsed: bool)        // some sync after the first found the token gone

  datatype Event =
    | Sync(describe: nat, decide: nat, load: nat, stamp: nat, dbChanged: bool, keys: seq<EncryptedKey>, kms: Kms)
    | Foreign(load: nat, later: nat, req: Request, kms: Kms)

  function Secs(tick: nat): nat {
    tick / TICKS_PER_SEC
  }

  function Online(a: Agent, m: Table, describe: nat): bool {
    PlainStep(m, DescribeToken(a.name, a.pin), Env(Secs(describe), Secs(describe), _ => KmsFailed)).1.Ok?
  }

  /** The request a sync sends after the describe call, if any. */
  function Chosen(a: Agent, s: State, e: Event): Option<Request>
    requires e.Sync?
  {
    var token := NewToken(a.name, a.pin, e.keys);
    if !Online(a, s.table, e.describe) then Some(AddToken(token))
    else if e.dbChanged then Some(UpdateToken(a.name, a.pin, token))
    else if s.nextRefresh <= e.decide then Some(RefreshToken(a.name, a.pin))
    else None
  }

  /** One sync; None when the request it sends fails. The refresh time moves by whole intervals,
      and only when the token is refreshed. */
  function SyncStep(a: Agent, s: State, e: Event): Option<State>
    requires e.Sync?
  {
    var lapsed := s.lapsed || (s.last.Some? && !Online(a, s.table, e.describe));
    var req := Chosen(a, s, e);
    if req.None? then Some(s.(last := Some(e.describe), now := e.stamp, lapsed := lapsed))
    else
      var (m, r) := PlainStep(s.table, req.value, Env(Secs(e.load), Secs(e.stamp), e.kms));
      if r.Err? then None
      else
        var next := if req.value.RefreshToken? then s.nextRefresh + a.refreshInterval * TICKS_PER_SEC else s.nextRefresh;
        Some(State(m, next, Some(e.describe), e.stamp, lapsed))
  }

  predicate Names(req: Request, name: Bytes, pin: Bytes) {
    (req.RefreshToken? || req.RemoveToken? || req.UpdateToken?) && req.name == name && req.pin == pin
  }

  /** An event of a run: in time order, and each sync at most `maxGap` after the one before. */
  function Apply(a: Agent, s: State, e: Event): Option<State> {
    match e
    case Sync(d, n, l, x, _, _, _) =>
      if s.now <= d <= n <= l <= x && (s.last.Some? ==> d <= s.last.value + a.maxGap)
      then SyncStep(a, s, e) else None
    case Foreign(l, later, req, kms) =>
      if s.now <= l <= later && (s.last.Some? ==> l <= s.last.value + a.maxGap) && !Names(req, a.name, a.pin)
      then Some(s.(table := PlainStep(s.table, req, Env(Secs(l), Secs(later), kms)).0, now := l))
      else None
  }

  function Exec(a: Agent, s: State, run: seq<Event>): Option<State> {
    if run == [] then Some(s)
    else
      match Exec(a, s, run[..|run| - 1])
      case None => None
      case Some(t) => Apply(a, t, run[|run| - 1])
  }

  /** The agent is created at tick `created`, next to a store with any content. */
  function Created(m: Table, created: nat): State {
    State(m, created, None, created, false)
  }

  /** The oldest an extension can be when the next sync looks: with a positive interval, one tick
      short of interval plus gap. */
  function Age(a: Agent): nat {
    if a.refreshInterval == 0 then a.maxGap
    else a.refreshInterval * TICKS_PER_SEC + a.maxGap - 1
  }

  /** The store keeps a token for at least this many ticks after it stamped it. */
  const LIFETIME: nat := (TOKEN_EXPIRY_SECS - 1) * TICKS_PER_SEC

  /* ---------- The invariant ---------- */

  /** Extended at tick `ext`, and alive until the next sync is due. */
  ghost predicate Kept(a: Agent, s: State, ext: nat) {
    && a.name in s.table && s.table[a.name].pin == a.pin
    && s.table[a.name].expiry == Secs(ext) + TOKEN_EXPIRY_SECS
    && ext <= s.now
    && s.nextRefresh <= ext + a.refreshInterval * TICKS_PER_SEC
    && s.last.Some? && s.last.value <= s.now
    && s.last.value + a.maxGap <= ext + Age(a)
  }

  lemma SecsLess(ext: nat, d: nat)
    requires d <= ext + LIFETIME
    ensures Secs(d) < Secs(ext) + TOKEN_EXPIRY_SECS
  {
  }

  /** A live token under its PIN is found, and only then. */
  lemma OnlineIff(a: Agent, m: Table, d: nat)
    ensures Online(a, m, d) <==>
              && CheckPinLabel(a.pin, a.name).None?
              && a.name in m && m[a.name].expiry > Secs(d) && m[a.name].pin == a.pin
  {
  }

  /** A request that the store answers well for the agent stamps the token at the later clock. */
  lemma ExtendStamps(a: Agent, m: Table, req: Request, env: Env)
    requires req == RefreshToken(a.name, a.pin)
             || (req.AddToken? && req.token.name == a.name && req.token.pin == a.pin)
             || (req.UpdateToken? && req.name == a.name && req.pin == a.pin)
    requires PlainStep(m, req, env).1.Ok?
    ensures var m' := PlainStep(m, req, env).0;
            && CheckPinLabel(a.pin, a.name).None?
            && a.name in m' && m'[a.name].pin == a.pin && m'[a.name].expiry == env.later + TOKEN_EXPIRY_SECS
  {
  }

  /** Requests without the PIN leave a live token as it is. */
  lemma ForeignLeaves(a: Agent, m: Table, req: Request, env: Env)
    requires a.name in m && m[a.name].expiry > env.load && m[a.name].pin == a.pin
    requires !Names(req, a.name, a.pin)
    ensures var m' := PlainStep(m, req, env).0; a.name in m' && m'[a.name] == m[a.name]
  {
  }

  /** The invariant ties an extension to the PIN and label bounds too. */
  ghost predicate Ready(a: Agent, s: State) {
    CheckPinLabel(a.pin, a.name).None? && exists ext: nat :: Kept(a, s, ext)
  }

  lemma ExtendedReady(a: Agent, s: State, e: Event)
    requires e.Sync? && Apply(a, s, e).Some? && Chosen(a, s, e).Some?
    requires s.nextRefresh <= s.now || exists ext: nat :: Kept(a, s, ext)
    ensures Ready(a, Apply(a, s, e).value)
  {
    var s' := Apply(a, s, e).value;
    ExtendStamps(a, s.table, Chosen(a, s, e).value, Env(Secs(e.load), Secs(e.stamp), e.kms));
    assert Kept(a, s', e.stamp);
  }

  lemma FirstSync(a: Agent, s: State, e: Event)
    requires s.last.None? && s.nextRefresh <= s.now && !s.lapsed
    requires e.Sync? && Apply(a, s, e).Some?
    ensures Ready(a, Apply(a, s, e).value) && !Apply(a, s, e).value.lapsed
  {
    ExtendedReady(a, s, e);
  }

  lemma KeptOnline(a: Agent, s: State, ext: nat, d: nat)
    requires Kept(a, s, ext) && Age(a) <= LIFETIME && CheckPinLabel(a.pin, a.name).None?
    requires d <= s.last.value + a.maxGap
    ensures Online(a, s.table, d) && s.table[a.name].expiry > Secs(d)
  {
    SecsLess(ext, d);
    OnlineIff(a, s.table, d);
  }

  lemma NextSync(a: Agent, s: State, e: Event)
    requires Age(a) <= LIFETIME && Ready(a, s) && !s.lapsed
    requires e.Sync? && Apply(a, s, e).Some?
    ensures Ready(a, Apply(a, s, e).value) && !Apply(a, s, e).value.lapsed
  {
    var ext: nat :| Kept(a, s, ext);
    KeptOnline(a, s, ext, e.describe);
    if Chosen(a, s, e).Some? {
      ExtendedReady(a, s, e);
    } else {
      assert Kept(a, Apply(a, s, e).value, ext);
    }
  }

  lemma ForeignStep(a: Agent, s: State, e: Event)
    requires Age(a) <= LIFETIME && Ready(a, s)
    requires e.Foreign? && Apply(a, s, e).Some?
    ensures Ready(a, Apply(a, s, e).value) && Apply(a, s, e).value.lapsed == s.lapsed
  {
    var ext: nat :| Kept(a, s, ext);
    KeptOnline(a, s, ext, e.load);
    ForeignLeaves(a, s.table, e.req, Env(Secs(e.load), Secs(e.later), e.kms));
    assert Kept(a, Apply(a, s, e).value, ext);
  }

  /** No lapse: when interval and gap together stay below the store's lifetime, every sync after the
      first finds the token, in every run of successful syncs and requests by others. */
  lemma {:induction false} NoLapse(a: Agent, m: Table, created: nat, run: seq<Event>)
    requires Age(a) <= LIFETIME
    requires Exec(a, Created(m, created), run).Some?
    ensures var s := Exec(a, Created(m, created), run).value;
            && !s.lapsed
            && (if s.last.Some? then Ready(a, s) else s.nextRefresh == created <= s.now)
  {
    if run != [] {
      var before, e := run[..|run| - 1], run[|run| - 1];
      NoLapse(a, m, created, before);
      var s := Exec(a, Created(m, created), before).value;
      if e.Sync? {
        if s.last.Some? {
          NextSync(a, s, e);
        } else {
          FirstSync(a, s, e);
        }
      } else if s.last.Some? {
        ForeignStep(a, s, e);
      }
    }
  }

  /** With the default settings (12 hours, a sync every 10 minutes at most an hour late) the bound holds. */
  lemma DefaultsSafe(a: Agent)
    requires a.refreshInterval == 12 * 3600 && a.maxGap <= (600 + 3600) * TICKS_PER_SEC
    ensures Age(a) <= LIFETIME
  {
  }

  /* ---------- The bound is exact ---------- */

  /** A sync whose four readings fall on one tick, with unchanged key material. */
  function At(tick: nat): Event {
    Sync(tick, tick, tick, tick, false, [EncryptedKey([], 0, [], None)], _ => Plain([]))
  }

  lemma Snoc(a: Agent, s: State, run: seq<Event>, t: State, e: Event)
    requires Exec(a, s, run) == Some(t)
    ensures Exec(a, s, run + [e]) == Apply(a, t, e)
  {
    assert (run + [e])[..|run|] == run;
  }

  /** The table that holds just the agent's token, stamped in second 0. */
  function Single(a: Agent): Table {
    map[a.name := Entry(a.pin, [Key([], [], 0, [], None)], TOKEN_EXPIRY_SECS)]
  }

  lemma AddsAt(a: Agent, s: State, tick: nat)
    requires CheckPinLabel(a.pin, a.name).None? && !Online(a, s.table, tick) && s.now <= tick
    requires Live(s.table, Secs(tick)) == map[] && (s.last.Some? ==> tick <= s.last.value + a.maxGap)
    ensures Apply(a, s, At(tick)).Some?
    ensures var s' := Apply(a, s, At(tick)).value;
            && s'.lapsed == (s.lapsed || s.last.Some?)
            && (Secs(tick) == 0 ==> s' == State(Single(a), s.nextRefresh, Some(tick), tick, s'.lapsed))
  {
    var keys := At(tick).keys;
    assert DecryptKey(keys[0], At(tick).kms) == Ok(Key([], [], 0, [], None));
    assert DecryptKeys(keys, At(tick).kms).Ok?;
    assert DecryptKeys(keys, At(tick).kms).value == [Key([], [], 0, [], None)];
    assert CheckKeys(keys[..0]).None?;
    assert CheckKeys(keys).None?;
    assert Live(s.table, Secs(tick))[a.name := Single(a)[a.name]] == Single(a);
  }

  lemma RefreshesAt(a: Agent, s: State, tick: nat)
    requires CheckPinLabel(a.pin, a.name).None? && s.table == Single(a) && Secs(tick) == 0
    requires s.now <= tick && s.nextRefresh <= tick && s.last.Some? && tick <= s.last.value + a.maxGap
    ensures Apply(a, s, At(tick)) ==
            Some(State(Single(a), s.nextRefresh + a.refreshInterval * TICKS_PER_SEC, Some(tick), tick, s.lapsed))
  {
    OnlineIff(a, s.table, tick);
    var m := Live(s.table, 0);
    assert m == Single(a);
    assert m[a.name := m[a.name].(expiry := TOKEN_EXPIRY_SECS)] == Single(a);
  }

  lemma IdlesAt(a: Agent, s: State, tick: nat)
    requires CheckPinLabel(a.pin, a.name).None? && s.table == Single(a) && Secs(tick) < TOKEN_EXPIRY_SECS
    requires s.now <= tick < s.nextRefresh && s.last.Some? && tick <= s.last.value + a.maxGap
    ensures Apply(a, s, At(tick)) == Some(State(Single(a), s.nextRefresh, Some(tick), tick, s.lapsed))
  {
    OnlineIff(a, s.table, tick);
  }

  /** The last tick at which the agent neither refreshes nor finds the token gone. */
  function LastIdle(a: Agent): nat {
    var next := TICKS_PER_SEC - 1 + a.refreshInterval * TICKS_PER_SEC;
    if a.refreshInterval == 0 then TICKS_PER_SEC - 1
    else if next <= TOKEN_EXPIRY_SECS * TICKS_PER_SEC then next - 1
    else TOKEN_EXPIRY_SECS * TICKS_PER_SEC - 1
  }

  /** The last tick of second 0, at which the run below begins. */
  const FIRST_TICK: nat := TICKS_PER_SEC - 1

  /** The agent after its token was added and refreshed in second 0, when it last looked at tick `t`. */
  function Idling(a: Agent, t: nat): State {
    State(Single(a), FIRST_TICK + a.refreshInterval * TICKS_PER_SEC, Some(t), t, false)
  }

  lemma AddFirst(a: Agent)
    requires CheckPinLabel(a.pin, a.name).None?
    ensures Exec(a, Created(map[], FIRST_TICK), [At(FIRST_TICK)])
         == Some(State(Single(a), FIRST_TICK, Some(FIRST_TICK), FIRST_TICK, false))
  {
    var start, e := Created(map[], FIRST_TICK), At(FIRST_TICK);
    assert Live(map[], 0) == map[];
    OnlineIff(a, map[], FIRST_TICK);
    AddsAt(a, start, FIRST_TICK);
    Snoc(a, start, [], start, e);
    assert [] + [e] == [e];
  }

  lemma AddThenRefresh(a: Agent)
    requires CheckPinLabel(a.pin, a.name).None?
    ensures Exec(a, Created(map[], FIRST_TICK), [At(FIRST_TICK)] + [At(FIRST_TICK)]) == Some(Idling(a, FIRST_TICK))
  {
    AddFirst(a);
    var s := State(Single(a), FIRST_TICK, Some(FIRST_TICK), FIRST_TICK, false);
    RefreshesAt(a, s, FIRST_TICK);
    Snoc(a, Created(map[], FIRST_TICK), [At(FIRST_TICK)], s, At(FIRST_TICK));
  }

  lemma StillIdle(a: Agent, t: nat)
    requires FIRST_TICK <= t < LastIdle(a)
    ensures t + 1 < FIRST_TICK + a.refreshInterval * TICKS_PER_SEC && Secs(t + 1) < TOKEN_EXPIRY_SECS
  {
  }

  lemma IdleStep(a: Agent, t: nat)
    requires CheckPinLabel(a.pin, a.name).None? && a.maxGap > 0 && FIRST_TICK <= t < LastIdle(a)
    ensures Apply(a, Idling(a, t), At(t + 1)) == Some(Idling(a, t + 1))
  {
    StillIdle(a, t);
    IdlesAt(a, Idling(a, t), t + 1);
  }

  /** A sync at every tick as long as there is nothing to do. */
  lemma {:induction false} IdleRun(a: Agent, start: State, first: seq<Event>, t: nat) returns (run: seq<Event>)
    requires CheckPinLabel(a.pin, a.name).None? && a.maxGap > 0 && FIRST_TICK <= t <= LastIdle(a)
    requires Exec(a, start, first) == Some(Idling(a, t))
    ensures Exec(a, start, run) == Some(Idling(a, LastIdle(a)))
    decreases LastIdle(a) - t
  {
    if t == LastIdle(a) {
      run := first;
    } else {
      IdleStep(a, t);
      Snoc(a, start, first, Idling(a, t), At(t + 1));
      run := IdleRun(a, start, first + [At(t + 1)], t + 1);
    }
  }

  /** Past the bound there is a run of successful, punctual syncs in which the token lapses. */
  lemma LapseRun(a: Agent) returns (run: seq<Event>)
    requires CheckPinLabel(a.pin, a.name).None? && a.maxGap > 0 && Age(a) > LIFETIME
    ensures Exec(a, Created(map[], FIRST_TICK), run).Some?
    ensures Exec(a, Created(map[], FIRST_TICK), run).value.lapsed
  {
    var start := Created(map[], FIRST_TICK);
    AddThenRefresh(a);
    run := IdleRun(a, start, [At(FIRST_TICK)] + [At(FIRST_TICK)], FIRST_TICK);
    var s, d := Idling(a, LastIdle(a)), LastIdle(a) + a.maxGap;
    assert Secs(d) >= TOKEN_EXPIRY_SECS;
    assert Live(Single(a), Secs(d)) == map[];
    OnlineIff(a, s.table, d);
    AddsAt(a, s, d);
    Snoc(a, start, run, s, At(d));
    run := run + [At(d)];
  }

  /** The schedule is safe in every run exactly when the age bound holds. */
  lemma NoLapseIff(a: Agent)
    requires CheckPinLabel(a.pin, a.name).None? && a.maxGap > 0
    ensures (forall m: Table, created: nat, run: seq<Event> | Exec(a, Created(m, created), run).Some? ::
               !Exec(a, Created(m, created), run).value.lapsed)
            <==> Age(a) <= LIFETIME
  {
    if Age(a) <= LIFETIME {
      forall m: Table, created: nat, run: seq<Event> | Exec(a, Created(m, created), run).Some?
        ensures !Exec(a, Created(m, created), run).value.lapsed
      {
        NoLapse(a, m, created, run);
      }
    } else {
      var run := LapseRun(a);
    }
  }
}
