/**
 The plain store that the slot vector refines: a map from label to (PIN, keys, expiry) with at most
 128 entries, expired ones dropped. Responses forget slot numbers and listing order.
 */
module StoreMap {
  import opened Common
  import opened Store

  datatype Entry = Entry(pin: Bytes, keys: seq<Key>, expiry: nat)

  type Table = map<Bytes, Entry>

  datatype PlainAnswer =
    | PlainNothing
    | PlainDevice(freeSlots: int, ttls: map<Bytes, nat>)
    | PlainToken(name: Bytes, ttl: nat, keys: seq<KeyDesc>)

  type PlainResponse = Result<PlainAnswer, ApiError>

  /* ---------- The plain store ---------- */

  function Live(m: Table, now: nat): Table {
    map name | name in m && m[name].expiry > now :: m[name]
  }

  function Ttls(m: Table, now: nat): map<Bytes, nat> {
    map name | name in m && m[name].expiry >= now :: Remaining(m[name].expiry, now)
  }

  /** The checks shared by every request on a named token: it exists, and the PIN is its PIN. */
  function Access(live: Table, name: Bytes, pin: Bytes): Option<ApiError> {
    if name !in live then Some(TokenNotFound)
    else if live[name].pin != pin then Some(AccessDenied)
    else None
  }

  function PlainAdd(m: Table, t: NewToken, env: Env): (Table, PlainResponse) {
    var live, keys := Live(m, env.load), DecryptKeys(t.keys, env.kms);
    if t.name in live then (m, Err(TokenLabelInUse))
    else if keys.Err? then (m, Err(keys.error))
    else if |live| == DEVICE_MAX_SLOTS then (m, Err(TooManyTokens))
    else (live[t.name := Entry(t.pin, keys.value, env.later + TOKEN_EXPIRY_SECS)], Ok(PlainNothing))
  }

  function PlainDescribe(m: Table, name: Bytes, pin: Bytes, env: Env): PlainResponse {
    var live := Live(m, env.load);
    if Access(live, name, pin).Some? then Err(Access(live, name, pin).value)
    else Ok(PlainToken(name, Remaining(live[name].expiry, env.later), DescribeKeys(live[name].keys)))
  }

  function PlainRefresh(m: Table, name: Bytes, pin: Bytes, env: Env): (Table, PlainResponse) {
    var live := Live(m, env.load);
    if Access(live, name, pin).Some? then (m, Err(Access(live, name, pin).value))
    else if Attest(live[name].keys, env.kms).Some? then (m, Err(Attest(live[name].keys, env.kms).value))
    else (live[name := live[name].(expiry := env.later + TOKEN_EXPIRY_SECS)], Ok(PlainNothing))
  }

  function PlainRemove(m: Table, name: Bytes, pin: Bytes, env: Env): (Table, PlainResponse) {
    var live := Live(m, env.load);
    if Access(live, name, pin).Some? then (m, Err(Access(live, name, pin).value))
    else (live - {name}, Ok(PlainNothing))
  }

  function PlainUpdate(m: Table, name: Bytes, pin: Bytes, t: NewToken, env: Env): (Table, PlainResponse) {
    var live, keys := Live(m, env.load), DecryptKeys(t.keys, env.kms);
    if name != t.name && t.name in live then (m, Err(TokenLabelInUse))
    else if Access(live, name, pin).Some? then (m, Err(Access(live, name, pin).value))
    else if keys.Err? then (m, Err(keys.error))
    else (live[name := Entry(pin, keys.value, env.later + TOKEN_EXPIRY_SECS)], Ok(PlainNothing))
  }

  function PlainStep(m: Table, req: Request, env: Env): (Table, PlainResponse) {
    if CheckArgs(req).Some? then (m, Err(InvalidArgs(CheckArgs(req).value)))
    else
      match req
      case DescribeDevice =>
        var ttls := Ttls(Live(m, env.load), env.later);
        (m, Ok(PlainDevice(FreeSlots(|ttls|), ttls)))
      case AddToken(t) => PlainAdd(m, t, env)
      case DescribeToken(name, pin) => (m, PlainDescribe(m, name, pin, env))
      case RefreshToken(name, pin) => PlainRefresh(m, name, pin, env)
      case RemoveToken(name, pin) => PlainRemove(m, name, pin, env)
      case UpdateToken(name, pin, t) => PlainUpdate(m, name, pin, t, env)
  }

  function PlainRun(m: Table, calls: seq<Call>): Table {
    if calls == [] then m
    else
      var last := calls[|calls| - 1];
      PlainStep(PlainRun(m, calls[..|calls| - 1]), last.req, last.env).0
  }

  /* ---------- The simulation relation ---------- */

  function ToEntry(t: Token): Entry {
    Entry(t.pin, t.keys, t.expiry)
  }

  /** The table holds exactly the stored tokens, each under its label. */
  ghost predicate Rel(slots: Slots, m: Table) {
    && Distinct(slots)
    && (forall i | 0 <= i < |slots| && slots[i].Some? ::
          slots[i].value.name in m && m[slots[i].value.name] == ToEntry(slots[i].value))
    && (forall name | name in m :: FindLabel(slots, name).Some?)
  }

  ghost function AbsTtls(tokens: seq<TokenDesc>): map<Bytes, nat> {
    if tokens == [] then map[]
    else
      var last := tokens[|tokens| - 1];
      AbsTtls(tokens[..|tokens| - 1])[last.name := last.ttl]
  }

  ghost function AbsResponse(r: Response): PlainResponse {
    match r
    case Err(e) => Err(e)
    case Ok(Nothing) => Ok(PlainNothing)
    case Ok(DeviceDescription(free, tokens)) => Ok(PlainDevice(free, AbsTtls(tokens)))
    case Ok(TokenDescription(t, keys)) => Ok(PlainToken(t.name, t.ttl, keys))
  }

  /* ---------- How the scans relate to the table ---------- */

  lemma RelFind(slots: Slots, m: Table, name: Bytes)
    requires Rel(slots, m)
    ensures name in m <==> FindLabel(slots, name).Some?
    ensures name in m ==> m[name] == ToEntry(slots[FindLabel(slots, name).value].value)
  {
  }

  /** The related table is unique, so the relation is a function of the slots. */
  lemma RelUnique(slots: Slots, m: Table, m': Table)
    requires Rel(slots, m) && Rel(slots, m')
    ensures m == m'
  {
    forall name ensures name in m <==> name in m' {
      RelFind(slots, m, name);
      RelFind(slots, m', name);
    }
    forall name | name in m ensures m[name] == m'[name] {
      RelFind(slots, m, name);
      RelFind(slots, m', name);
    }
  }

  lemma RelSweep(slots: Slots, m: Table, now: nat)
    requires Rel(slots, m)
    ensures Rel(Sweep(slots, now), Live(m, now))
  {
    var live := Sweep(slots, now);
    forall name | name in Live(m, now) ensures FindLabel(live, name).Some? {
      RelFind(slots, m, name);
      assert HasLabel(live[FindLabel(slots, name).value], name);
    }
  }

  lemma RelPut(slots: Slots, m: Table, i: nat, t: Token)
    requires Rel(slots, m) && i < |slots|
    requires slots[i].None? || slots[i].value.name == t.name
    requires forall j | 0 <= j < |slots| && j != i :: !HasLabel(slots[j], t.name)
    ensures Rel(slots[i := Some(t)], m[t.name := ToEntry(t)])
  {
    var slots' := slots[i := Some(t)];
    forall name | name in m[t.name := ToEntry(t)] ensures FindLabel(slots', name).Some? {
      if name == t.name {
        assert HasLabel(slots'[i], name);
      } else {
        assert HasLabel(slots'[FindLabel(slots, name).value], name);
      }
    }
  }

  /** Replacing the token that a label finds by another with that label. */
  lemma RelReplace(slots: Slots, m: Table, name: Bytes, t: Token)
    requires Rel(slots, m) && FindLabel(slots, name).Some? && t.name == name
    ensures Rel(slots[FindLabel(slots, name).value := Some(t)], m[name := ToEntry(t)])
  {
    RelPut(slots, m, FindLabel(slots, name).value, t);
  }

  lemma RelTake(slots: Slots, m: Table, i: nat)
    requires Rel(slots, m) && i < |slots| && slots[i].Some?
    ensures Rel(slots[i := None], m - {slots[i].value.name})
  {
    var slots' := slots[i := None];
    forall name | name in m - {slots[i].value.name} ensures FindLabel(slots', name).Some? {
      assert HasLabel(slots'[FindLabel(slots, name).value], name);
    }
  }

  /** Dropping the last slot. */
  lemma RelInit(slots: Slots, m: Table)
    requires Rel(slots, m) && slots != []
    ensures var (before, last) := (slots[..|slots| - 1], slots[|slots| - 1]);
            if last.Some? then last.value.name in m && Rel(before, m - {last.value.name}) else Rel(before, m)
  {
    var n := |slots| - 1;
    var before := slots[..n];
    var m' := if slots[n].Some? then m - {slots[n].value.name} else m;
    assert forall i | 0 <= i < n :: before[i] == slots[i];
    forall name | name in m' ensures FindLabel(before, name).Some? {
      RelFind(slots, m, name);
      assert HasLabel(before[FindLabel(slots, name).value], name);
    }
  }

  function Occupied(slots: Slots): (n: nat)
    ensures n <= |slots|
    ensures n == |slots| <==> FindFree(slots).None?
  {
    if slots == [] then 0
    else
      var before := slots[..|slots| - 1];
      assert forall i | 0 <= i < |before| :: slots[i] == before[i];
      Occupied(before) + if slots[|slots| - 1].Some? then 1 else 0
  }

  /** Labels are counted by the occupied slots, so the cap is reached exactly when no slot is free. */
  lemma {:induction false} RelCount(slots: Slots, m: Table)
    requires Rel(slots, m)
    ensures |m| == Occupied(slots)
  {
    if slots == [] {
      assert m == map[];
    } else {
      RelInit(slots, m);
      var before, last := slots[..|slots| - 1], slots[|slots| - 1];
      if last.Some? {
        var m' := m - {last.value.name};
        RelCount(before, m');
        assert m'.Keys == m.Keys - {last.value.name};
      } else {
        RelCount(before, m);
      }
    }
  }

  lemma TtlsDrop(m: Table, name: Bytes, now: nat)
    requires name in m && m[name].expiry < now
    ensures Ttls(m, now) == Ttls(m - {name}, now)
  {
  }

  lemma TtlsAdd(m: Table, name: Bytes, now: nat)
    requires name in m && m[name].expiry >= now
    ensures Ttls(m, now) == Ttls(m - {name}, now)[name := Remaining(m[name].expiry, now)]
    ensures |Ttls(m, now)| == |Ttls(m - {name}, now)| + 1
  {
    var t' := Ttls(m - {name}, now);
    assert Ttls(m, now) == t'[name := Remaining(m[name].expiry, now)];
    assert name !in t';
  }

  lemma AbsTtlsSnoc(tokens: seq<TokenDesc>, t: TokenDesc)
    ensures AbsTtls(tokens + [t]) == AbsTtls(tokens)[t.name := t.ttl]
  {
    assert (tokens + [t])[..|tokens|] == tokens;
  }

  /** One more slot in the listing. */
  lemma ListedLast(slots: Slots, m: Table, m': Table, now: nat)
    requires slots != []
    requires var last := slots[|slots| - 1];
             if last.Some? then last.value.name in m && m[last.value.name] == ToEntry(last.value) && m' == m - {last.value.name}
             else m' == m
    requires AbsTtls(ListTokens(slots[..|slots| - 1], now)) == Ttls(m', now)
    requires |ListTokens(slots[..|slots| - 1], now)| == |Ttls(m', now)|
    ensures AbsTtls(ListTokens(slots, now)) == Ttls(m, now)
    ensures |ListTokens(slots, now)| == |Ttls(m, now)|
  {
    var last, before := slots[|slots| - 1], ListTokens(slots[..|slots| - 1], now);
    if last.Some? && last.value.expiry >= now {
      TtlsAdd(m, last.value.name, now);
      AbsTtlsSnoc(before, TokenDesc(last.value.name, |slots| - 1, Remaining(last.value.expiry, now)));
    } else {
      assert ListTokens(slots, now) == before;
      if last.Some? {
        TtlsDrop(m, last.value.name, now);
      }
    }
  }

  /** The listing names every token still running, once, with its remaining time. */
  lemma {:induction false} ListedTtls(slots: Slots, m: Table, now: nat)
    requires Rel(slots, m)
    ensures AbsTtls(ListTokens(slots, now)) == Ttls(m, now)
    ensures |ListTokens(slots, now)| == |Ttls(m, now)|
  {
    if slots == [] {
      assert m == map[];
    } else {
      RelInit(slots, m);
      var last := slots[|slots| - 1];
      var m' := if last.Some? then m - {last.value.name} else m;
      ListedTtls(slots[..|slots| - 1], m', now);
      ListedLast(slots, m, m', now);
    }
  }

  /* ---------- Refinement ---------- */

  lemma AddRefines(slots: Slots, m: Table, t: NewToken, env: Env)
    requires Rel(slots, m) && |slots| == DEVICE_MAX_SLOTS
    ensures var (slots', r) := AddStep(slots, t, env);
            var (m', p) := PlainAdd(m, t, env);
            Rel(slots', m') && AbsResponse(r) == p
  {
    var live, table := Sweep(slots, env.load), Live(m, env.load);
    RelSweep(slots, m, env.load);
    RelFind(live, table, t.name);
    RelCount(live, table);
    var (slots', r) := AddStep(slots, t, env);
    if r.Ok? {
      var i := FindFree(live).value;
      RelPut(live, table, i, slots'[i].value);
    }
  }

  lemma DeviceRefines(slots: Slots, m: Table, env: Env)
    requires Rel(slots, m)
    ensures var ttls := Ttls(Live(m, env.load), env.later);
            AbsResponse(DescribeDeviceStep(slots, env)) == Ok(PlainDevice(FreeSlots(|ttls|), ttls))
  {
    RelSweep(slots, m, env.load);
    ListedTtls(Sweep(slots, env.load), Live(m, env.load), env.later);
  }

  lemma DescribeRefines(slots: Slots, m: Table, name: Bytes, pin: Bytes, env: Env)
    requires Rel(slots, m)
    ensures AbsResponse(DescribeTokenStep(slots, name, pin, env)) == PlainDescribe(m, name, pin, env)
  {
    RelSweep(slots, m, env.load);
    RelFind(Sweep(slots, env.load), Live(m, env.load), name);
  }

  lemma RefreshRefines(slots: Slots, m: Table, name: Bytes, pin: Bytes, env: Env)
    requires Rel(slots, m)
    ensures var (slots', r) := RefreshStep(slots, name, pin, env);
            var (m', p) := PlainRefresh(m, name, pin, env);
            Rel(slots', m') && AbsResponse(r) == p
  {
    var live, table := Sweep(slots, env.load), Live(m, env.load);
    RelSweep(slots, m, env.load);
    RelFind(live, table, name);
    var (slots', r) := RefreshStep(slots, name, pin, env);
    if r.Ok? {
      RelReplace(live, table, name, slots'[FindLabel(live, name).value].value);
    }
  }

  lemma RemoveRefines(slots: Slots, m: Table, name: Bytes, pin: Bytes, env: Env)
    requires Rel(slots, m)
    ensures var (slots', r) := RemoveStep(slots, name, pin, env);
            var (m', p) := PlainRemove(m, name, pin, env);
            Rel(slots', m') && AbsResponse(r) == p
  {
    var live, table := Sweep(slots, env.load), Live(m, env.load);
    RelSweep(slots, m, env.load);
    RelFind(live, table, name);
    if RemoveStep(slots, name, pin, env).1.Ok? {
      RelTake(live, table, FindLabel(live, name).value);
    }
  }

  lemma UpdateRefines(slots: Slots, m: Table, name: Bytes, pin: Bytes, t: NewToken, env: Env)
    requires Rel(slots, m)
    ensures var (slots', r) := UpdateStep(slots, name, pin, t, env);
            var (m', p) := PlainUpdate(m, name, pin, t, env);
            Rel(slots', m') && AbsResponse(r) == p
  {
    var live, table := Sweep(slots, env.load), Live(m, env.load);
    RelSweep(slots, m, env.load);
    RelFind(live, table, name);
    RelFind(live, table, t.name);
    var (slots', r) := UpdateStep(slots, name, pin, t, env);
    if r.Ok? {
      RelReplace(live, table, name, slots'[FindLabel(live, name).value].value);
    }
  }

  /** One request: same response, and related stores stay related. */
  lemma StepRefines(slots: Slots, m: Table, req: Request, env: Env)
    requires Rel(slots, m) && |slots| == DEVICE_MAX_SLOTS
    ensures Rel(Step(slots, req, env).0, PlainStep(m, req, env).0)
    ensures AbsResponse(Step(slots, req, env).1) == PlainStep(m, req, env).1
  {
    if CheckArgs(req).None? {
      match req
      case AddToken(t) => AddRefines(slots, m, t, env);
      case DescribeDevice => DeviceRefines(slots, m, env);
      case DescribeToken(name, pin) => DescribeRefines(slots, m, name, pin, env);
      case RefreshToken(name, pin) => RefreshRefines(slots, m, name, pin, env);
      case RemoveToken(name, pin) => RemoveRefines(slots, m, name, pin, env);
      case UpdateToken(name, pin, t) => UpdateRefines(slots, m, name, pin, t, env);
    }
  }

  /** Store refinement: for every sequence of requests and clock readings the slot vector and the
      plain map stay related, so the next request gets the same answer from both. */
  lemma {:induction false} RunRefines(calls: seq<Call>, next: Call)
    ensures Rel(Run(Empty(), calls), PlainRun(map[], calls))
    ensures |Run(Empty(), calls)| == DEVICE_MAX_SLOTS
    ensures AbsResponse(Step(Run(Empty(), calls), next.req, next.env).1)
            == PlainStep(PlainRun(map[], calls), next.req, next.env).1
    ensures |PlainRun(map[], calls)| <= DEVICE_MAX_SLOTS
  {
    if calls != [] {
      var before, last := calls[..|calls| - 1], calls[|calls| - 1];
      RunRefines(before, last);
      StepRefines(Run(Empty(), before), PlainRun(map[], before), last.req, last.env);
      StepFrame(Run(Empty(), before), last.req, last.env);
    }
    StepRefines(Run(Empty(), calls), PlainRun(map[], calls), next.req, next.env);
    RelCount(Run(Empty(), calls), PlainRun(map[], calls));
  }
}
