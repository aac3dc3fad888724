/**
 The PKCS#11 device as a state machine over values: slots, the handle-to-slot index, the handle
 counter, and for every token its session table, login flag and expiry time.

 `Step` says what one call does; the lemmas are about every run of calls. The classes of
 `DeviceObjects` are proved against `Step`.
 */
module DeviceSpec {
  import opened Common
  import Store

  const TOKEN_MAX_SESSIONS: nat := 1024

  datatype SessionState = RoPublic | RoUser

  datatype Error =
    | SlotIdInvalid
    | TokenNotPresent
    | SessionHandleInvalid
    | SessionCount
    | PinIncorrect
    | UserAlreadyLoggedIn
    | UserNotLoggedIn

  /** A token of the device: the configuration it was built from (label, PIN and keys stay those),
      its sessions, its login flag and its present expiry time. */
  datatype TokenView = TokenView(built: Store.Token, sessions: map<nat, SessionState>, userLogin: bool, expiry: nat) {
    predicate Expired(now: nat) {
      now > expiry
    }
  }

  function NewToken(config: Store.Token): TokenView {
    TokenView(config, map[], false, config.expiry)
  }

  /** The slots of a device built from loaded slots. */
  function Built(content: Store.Slots): seq<Option<TokenView>> {
    seq(|content|, i requires 0 <= i < |content| => if content[i].None? then None else Some(NewToken(content[i].value)))
  }

  datatype DeviceView = DeviceView(
    slots: seq<Option<TokenView>>,
    index: map<nat, nat>,
    nextHandle: nat,
    stamp: nat)

  /** What a reload meets: no readable stamp, or a stamp with the slots then loaded (None when
      loading fails). */
  datatype Reload = NoStamp | Stamp(mtime: nat, content: Option<Store.Slots>)

  datatype Op =
    | Open(slot: nat)
    | Close(h: nat)
    | CloseAll(slot: nat)
    | Find(h: nat)
    | FindMut(h: nat, reload: Reload)
    | Login(h: nat, pin: Bytes)
    | Logout(h: nat)

  datatype Event = Event(now: nat, op: Op)

  datatype Reply = Handle(h: nat) | Done | Found(present: bool) | Failed(e: Error)

  /* ---------- One call ---------- */

  /** The handle counter is a 64-bit integer that wraps. */
  function NextHandle(h: nat): nat {
    if h == U64_SIZE - 1 then 0 else h + 1
  }

  /** The token of a slot as seen through the expiry filter. */
  function LiveToken(v: DeviceView, slot: nat, now: nat): Result<TokenView, Error> {
    if slot >= |v.slots| then Err(SlotIdInvalid)
    else if v.slots[slot].None? || v.slots[slot].value.Expired(now) then Err(TokenNotPresent)
    else Ok(v.slots[slot].value)
  }

  function OpenToken(t: TokenView, h: nat): Result<TokenView, Error> {
    if |t.sessions| >= TOKEN_MAX_SESSIONS then Err(SessionCount)
    else Ok(t.(sessions := t.sessions[h := if t.userLogin then RoUser else RoPublic]))
  }

  function CloseToken(t: TokenView, h: nat): Result<TokenView, Error> {
    if h !in t.sessions then Err(SessionHandleInvalid)
    else Ok(t.(sessions := t.sessions - {h}))
  }

  function AllTo(sessions: map<nat, SessionState>, st: SessionState): map<nat, SessionState> {
    map h | h in sessions :: st
  }

  function LoginToken(t: TokenView, h: nat, pin: Bytes): Result<TokenView, Error> {
    if t.built.pin != pin then Err(PinIncorrect)
    else if h !in t.sessions then Err(SessionHandleInvalid)
    else if t.sessions[h].RoUser? then Err(UserAlreadyLoggedIn)
    else Ok(t.(sessions := AllTo(t.sessions, RoUser), userLogin := true))
  }

  function LogoutToken(t: TokenView, h: nat): Result<TokenView, Error> {
    if h !in t.sessions then Err(SessionHandleInvalid)
    else if t.sessions[h].RoPublic? then Err(UserNotLoggedIn)
    else Ok(t.(sessions := AllTo(t.sessions, RoPublic), userLogin := false))
  }

  function WithToken(v: DeviceView, slot: nat, t: TokenView): DeviceView
    requires slot < |v.slots|
  {
    v.(slots := v.slots[slot := Some(t)])
  }

  function WithoutSlot(index: map<nat, nat>, slot: nat): map<nat, nat> {
    map h | h in index && index[h] != slot :: index[h]
  }

  /** One slot after a reload that found `c` for it: only the expiry of a token is taken over. */
  function ReloadedSlot(t: Option<TokenView>, c: Option<Store.Token>): Option<TokenView> {
    match (t, c)
    case (_, None) => None
    case (None, Some(_)) => None
    case (Some(tok), Some(config)) => Some(tok.(expiry := config.expiry))
  }

  /** Reload clears the index entries of exactly those slots that lose an unexpired token. */
  predicate Released(v: DeviceView, content: Store.Slots, slot: nat, now: nat) {
    slot < |content| && content[slot].None? && LiveToken(v, slot, now).Ok?
  }

  function Reloaded(v: DeviceView, content: Store.Slots, now: nat): DeviceView {
    v.(slots := seq(|v.slots|, i requires 0 <= i < |v.slots| =>
                  if i < |content| then ReloadedSlot(v.slots[i], content[i]) else v.slots[i]),
       index := map h | h in v.index && !Released(v, content, v.index[h], now) :: v.index[h])
  }

  /** What one turn of the reload loop does. */
  function ReloadOne(v: DeviceView, slot: nat, c: Option<Store.Token>, now: nat): DeviceView {
    if slot >= |v.slots| then v
    else if c.None? then
      var w := CloseAllStep(v, slot, now).0;
      w.(slots := w.slots[slot := None])
    else if v.slots[slot].None? then v
    else WithToken(v, slot, v.slots[slot].value.(expiry := c.value.expiry))
  }

  /** The slot-by-slot loop computes the reload of all slots at once. */
  lemma ReloadedNext(v: DeviceView, content: Store.Slots, i: nat, now: nat)
    requires i < |content|
    ensures Reloaded(v, content[..i + 1], now) == ReloadOne(Reloaded(v, content[..i], now), i, content[i], now)
  {
    var w := Reloaded(v, content[..i], now);
    var w' := Reloaded(v, content[..i + 1], now);
    var one := ReloadOne(w, i, content[i], now);
    assert LiveToken(w, i, now) == LiveToken(v, i, now);
    assert forall slot | slot != i :: Released(v, content[..i + 1], slot, now) <==> Released(v, content[..i], slot, now);
    assert w'.index == one.index;
    assert w'.slots == one.slots;
  }

  function ReloadIfChanged(v: DeviceView, r: Reload, now: nat): DeviceView {
    if r.NoStamp? || r.mtime == v.stamp || r.content.None? then v
    else Reloaded(v, r.content.value, now).(stamp := r.mtime)
  }

  predicate Resolves(v: DeviceView, h: nat, now: nat) {
    h in v.index && LiveToken(v, v.index[h], now).Ok? && h in LiveToken(v, v.index[h], now).value.sessions
  }

  function OpenStep(v: DeviceView, slot: nat, now: nat): (DeviceView, Reply) {
    match LiveToken(v, slot, now)
    case Err(e) => (v, Failed(e))
    case Ok(t) =>
      match OpenToken(t, v.nextHandle)
      case Err(e) => (v, Failed(e))
      case Ok(t') =>
        (WithToken(v, slot, t').(index := v.index[v.nextHandle := slot],
                                 nextHandle := NextHandle(v.nextHandle)),
         Handle(v.nextHandle))
  }

  function CloseStep(v: DeviceView, h: nat, now: nat): (DeviceView, Reply) {
    if h !in v.index then (v, Failed(SessionHandleInvalid)) else
    match LiveToken(v, v.index[h], now)
    case Err(e) => (v, Failed(e))
    case Ok(t) =>
      match CloseToken(t, h)
      case Err(e) => (v, Failed(e))
      case Ok(t') => (WithToken(v, v.index[h], t').(index := v.index - {h}), Done)
  }

  function CloseAllStep(v: DeviceView, slot: nat, now: nat): (DeviceView, Reply) {
    match LiveToken(v, slot, now)
    case Err(e) => (v, Failed(e))
    case Ok(t) =>
      (WithToken(v, slot, t.(sessions := map[])).(index := WithoutSlot(v.index, slot)), Done)
  }

  function FindMutStep(v: DeviceView, h: nat, r: Reload, now: nat): (DeviceView, Reply) {
    if h !in v.index then (v, Found(false)) else
    var v' := ReloadIfChanged(v, r, now);
    var slot := v.index[h];
    (v', Found(LiveToken(v', slot, now).Ok? && h in LiveToken(v', slot, now).value.sessions))
  }

  function LoginStep(v: DeviceView, h: nat, pin: Bytes, now: nat): (DeviceView, Reply) {
    if h !in v.index then (v, Failed(SessionHandleInvalid)) else
    match LiveToken(v, v.index[h], now)
    case Err(e) => (v, Failed(e))
    case Ok(t) =>
      match LoginToken(t, h, pin)
      case Err(e) => (v, Failed(e))
      case Ok(t') => (WithToken(v, v.index[h], t'), Done)
  }

  function LogoutStep(v: DeviceView, h: nat, now: nat): (DeviceView, Reply) {
    if h !in v.index then (v, Failed(SessionHandleInvalid)) else
    match LiveToken(v, v.index[h], now)
    case Err(e) => (v, Failed(e))
    case Ok(t) =>
      match LogoutToken(t, h)
      case Err(e) => (v, Failed(e))
      case Ok(t') => (WithToken(v, v.index[h], t'), Done)
  }

  function Step(v: DeviceView, ev: Event): (DeviceView, Reply) {
    match ev.op
    case Open(slot) => OpenStep(v, slot, ev.now)
    case Close(h) => CloseStep(v, h, ev.now)
    case CloseAll(slot) => CloseAllStep(v, slot, ev.now)
    case Find(h) => (v, Found(Resolves(v, h, ev.now)))
    case FindMut(h, r) => FindMutStep(v, h, r, ev.now)
    case Login(h, pin) => LoginStep(v, h, pin, ev.now)
    case Logout(h) => LogoutStep(v, h, ev.now)
  }

  /* ---------- Runs ---------- */

  function Run(v: DeviceView, run: seq<Event>): DeviceView {
    if run == [] then v else Step(Run(v, run[..|run| - 1]), run[|run| - 1]).0
  }

  /** The handles returned by the successful opens of a run, in order. */
  function Issued(v: DeviceView, run: seq<Event>): seq<nat> {
    if run == [] then []
    else
      var before := run[..|run| - 1];
      var reply := Step(Run(v, before), run[|run| - 1]).1;
      Issued(v, before) + if reply.Handle? then [reply.h] else []
  }

  /** A device as it is built from a configuration. */
  ghost predicate Fresh(v: DeviceView) {
    && v.index == map[]
    && v.nextHandle == 1
    && forall i | 0 <= i < |v.slots| && v.slots[i].Some? ::
         v.slots[i].value.sessions == map[] && !v.slots[i].value.userLogin
  }

  /* ---------- Login state and the session cap ---------- */

  /** Every session of a token is in the user state exactly when the token is logged in. */
  ghost predicate LoginUniform(t: TokenView) {
    forall h | h in t.sessions :: t.sessions[h].RoUser? <==> t.userLogin
  }

  ghost predicate TokenOk(t: TokenView) {
    LoginUniform(t) && |t.sessions| <= TOKEN_MAX_SESSIONS
  }

  ghost predicate Uniform(v: DeviceView) {
    forall i | 0 <= i < |v.slots| && v.slots[i].Some? :: TokenOk(v.slots[i].value)
  }

  /** Setting every state, or dropping one session, never grows the table. */
  lemma TableSizes(sessions: map<nat, SessionState>, h: nat, st: SessionState)
    ensures |AllTo(sessions, st)| == |sessions|
    ensures |sessions - {h}| <= |sessions|
  {
    assert AllTo(sessions, st).Keys == sessions.Keys;
    assert (sessions - {h}).Keys == sessions.Keys - {h};
  }

  /** Adding a session, under a handle new to the table or not. */
  lemma OpenTokenOk(t: TokenView, h: nat)
    requires TokenOk(t) && OpenToken(t, h).Ok?
    ensures TokenOk(OpenToken(t, h).value)
  {
    var t' := OpenToken(t, h).value;
    assert t'.sessions.Keys == t.sessions.Keys + {h};
    assert |t'.sessions.Keys| <= |t.sessions.Keys| + 1;
  }

  lemma TokenStepsOk(t: TokenView, h: nat, pin: Bytes)
    requires TokenOk(t)
    ensures CloseToken(t, h).Ok? ==> TokenOk(CloseToken(t, h).value)
    ensures LoginToken(t, h, pin).Ok? ==> TokenOk(LoginToken(t, h, pin).value)
    ensures LogoutToken(t, h).Ok? ==> TokenOk(LogoutToken(t, h).value)
  {
    TableSizes(t.sessions, h, RoUser);
    TableSizes(t.sessions, h, RoPublic);
  }

  lemma StepKeepsUniform(v: DeviceView, ev: Event)
    requires Uniform(v)
    ensures Uniform(Step(v, ev).0)
  {
    match ev.op
    case Open(slot) =>
      if OpenStep(v, slot, ev.now).1.Handle? {
        OpenTokenOk(v.slots[slot].value, v.nextHandle);
      }
    case Close(h) =>
      if h in v.index && LiveToken(v, v.index[h], ev.now).Ok? {
        TokenStepsOk(v.slots[v.index[h]].value, h, []);
      }
    case Login(h, pin) =>
      if h in v.index && LiveToken(v, v.index[h], ev.now).Ok? {
        TokenStepsOk(v.slots[v.index[h]].value, h, pin);
      }
    case Logout(h) =>
      if h in v.index && LiveToken(v, v.index[h], ev.now).Ok? {
        TokenStepsOk(v.slots[v.index[h]].value, h, []);
      }
    case _ =>
  }

  /** Login uniformity and the session cap hold after every run, however long. */
  lemma {:induction false} RunKeepsUniform(v: DeviceView, run: seq<Event>)
    requires Fresh(v)
    ensures Uniform(Run(v, run))
  {
    if run != [] {
      RunKeepsUniform(v, run[..|run| - 1]);
      StepKeepsUniform(Run(v, run[..|run| - 1]), run[|run| - 1]);
    }
  }

  /* ---------- The two session tables ---------- */

  /** Both session tables agree: the handles indexed to slot `i` are the keys of its token's table. */
  ghost predicate TablesAgree(v: DeviceView, i: nat)
    requires i < |v.slots|
  {
    v.slots[i].Some? ==> forall h :: h in v.slots[i].value.sessions <==> h in v.index && v.index[h] == i
  }

  ghost predicate Tables(v: DeviceView) {
    && (forall h | h in v.index :: v.index[h] < |v.slots|)
    && (forall i | 0 <= i < |v.slots| :: TablesAgree(v, i))
  }

  /** The next handle still names a session of another token. */
  predicate Clash(v: DeviceView, slot: nat) {
    var h := v.nextHandle;
    h in v.index && v.index[h] != slot && v.index[h] < |v.slots| && v.slots[v.index[h]].Some?
  }

  /** An open keeps the tables in agreement exactly when its handle is not in use for another token. */
  lemma OpenTablesIff(v: DeviceView, slot: nat, now: nat)
    requires Tables(v) && OpenStep(v, slot, now).1.Handle?
    ensures Tables(OpenStep(v, slot, now).0) <==> !Clash(v, slot)
  {
    var v' := OpenStep(v, slot, now).0;
    if Clash(v, slot) {
      var j := v.index[v.nextHandle];
      assert TablesAgree(v, j);
      assert v'.slots[j] == v.slots[j] && v.nextHandle in v'.slots[j].value.sessions;
      assert !TablesAgree(v', j);
    } else {
      forall i | 0 <= i < |v'.slots| ensures TablesAgree(v', i) {
        assert TablesAgree(v, i);
      }
    }
  }

  /** Replacing the token of one slot, with the index changed to match its new table only. */
  lemma ReplaceKeepsTables(v: DeviceView, slot: nat, t: TokenView, index: map<nat, nat>)
    requires Tables(v) && slot < |v.slots|
    requires forall h :: h in t.sessions <==> h in index && index[h] == slot
    requires forall h | h in index :: h in v.index && index[h] == v.index[h]
    requires forall h | h in v.index && v.index[h] != slot :: h in index
    ensures Tables(WithToken(v, slot, t).(index := index))
  {
    var v' := WithToken(v, slot, t).(index := index);
    forall i | 0 <= i < |v'.slots| ensures TablesAgree(v', i) {
      assert TablesAgree(v, i);
    }
  }

  lemma CloseKeepsTables(v: DeviceView, h: nat, now: nat)
    requires Tables(v)
    ensures Tables(CloseStep(v, h, now).0)
  {
    if CloseStep(v, h, now).1.Done? {
      var slot := v.index[h];
      var t := v.slots[slot].value;
      assert TablesAgree(v, slot);
      ReplaceKeepsTables(v, slot, t.(sessions := t.sessions - {h}), v.index - {h});
    }
  }

  lemma CloseAllKeepsTables(v: DeviceView, slot: nat, now: nat)
    requires Tables(v)
    ensures Tables(CloseAllStep(v, slot, now).0)
  {
    if CloseAllStep(v, slot, now).1.Done? {
      ReplaceKeepsTables(v, slot, v.slots[slot].value.(sessions := map[]), WithoutSlot(v.index, slot));
    }
  }

  /** Login and logout keep the handles of the token. */
  lemma SetAllKeepsTables(v: DeviceView, slot: nat, st: SessionState, user: bool)
    requires Tables(v) && slot < |v.slots| && v.slots[slot].Some?
    ensures var t := v.slots[slot].value;
            Tables(WithToken(v, slot, t.(sessions := AllTo(t.sessions, st), userLogin := user)))
  {
    var t := v.slots[slot].value;
    assert TablesAgree(v, slot);
    var t' := t.(sessions := AllTo(t.sessions, st), userLogin := user);
    ReplaceKeepsTables(v, slot, t', v.index);
    assert WithToken(v, slot, t').(index := v.index) == WithToken(v, slot, t');
  }

  lemma ReloadKeepsTables(v: DeviceView, r: Reload, now: nat)
    requires Tables(v)
    ensures Tables(ReloadIfChanged(v, r, now))
  {
    var v' := ReloadIfChanged(v, r, now);
    forall i | 0 <= i < |v'.slots| ensures TablesAgree(v', i) {
      assert TablesAgree(v, i);
    }
  }

  /** An accepted open whose handle is in use for another token. */
  predicate Clashes(v: DeviceView, ev: Event) {
    ev.op.Open? && Step(v, ev).1.Handle? && Clash(v, ev.op.slot)
  }

  lemma StepKeepsTables(v: DeviceView, ev: Event)
    requires Tables(v) && !Clashes(v, ev)
    ensures Tables(Step(v, ev).0)
  {
    match ev.op
    case Open(slot) =>
      if OpenStep(v, slot, ev.now).1.Handle? {
        OpenTablesIff(v, slot, ev.now);
      }
    case Close(h) => CloseKeepsTables(v, h, ev.now);
    case CloseAll(slot) => CloseAllKeepsTables(v, slot, ev.now);
    case Find(_) =>
    case FindMut(_, r) => ReloadKeepsTables(v, r, ev.now);
    case Login(h, pin) =>
      if LoginStep(v, h, pin, ev.now).1.Done? {
        SetAllKeepsTables(v, v.index[h], RoUser, true);
      }
    case Logout(h) =>
      if LogoutStep(v, h, ev.now).1.Done? {
        SetAllKeepsTables(v, v.index[h], RoPublic, false);
      }
  }

  ghost predicate NoClash(v: DeviceView, run: seq<Event>) {
    forall k | 0 <= k < |run| :: !Clashes(Run(v, run[..k]), run[k])
  }

  lemma NoClashPrefix(v: DeviceView, run: seq<Event>, n: nat)
    requires NoClash(v, run) && n <= |run|
    ensures NoClash(v, run[..n])
  {
    forall k | 0 <= k < n ensures !Clashes(Run(v, run[..n][..k]), run[..n][k]) {
      assert run[..n][..k] == run[..k];
    }
  }

  /** Session index: after every run in which no open gets a handle that is in use for another token,
      the handles indexed to a slot with a token are exactly the keys of its session table. */
  lemma {:induction false} RunKeepsTables(v: DeviceView, run: seq<Event>)
    requires Fresh(v) && NoClash(v, run)
    ensures Tables(Run(v, run))
  {
    if run != [] {
      var n := |run| - 1;
      NoClashPrefix(v, run, n);
      RunKeepsTables(v, run[..n]);
      StepKeepsTables(Run(v, run[..n]), run[n]);
    }
  }

  /* ---------- Handles ---------- */

  /** The value of the handle counter after `n` increments from 0. */
  function Nth(n: nat): nat {
    if n == 0 then 0 else NextHandle(Nth(n - 1))
  }

  lemma {:induction false} NthMod(n: nat)
    ensures Nth(n) == n % U64_SIZE
  {
    if n != 0 {
      NthMod(n - 1);
    }
  }

  lemma NthSmall(n: nat)
    requires n < U64_SIZE
    ensures Nth(n) == n
  {
    NthMod(n);
  }

  lemma StepCounter(v: DeviceView, ev: Event)
    ensures var (v', r) := Step(v, ev);
            if r.Handle? then r.h == v.nextHandle && v'.nextHandle == NextHandle(v.nextHandle)
            else v'.nextHandle == v.nextHandle
  {
  }

  /** One more call after so many handles were given out in order. */
  lemma CounterNext(v: DeviceView, ev: Event, handles: seq<nat>)
    requires v.nextHandle == Nth(|handles| + 1) && forall k | 0 <= k < |handles| :: handles[k] == Nth(k + 1)
    ensures var (v', r) := Step(v, ev);
            var next := handles + if r.Handle? then [r.h] else [];
            && v'.nextHandle == Nth(|next| + 1)
            && forall k | 0 <= k < |next| :: next[k] == Nth(k + 1)
  {
    StepCounter(v, ev);
  }

  /** The k-th open of any run, however the calls mix, gets handle k (mod 2^64). */
  lemma {:induction false} IssuedHandles(v: DeviceView, run: seq<Event>)
    requires Fresh(v)
    ensures Run(v, run).nextHandle == Nth(|Issued(v, run)| + 1)
    ensures forall k | 0 <= k < |Issued(v, run)| :: Issued(v, run)[k] == Nth(k + 1)
  {
    if run != [] {
      var before, ev := run[..|run| - 1], run[|run| - 1];
      IssuedHandles(v, before);
      CounterNext(Run(v, before), ev, Issued(v, before));
    }
  }

  ghost predicate FreshHandles(handles: seq<nat>) {
    && (forall k | 0 <= k < |handles| :: handles[k] != 0)
    && (forall j, k | 0 <= j < k < |handles| :: handles[j] != handles[k])
  }

  /** No handle is zero or issued twice exactly when the run opens fewer than 2^64 sessions. */
  lemma HandlesFreshIff(v: DeviceView, run: seq<Event>)
    requires Fresh(v)
    ensures FreshHandles(Issued(v, run)) <==> |Issued(v, run)| < U64_SIZE
  {
    IssuedHandles(v, run);
    forall k | 0 <= k < |Issued(v, run)| && k + 1 < U64_SIZE ensures Issued(v, run)[k] == k + 1 {
      NthSmall(k + 1);
    }
    if |Issued(v, run)| >= U64_SIZE {
      NthSmall(U64_SIZE - 1);
      assert Issued(v, run)[U64_SIZE - 1] == 0;
    }
  }

  /** `issued` is the number of handles issued so far; while they are fewer than 2^64 the index holds
      only those. */
  ghost predicate Inv(v: DeviceView, issued: nat) {
    && v.nextHandle == Nth(issued + 1)
    && (forall h | h in v.index :: 1 <= h <= issued)
    && Tables(v)
  }

  lemma StepIndex(v: DeviceView, ev: Event)
    ensures forall h | h in Step(v, ev).0.index && h !in v.index :: Step(v, ev).1 == Handle(h)
  {
  }

  lemma StepKeepsInv(v: DeviceView, ev: Event, issued: nat)
    requires Inv(v, issued)
    requires Step(v, ev).1.Handle? ==> issued + 1 < U64_SIZE
    ensures !Clashes(v, ev)
    ensures Inv(Step(v, ev).0, if Step(v, ev).1.Handle? then issued + 1 else issued)
  {
    StepCounter(v, ev);
    StepIndex(v, ev);
    if Step(v, ev).1.Handle? {
      NthSmall(issued + 1);
    }
    StepKeepsTables(v, ev);
  }

  lemma FreshInv(v: DeviceView)
    requires Fresh(v)
    ensures Inv(v, 0)
  {
  }

  lemma NoClashNext(v: DeviceView, run: seq<Event>, ev: Event)
    requires NoClash(v, run) && !Clashes(Run(v, run), ev)
    ensures NoClash(v, run + [ev])
  {
    var run' := run + [ev];
    forall k | 0 <= k < |run'| ensures !Clashes(Run(v, run'[..k]), run'[k]) {
      assert run'[..k] == run[..k];
      if k == |run| {
        assert run[..k] == run;
      }
    }
  }

  /** One more event: the next state, and the handle it issued, if any. */
  lemma IssuedNext(v: DeviceView, run: seq<Event>, ev: Event)
    ensures Run(v, run + [ev]) == Step(Run(v, run), ev).0
    ensures |Issued(v, run + [ev])| == if Step(Run(v, run), ev).1.Handle? then |Issued(v, run)| + 1 else |Issued(v, run)|
  {
    assert (run + [ev])[..|run|] == run;
  }

  lemma InvNext(v: DeviceView, run: seq<Event>, ev: Event)
    requires Inv(Run(v, run), |Issued(v, run)|) && NoClash(v, run) && |Issued(v, run + [ev])| < U64_SIZE
    ensures Inv(Run(v, run + [ev]), |Issued(v, run + [ev])|)
    ensures NoClash(v, run + [ev])
  {
    IssuedNext(v, run, ev);
    StepKeepsInv(Run(v, run), ev, |Issued(v, run)|);
    NoClashNext(v, run, ev);
  }

  /** Below 2^64 opens no handle in use is handed out again, so the tables agree. */
  lemma {:induction false} RunKeepsInv(v: DeviceView, run: seq<Event>)
    requires Fresh(v)
    requires |Issued(v, run)| < U64_SIZE
    ensures Inv(Run(v, run), |Issued(v, run)|)
    ensures NoClash(v, run)
  {
    if run == [] {
      FreshInv(v);
    } else {
      var before, ev := run[..|run| - 1], run[|run| - 1];
      assert run == before + [ev];
      IssuedFewer(v, before, ev);
      RunKeepsInv(v, before);
      InvNext(v, before, ev);
    }
  }

  lemma IssuedFewer(v: DeviceView, run: seq<Event>, ev: Event)
    ensures |Issued(v, run)| <= |Issued(v, run + [ev])|
  {
    IssuedNext(v, run, ev);
  }

  /* ---------- Handles that no longer resolve ---------- */

  /** `h` names a session of a token that is still in its slot, expired or not. */
  predicate Attached(v: DeviceView, h: nat) {
    && h in v.index && v.index[h] < |v.slots|
    && v.slots[v.index[h]].Some? && h in v.slots[v.index[h]].value.sessions
  }

  /** Slots keep their number, and an empty slot stays empty: no call, reload included, gains a token. */
  lemma StepKeepsEmpty(v: DeviceView, ev: Event)
    ensures |Step(v, ev).0.slots| == |v.slots|
    ensures forall i | 0 <= i < |v.slots| && v.slots[i].None? :: Step(v, ev).0.slots[i].None?
  {
  }

  /** A detached handle comes back with the open that issues it again, and with nothing else; then it
      resolves. */
  lemma ReissuedIff(v: DeviceView, ev: Event, h: nat)
    requires !Attached(v, h)
    ensures Attached(Step(v, ev).0, h) <==> Step(v, ev).1 == Handle(h)
    ensures Step(v, ev).1 == Handle(h) ==> Resolves(Step(v, ev).0, h, ev.now)
  {
    StepKeepsEmpty(v, ev);
  }

  /** At some point of the run the handle names a session. */
  ghost predicate Returns(v: DeviceView, run: seq<Event>, h: nat) {
    exists k | 0 <= k <= |run| :: Attached(Run(v, run[..k]), h)
  }

  lemma ReturnsNext(v: DeviceView, run: seq<Event>, ev: Event, h: nat)
    ensures Returns(v, run + [ev], h) <==> Returns(v, run, h) || Attached(Run(v, run + [ev]), h)
  {
    var more := run + [ev];
    assert more[..|more|] == more;
    forall k | 0 <= k <= |run| ensures more[..k] == run[..k] {
    }
    if Returns(v, run, h) {
      var k :| 0 <= k <= |run| && Attached(Run(v, run[..k]), h);
      assert Attached(Run(v, more[..k]), h);
    }
  }

  /** Over any run from any state: a detached handle names a session again exactly when some open of the
      run was answered with it. */
  lemma {:induction false} ReturnsIff(v: DeviceView, run: seq<Event>, h: nat)
    requires !Attached(v, h)
    ensures Returns(v, run, h) <==> h in Issued(v, run)
  {
    if run == [] {
      assert run[..0] == [];
    } else {
      var before, ev := run[..|run| - 1], run[|run| - 1];
      assert run == before + [ev];
      ReturnsIff(v, before, h);
      ReturnsNext(v, before, ev, h);
      if !Returns(v, before, h) {
        assert before[..|before|] == before;
        ReissuedIff(Run(v, before), ev, h);
      }
    }
  }

  lemma {:induction false} IssuedAfter(v: DeviceView, run: seq<Event>, more: seq<Event>)
    ensures Run(v, run + more) == Run(Run(v, run), more)
    ensures Issued(v, run + more) == Issued(v, run) + Issued(Run(v, run), more)
  {
    if more == [] {
      assert run + more == run;
    } else {
      var m := more[..|more| - 1];
      assert (run + more)[..|run + more| - 1] == run + m;
      IssuedAfter(v, run, m);
    }
  }

  /** The handle of an open is next issued 2^64 opens later. */
  lemma NextIssue(handles: seq<nat>, j: nat, from: nat)
    requires forall k | 0 <= k < |handles| :: handles[k] == Nth(k + 1)
    requires j < from <= |handles| && from <= j + U64_SIZE
    ensures handles[j] in handles[from..] <==> j + U64_SIZE < |handles|
  {
    if handles[j] in handles[from..] {
      var k :| from <= k < |handles| && handles[k] == handles[j];
      SameNth(j + 1, k + 1);
    }
    if j + U64_SIZE < |handles| {
      NthMod(j + 1);
      NthMod(j + 1 + U64_SIZE);
      assert handles[from..][j + U64_SIZE - from] == handles[j];
    }
  }

  lemma SameNth(a: nat, b: nat)
    requires a < b && Nth(a) == Nth(b)
    ensures a + U64_SIZE <= b
  {
    NthMod(a);
    NthMod(b);
  }

  /** A handle that the j-th open got, counted from 0, and that was closed, or whose slot was emptied,
      names nothing in any continuation up to open j + 2^64, and that open brings it back. */
  lemma DetachedUntil(v: DeviceView, run: seq<Event>, more: seq<Event>, j: nat)
    requires Fresh(v) && j < |Issued(v, run)| <= j + U64_SIZE && !Attached(Run(v, run), Issued(v, run)[j])
    ensures Returns(Run(v, run), more, Issued(v, run)[j]) <==> j + U64_SIZE < |Issued(v, run + more)|
  {
    var h := Issued(v, run)[j];
    ReturnsIff(Run(v, run), more, h);
    IssuedHandles(v, run + more);
    IssuedAfter(v, run, more);
    NextIssue(Issued(v, run + more), j, |Issued(v, run)|);
  }

  /** So a detached handle does not resolve again in a run of at most 2^64 opens. */
  lemma DetachedForever(v: DeviceView, run: seq<Event>, more: seq<Event>, h: nat, now: nat)
    requires Fresh(v)
    requires |Issued(v, run + more)| <= U64_SIZE
    requires h in Issued(v, run) && !Attached(Run(v, run), h)
    ensures !Attached(Run(v, run + more), h)
    ensures !Resolves(Run(v, run + more), h, now)
  {
    IssuedAfter(v, run, more);
    var j: nat :| j < |Issued(v, run)| && Issued(v, run)[j] == h;
    DetachedUntil(v, run, more, j);
    assert more[..|more|] == more;
  }

  /* ---------- Index entries without a session ---------- */

  /** An index entry leads to a session or to an empty slot. */
  ghost predicate Backed(v: DeviceView) {
    forall h | h in v.index :: v.index[h] < |v.slots| && (v.slots[v.index[h]].Some? ==> Attached(v, h))
  }

  /** A slot whose token keeps its sessions, or loses some together with their entries. */
  lemma ReplaceKeepsBacked(v: DeviceView, slot: nat, t: TokenView, index: map<nat, nat>)
    requires Backed(v) && slot < |v.slots|
    requires forall h | h in index :: if index[h] == slot then h in t.sessions else h in v.index && index[h] == v.index[h]
    ensures Backed(WithToken(v, slot, t).(index := index))
  {
    var v' := WithToken(v, slot, t).(index := index);
    forall h | h in v'.index ensures v'.index[h] < |v'.slots| && (v'.slots[v'.index[h]].Some? ==> Attached(v', h)) {
      if index[h] != slot {
        assert v.slots[v.index[h]].Some? ==> Attached(v, h);
      }
    }
  }

  lemma ReloadKeepsBacked(v: DeviceView, r: Reload, now: nat)
    requires Backed(v)
    ensures Backed(ReloadIfChanged(v, r, now))
  {
    var v' := ReloadIfChanged(v, r, now);
    forall h | h in v'.index ensures v'.index[h] < |v'.slots| && (v'.slots[v'.index[h]].Some? ==> Attached(v', h)) {
      assert v.slots[v.index[h]].Some? ==> Attached(v, h);
    }
  }

  /** A call that works on the token of a handle's slot. */
  lemma SessionKeepsBacked(v: DeviceView, h: nat, t: TokenView, index: map<nat, nat>)
    requires Backed(v) && h in v.index && v.slots[v.index[h]].Some?
    requires index == v.index || index == v.index - {h}
    requires forall k | k in v.slots[v.index[h]].value.sessions && k in index :: k in t.sessions
    ensures Backed(WithToken(v, v.index[h], t).(index := index))
  {
    forall k | k in index && index[k] == v.index[h] ensures k in t.sessions {
      assert Attached(v, k);
    }
    ReplaceKeepsBacked(v, v.index[h], t, index);
  }

  lemma StepKeepsBacked(v: DeviceView, ev: Event)
    requires Backed(v)
    ensures Backed(Step(v, ev).0)
  {
    var v' := Step(v, ev).0;
    match ev.op
    case FindMut(_, r) => ReloadKeepsBacked(v, r, ev.now);
    case Find(_) =>
    case Open(slot) =>
      if v' != v {
        OpenKeepsBacked(v, slot, ev.now);
      }
    case CloseAll(slot) =>
      if v' != v {
        ReplaceKeepsBacked(v, slot, v'.slots[slot].value, v'.index);
      }
    case _ =>
      if v' != v {
        SessionKeepsBacked(v, ev.op.h, v'.slots[v.index[ev.op.h]].value, v'.index);
      }
  }

  lemma OpenKeepsBacked(v: DeviceView, slot: nat, now: nat)
    requires Backed(v) && OpenStep(v, slot, now).1.Handle?
    ensures Backed(OpenStep(v, slot, now).0)
  {
    var v' := OpenStep(v, slot, now).0;
    forall h | h in v'.index && v'.index[h] == slot ensures h in v'.slots[slot].value.sessions {
      assert h == v.nextHandle || Attached(v, h);
    }
    ReplaceKeepsBacked(v, slot, v'.slots[slot].value, v'.index);
  }

  lemma {:induction false} RunKeepsBacked(v: DeviceView, run: seq<Event>)
    requires Fresh(v)
    ensures Backed(Run(v, run))
  {
    if run != [] {
      RunKeepsBacked(v, run[..|run| - 1]);
      StepKeepsBacked(Run(v, run[..|run| - 1]), run[|run| - 1]);
    }
  }

  /** After every run, an index entry that its slot does not back is left only by an empty slot, and a
      lookup through it finds nothing at any time. */
  lemma StaleEntries(v: DeviceView, run: seq<Event>, h: nat)
    requires Fresh(v) && h in Run(v, run).index
    ensures Run(v, run).index[h] < |Run(v, run).slots|
    ensures Attached(Run(v, run), h) <==> Run(v, run).slots[Run(v, run).index[h]].Some?
    ensures !Attached(Run(v, run), h) ==> forall now :: !Resolves(Run(v, run), h, now)
  {
    RunKeepsBacked(v, run);
  }

  /** A lookup that reloads slots whose content has no token for slot `i`. */
  predicate Empties(v: DeviceView, ev: Event, i: nat) {
    && ev.op.FindMut? && ev.op.h in v.index
    && ev.op.reload.Stamp? && ev.op.reload.mtime != v.stamp && ev.op.reload.content.Some?
    && i < |ev.op.reload.content.value| && ev.op.reload.content.value[i].None?
  }

  /** In any state, a backed entry becomes an unbacked one exactly when a reload empties its slot after
      the token has expired. */
  lemma StaleIff(v: DeviceView, ev: Event, h: nat)
    requires Attached(v, h)
    ensures (h in Step(v, ev).0.index && !Attached(Step(v, ev).0, h))
            <==> Empties(v, ev, v.index[h]) && v.slots[v.index[h]].value.Expired(ev.now)
  {
    var i, v' := v.index[h], Step(v, ev).0;
    if Empties(v, ev, i) {
      assert v'.slots[i].None?;
      assert h in v'.index <==> !Released(v, ev.op.reload.content.value, i, ev.now);
    }
  }

  /** Such entries do occur, in any slot of any new device: a session is opened, its token expires, and a
      reload empties the slot. */
  lemma StaleEntryExample(v: DeviceView, i: nat, now: nat, mtime: nat, content: Store.Slots)
    requires Fresh(v) && i < |v.slots| && v.slots[i].Some? && v.slots[i].value.expiry < now && mtime != v.stamp
    requires i < |content| && content[i].None?
    ensures var run := [Event(0, Open(i)), Event(now, FindMut(1, Stamp(mtime, Some(content))))];
            1 in Run(v, run).index && !Attached(Run(v, run), 1)
  {
    var e0, e1 := Event(0, Open(i)), Event(now, FindMut(1, Stamp(mtime, Some(content))));
    OpenFirst(v, i);
    var w := Run(v, [e0]);
    assert [e0, e1] == [e0] + [e1];
    IssuedNext(v, [e0], e1);
    StaleIff(w, e1, 1);
  }

  /** Store and device do not agree on the second of the expiry: a reload empties the slot of a token
      that is still live on the device exactly when the clock shows that second. */
  lemma LastSecond(v: DeviceView, h: nat, stored: Store.Slots, mtime: nat, now: nat)
    requires Attached(v, h) && mtime != v.stamp && v.index[h] < |stored| && stored[v.index[h]].Some?
    requires stored[v.index[h]].value.expiry == v.slots[v.index[h]].value.expiry
    ensures var ev := Event(now, FindMut(h, Stamp(mtime, Some(Store.Sweep(stored, now)))));
            && (Resolves(v, h, now) && Step(v, ev).1 == Found(false) <==> now == v.slots[v.index[h]].value.expiry)
            && (now == v.slots[v.index[h]].value.expiry ==>
                  Step(v, ev).0.slots[v.index[h]].None? && h !in Step(v, ev).0.index)
  {
    var i, content := v.index[h], Store.Sweep(stored, now);
    assert content[i] == Store.Kept(stored[i], now);
    assert Reloaded(v, content, now).slots[i] == ReloadedSlot(v.slots[i], content[i]);
  }

  /** The run that opens and closes `n` sessions in turn on slot 0, from a handle counter at `Nth(c)`. */
  function Turns(c: nat, n: nat): seq<Event> {
    if n == 0 then []
    else Turns(c, n - 1) + [Event(0, Open(0)), Event(0, Close(Nth(c + n - 1)))]
  }

  /** Slot 0 has a token without sessions. */
  predicate Unused(w: DeviceView) {
    |w.slots| > 0 && w.slots[0].Some? && w.slots[0].value.sessions == map[]
  }

  lemma OpenThenClose(w: DeviceView)
    requires Unused(w) && w.nextHandle !in w.index
    ensures OpenStep(w, 0, 0).1 == Handle(w.nextHandle)
    ensures CloseStep(OpenStep(w, 0, 0).0, w.nextHandle, 0).0 == w.(nextHandle := NextHandle(w.nextHandle))
  {
    var w1 := OpenStep(w, 0, 0).0;
    var w2 := CloseStep(w1, w.nextHandle, 0).0;
    assert w1.slots[0].value.sessions - {w.nextHandle} == map[];
    assert w1.index - {w.nextHandle} == w.index;
    assert w2.slots == w.slots;
  }

  lemma NextNth(n: nat)
    requires n > 0
    ensures Nth(n) == NextHandle(Nth(n - 1))
  {
  }

  lemma OneTurn(v: DeviceView, base: seq<Event>, w: DeviceView)
    requires Run(v, base) == w && Unused(w) && w.nextHandle !in w.index
    ensures var run := base + [Event(0, Open(0)), Event(0, Close(w.nextHandle))];
            && Run(v, run) == w.(nextHandle := NextHandle(w.nextHandle))
            && |Issued(v, run)| == |Issued(v, base)| + 1
  {
    var e0, e1 := Event(0, Open(0)), Event(0, Close(w.nextHandle));
    IssuedNext(v, base, e0);
    IssuedNext(v, base + [e0], e1);
    assert base + [e0, e1] == (base + [e0]) + [e1];
    OpenThenClose(w);
    StepCounter(Run(v, base + [e0]), e1);
  }

  /** The handles that so many turns get are not in use. */
  ghost predicate NextFree(v: DeviceView, c: nat, n: nat) {
    forall k | c <= k < c + n :: Nth(k) !in v.index
  }

  /** One more turn. */
  lemma TurnStep(v: DeviceView, n: nat, base: seq<Event>, x: nat)
    requires Unused(v) && Run(v, base) == v.(nextHandle := x) && |Issued(v, base)| == n && x !in v.index
    ensures var run := base + [Event(0, Open(0)), Event(0, Close(x))];
            Run(v, run) == v.(nextHandle := NextHandle(x)) && |Issued(v, run)| == n + 1
  {
    OneTurn(v, base, v.(nextHandle := x));
  }

  /** Any number of turns changes nothing but the handle counter. */
  lemma {:induction false} TurnsRun(v: DeviceView, c: nat, n: nat)
    requires Unused(v) && v.nextHandle == Nth(c) && NextFree(v, c, n)
    ensures Run(v, Turns(c, n)) == v.(nextHandle := Nth(c + n))
    ensures |Issued(v, Turns(c, n))| == n
  {
    if n != 0 {
      var x := Nth(c + n - 1);
      assert x !in v.index && NextFree(v, c, n - 1);
      TurnsRun(v, c, n - 1);
      TurnStep(v, n - 1, Turns(c, n - 1), x);
      NextNth(c + n);
    }
  }

  /** Runs of any number of opens exist, so the bound of `HandlesFreshIff` is met and passed. */
  lemma LongRuns(v: DeviceView, n: nat)
    requires Fresh(v) && |v.slots| > 0 && v.slots[0].Some?
    ensures |Issued(v, Turns(1, n))| == n
    ensures Run(v, Turns(1, n)) == v.(nextHandle := Nth(n + 1))
  {
    NthSmall(1);
    TurnsRun(v, 1, n);
  }

  /** From the second handle on, the counter comes round to 1 only after 2^64 - 1 increments. */
  lemma NthRound()
    ensures Nth(U64_SIZE + 1) == 1
    ensures forall k | 2 <= k < U64_SIZE + 1 :: Nth(k) != 1
  {
    NthMod(U64_SIZE + 1);
    forall k | 2 <= k < U64_SIZE + 1 ensures Nth(k) != 1 {
      NthMod(k);
    }
  }

  lemma OpenFirst(v: DeviceView, slot: nat)
    requires Fresh(v) && slot < |v.slots| && v.slots[slot].Some?
    ensures var w := Run(v, [Event(0, Open(slot))]);
            && w.index == map[1 := slot] && w.nextHandle == 2 && |w.slots| == |v.slots| && w.slots[slot].Some?
            && forall i | 0 <= i < |v.slots| && i != slot :: w.slots[i] == v.slots[i]
  {
    var e := Event(0, Open(slot));
    assert [e][..0] == [];
    assert Run(v, [e]) == Step(v, e).0;
  }

  /** The run after which the tables disagree: a session is left open on slot 1 while 2^64 - 1 others
      come and go on slot 0, and then one more is opened there. */
  function RoundRun(): seq<Event> {
    [Event(0, Open(1))] + (Turns(2, U64_SIZE - 1) + [Event(0, Open(0))])
  }

  /** Up to the last open only the counter has moved: it is back at 1. */
  lemma ComesRound(v: DeviceView)
    requires Fresh(v) && |v.slots| > 1 && v.slots[0].Some? && v.slots[1].Some?
    ensures Run(v, [Event(0, Open(1))] + Turns(2, U64_SIZE - 1)) == Run(v, [Event(0, Open(1))]).(nextHandle := 1)
  {
    var first := [Event(0, Open(1))];
    OpenFirst(v, 1);
    NthRound();
    NthSmall(2);
    var w := Run(v, first);
    assert NextFree(w, 2, U64_SIZE - 1);
    TurnsRun(w, 2, U64_SIZE - 1);
    IssuedAfter(v, first, Turns(2, U64_SIZE - 1));
  }

  lemma TablesPart(v: DeviceView)
    requires Fresh(v) && |v.slots| > 1 && v.slots[0].Some? && v.slots[1].Some?
    ensures Tables(Run(v, [Event(0, Open(1))] + Turns(2, U64_SIZE - 1)))
    ensures !Tables(Run(v, RoundRun()))
  {
    var first, turns, last := [Event(0, Open(1))], Turns(2, U64_SIZE - 1), Event(0, Open(0));
    var w := Run(v, first);
    var r := w.(nextHandle := 1);
    ComesRound(v);
    OpenFirst(v, 1);
    TablesKeptByOpen(v, w, r);
    OpenBreaks(r);
    assert RoundRun() == (first + turns) + [last];
    IssuedNext(v, first + turns, last);
  }

  /** The open that is given the handle of the other slot's session. */
  lemma OpenBreaks(r: DeviceView)
    requires Tables(r) && r.nextHandle == 1 && r.index == map[1 := 1] && |r.slots| > 1 && r.slots[1].Some?
    requires r.slots[0].Some? && r.slots[0].value.sessions == map[]
    ensures !Tables(Step(r, Event(0, Open(0))).0)
  {
    OpenTablesIff(r, 0, 0);
  }

  /** The bound of `DetachedForever` is met: after 2^64 sessions were opened and closed one after the other
      the first handle names nothing, and the next open brings it back. */
  lemma FirstReturns(v: DeviceView)
    requires Fresh(v) && |v.slots| > 0 && v.slots[0].Some?
    ensures var run := Turns(1, U64_SIZE);
            && |Issued(v, run)| == U64_SIZE && Issued(v, run)[0] == 1 && !Attached(Run(v, run), 1)
            && Resolves(Run(v, run + [Event(0, Open(0))]), 1, 0)
  {
    var run, ev := Turns(1, U64_SIZE), Event(0, Open(0));
    LongRuns(v, U64_SIZE);
    NthRound();
    IssuedHandles(v, run);
    NthSmall(1);
    IssuedNext(v, run, ev);
    OpenThenClose(Run(v, run));
    ReissuedIff(Run(v, run), ev, 1);
  }

  /** The tables do not depend on the counter. */
  lemma TablesKeptByOpen(v: DeviceView, w: DeviceView, r: DeviceView)
    requires Fresh(v) && |v.slots| > 1 && v.slots[1].Some? && w == Run(v, [Event(0, Open(1))])
    requires r == w.(nextHandle := r.nextHandle)
    ensures Tables(r)
  {
    var e := Event(0, Open(1));
    assert [e][..0] == [];
    assert w == Step(v, e).0;
    StepKeepsTables(v, e);
    forall i | 0 <= i < |r.slots| ensures TablesAgree(r, i) {
      assert TablesAgree(w, i);
    }
  }

  /* ---------- The login flag ---------- */

  /** A login or logout on a session of slot `i` that is accepted. */
  predicate Accepted(v: DeviceView, ev: Event, i: nat) {
    && (ev.op.Login? || ev.op.Logout?) && ev.op.h in v.index && v.index[ev.op.h] == i
    && Step(v, ev).1.Done?
  }

  /** The k-th event of a run is an accepted login or logout on slot `i`. */
  predicate AcceptedAt(v: DeviceView, run: seq<Event>, k: nat, i: nat) {
    k < |run| && Accepted(Run(v, run[..k]), run[k], i)
  }

  /** Whether the last accepted login or logout on slot `i` was a login. */
  function LastIsLogin(v: DeviceView, run: seq<Event>, i: nat): bool {
    if run == [] then false
    else if AcceptedAt(v, run, |run| - 1, i) then run[|run| - 1].op.Login?
    else LastIsLogin(v, run[..|run| - 1], i)
  }

  lemma AcceptedAtPrefix(v: DeviceView, run: seq<Event>, n: nat, k: nat, i: nat)
    requires k < n <= |run|
    ensures AcceptedAt(v, run[..n], k, i) == AcceptedAt(v, run, k, i)
  {
    assert run[..n][..k] == run[..k];
  }

  /** Only an accepted login or logout on a slot changes its flag, and nothing changes what its token
      was built from. */
  lemma StepLogin(v: DeviceView, ev: Event, i: nat)
    requires i < |Step(v, ev).0.slots| && Step(v, ev).0.slots[i].Some?
    ensures i < |v.slots| && v.slots[i].Some?
    ensures var (t, t') := (v.slots[i].value, Step(v, ev).0.slots[i].value);
            && t'.built == t.built
            && t'.userLogin == if Accepted(v, ev, i) then ev.op.Login? else t.userLogin
  {
    StepKeepsEmpty(v, ev);
  }

  /** A login is accepted only for the token's PIN, on a session of that token. */
  lemma AcceptedNeedsPin(v: DeviceView, ev: Event, i: nat)
    requires Accepted(v, ev, i) && ev.op.Login?
    ensures i < |v.slots| && v.slots[i].Some? && ev.op.h in v.slots[i].value.sessions
    ensures ev.op.pin == v.slots[i].value.built.pin
  {
  }

  /** Over every run the flag of a token still in its slot is set exactly when the last accepted login
      or logout there was a login, whatever was opened, closed or reloaded in between. */
  lemma {:induction false} FlagIs(v: DeviceView, run: seq<Event>, i: nat)
    requires Fresh(v) && i < |Run(v, run).slots| && Run(v, run).slots[i].Some?
    ensures i < |v.slots| && v.slots[i].Some? && Run(v, run).slots[i].value.built == v.slots[i].value.built
    ensures Run(v, run).slots[i].value.userLogin == LastIsLogin(v, run, i)
  {
    if run != [] {
      var before, ev := run[..|run| - 1], run[|run| - 1];
      StepLogin(Run(v, before), ev, i);
      FlagIs(v, before, i);
    }
  }

  /** The last accepted login or logout, when it was a login. */
  lemma {:induction false} LastLogin(v: DeviceView, run: seq<Event>, i: nat) returns (k: nat)
    requires LastIsLogin(v, run, i)
    ensures k < |run| && run[k].op.Login? && AcceptedAt(v, run, k, i)
    ensures forall j | k < j < |run| :: !AcceptedAt(v, run, j, i)
  {
    var n := |run| - 1;
    if AcceptedAt(v, run, n, i) {
      k := n;
    } else {
      k := LastLogin(v, run[..n], i);
      AcceptedAtPrefix(v, run, n, k, i);
      NoneAfter(v, run, run[..n], k, i);
    }
  }

  lemma NoneAfter(v: DeviceView, run: seq<Event>, before: seq<Event>, k: nat, i: nat)
    requires run != [] && before == run[..|run| - 1] && !AcceptedAt(v, run, |run| - 1, i)
    requires forall j | k < j < |before| :: !AcceptedAt(v, before, j, i)
    ensures forall j | k < j < |run| :: !AcceptedAt(v, run, j, i)
  {
    forall j | k < j < |before| ensures !AcceptedAt(v, run, j, i) {
      AcceptedAtPrefix(v, run, |before|, j, i);
    }
  }

  /** A token is logged in only if some call presented its PIN on one of its sessions and was accepted,
      and no logout was accepted there since. */
  lemma LoggedInOnlyByPin(v: DeviceView, run: seq<Event>, i: nat) returns (k: nat)
    requires Fresh(v) && i < |Run(v, run).slots| && Run(v, run).slots[i].Some?
    requires Run(v, run).slots[i].value.userLogin
    ensures i < |v.slots| && v.slots[i].Some?
    ensures k < |run| && run[k].op.Login? && AcceptedAt(v, run, k, i)
    ensures run[k].op.pin == v.slots[i].value.built.pin
    ensures forall j | k < j < |run| :: !AcceptedAt(v, run, j, i)
  {
    FlagIs(v, run, i);
    k := LastLogin(v, run, i);
    AcceptedNeedsPin(Run(v, run[..k]), run[k], i);
    FlagIs(v, run[..k], i);
  }

  /** Logging in on the only session of a token and closing it. */
  lemma LoginThenClose(v: DeviceView, slot: nat, now: nat, h: nat)
    requires LiveToken(v, slot, now).Ok? && h in v.index && v.index[h] == slot
    requires v.slots[slot].value.sessions == map[h := RoPublic]
    ensures var v2 := Step(v, Event(now, Login(h, v.slots[slot].value.built.pin))).0;
            var v3 := Step(v2, Event(now, Close(h))).0;
            && v3.slots == v.slots[slot := Some(v.slots[slot].value.(sessions := map[], userLogin := true))]
            && v3.nextHandle == v.nextHandle
  {
    var t := v.slots[slot].value;
    var v2 := Step(v, Event(now, Login(h, t.built.pin))).0;
    assert v2.slots[slot].value.sessions == map[h := RoUser];
    var v3 := Step(v2, Event(now, Close(h))).0;
    assert v3.slots[slot].value.sessions == map[];
  }

  /** Closing the last session does not log out: whenever a first session can be opened, logging in on
      it, closing it and opening another gives a session already in the user state. */
  lemma StillLoggedIn(v: DeviceView, slot: nat, now: nat)
    requires OpenStep(v, slot, now).1.Handle?
    requires v.slots[slot].value.sessions == map[] && !v.slots[slot].value.userLogin
    ensures var h := v.nextHandle;
            var v1 := Step(v, Event(now, Open(slot))).0;
            var v2 := Step(v1, Event(now, Login(h, v.slots[slot].value.built.pin))).0;
            var v3 := Step(v2, Event(now, Close(h))).0;
            var v4 := Step(v3, Event(now, Open(slot))).0;
            && slot < |v3.slots| && v3.slots[slot].Some? && v3.slots[slot].value.sessions == map[]
            && slot < |v4.slots| && v4.slots[slot].Some?
            && v4.slots[slot].value.sessions == map[NextHandle(h) := RoUser]
  {
    var v1 := Step(v, Event(now, Open(slot))).0;
    assert v1.slots[slot].value.sessions == map[v.nextHandle := RoPublic];
    LoginThenClose(v1, slot, now, v.nextHandle);
  }
}
