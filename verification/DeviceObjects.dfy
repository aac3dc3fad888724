/**
 The device, its tokens and their sessions as mutable objects, proved against `DeviceSpec.Step`.

 Every read of the monotonic clock inside one call sees the same `now`.
 */
module DeviceObjects {
  import opened Common
  import opened DeviceSpec
  import Store

  class Session {
    const slotId: nat
    var state: SessionState

    constructor (slotId: nat, state: SessionState)
      ensures this.slotId == slotId && this.state == state
    {
      this.slotId := slotId;
      this.state := state;
    }
  }

  class Token {
    const slotId: nat
    const built: Store.Token
    var sessions: map<nat, Session>
    var userLogin: bool
    var expiry: nat

    /** Distinct handles name distinct session objects. */
    ghost predicate Valid()
      reads this
    {
      forall h, k | h in sessions && k in sessions && h != k :: sessions[h] != sessions[k]
    }

    ghost function View(): TokenView
      reads this, sessions.Values
    {
      TokenView(built, map h | h in sessions :: sessions[h].state, userLogin, expiry)
    }

    constructor (slotId: nat, config: Store.Token)
      ensures Valid() && sessions == map[]
      ensures View() == NewToken(config)
    {
      this.slotId := slotId;
      built := config;
      sessions := map[];
      userLogin := false;
      expiry := config.expiry;
    }

    predicate HasExpired(now: nat)
      reads this
    {
      now > expiry
    }

    method Refresh(newExpiry: nat)
      modifies this`expiry
      ensures View() == old(View()).(expiry := newExpiry)
    {
      if newExpiry != expiry {
        expiry := newExpiry;
      }
    }

    method OpenSession(h: nat) returns (r: Result<(), Error>)
      requires Valid()
      modifies this`sessions
      ensures Valid()
      ensures match OpenToken(old(View()), h)
              case Err(e) => r == Err(e) && sessions == old(sessions)
              case Ok(t) => r.Ok? && View() == t && h in sessions && fresh(sessions[h])
                            && sessions == old(sessions)[h := sessions[h]]
    {
      assert View().sessions.Keys == sessions.Keys;
      if |sessions| >= TOKEN_MAX_SESSIONS {
        return Err(SessionCount);
      }
      var state := match userLogin
        case true => RoUser
        case false => RoPublic;
      var s := new Session(slotId, state);
      sessions := sessions[h := s];
      return Ok(());
    }

    method CloseSession(h: nat) returns (r: Result<(), Error>)
      requires Valid()
      modifies this`sessions
      ensures Valid()
      ensures match CloseToken(old(View()), h)
              case Err(e) => r == Err(e) && sessions == old(sessions)
              case Ok(t) => r.Ok? && View() == t && sessions == old(sessions) - {h}
    {
      if h !in sessions {
        return Err(SessionHandleInvalid);
      }
      sessions := sessions - {h};
      return Ok(());
    }

    method CloseAllSessions()
      modifies this`sessions
      ensures Valid() && sessions == map[]
      ensures View() == old(View()).(sessions := map[])
    {
      sessions := map[];
    }

    /** The loop of login and logout: every session but `main`, in any order. */
    method SetOthers(main: nat, st: SessionState)
      requires Valid() && main in sessions && sessions[main].state == st
      modifies sessions.Values
      ensures forall h | h in sessions :: sessions[h].state == st
    {
      var rest := sessions.Keys;
      while rest != {}
        invariant rest <= sessions.Keys
        invariant sessions[main].state == st
        invariant forall h | h in sessions && h !in rest :: sessions[h].state == st
        decreases rest
      {
        var h :| h in rest;
        if h != main {
          sessions[h].state := st;
        }
        rest := rest - {h};
      }
    }

    method Login(h: nat, pin: Bytes) returns (r: Result<(), Error>)
      requires Valid()
      modifies this`userLogin, sessions.Values
      ensures match LoginToken(old(View()), h, pin)
              case Err(e) => r == Err(e) && View() == old(View())
              case Ok(t) => r.Ok? && View() == t
    {
      if built.pin != pin {
        return Err(PinIncorrect);
      }
      if h !in sessions {
        return Err(SessionHandleInvalid);
      }
      var session := sessions[h];
      if session.state.RoUser? {
        return Err(UserAlreadyLoggedIn);
      }
      session.state := RoUser;
      SetOthers(h, RoUser);
      userLogin := true;
      return Ok(());
    }

    method Logout(h: nat) returns (r: Result<(), Error>)
      requires Valid()
      modifies this`userLogin, sessions.Values
      ensures match LogoutToken(old(View()), h)
              case Err(e) => r == Err(e) && View() == old(View())
              case Ok(t) => r.Ok? && View() == t
    {
      if h !in sessions {
        return Err(SessionHandleInvalid);
      }
      var session := sessions[h];
      if session.state.RoPublic? {
        return Err(UserNotLoggedIn);
      }
      session.state := RoPublic;
      SetOthers(h, RoPublic);
      userLogin := false;
      return Ok(());
    }
  }

  /** A slot holds at most one token; the lookups below apply the expiry filter. */
  datatype Slot = Slot(id: nat, token: Option<Token>)

  class Device {
    var slots: seq<Slot>
    var sessionSlotMap: map<nat, nat>
    var nextSessionHandle: nat
    var configUpdateTime: nat

    /** The tokens, and the sessions in their tables. */
    ghost function Tokens(): set<object>
      reads this`slots
    {
      set i | 0 <= i < |slots| && slots[i].token.Some? :: slots[i].token.value as object
    }

    ghost function Sessions(): set<object>
      reads this`slots, Tokens()
    {
      set i, h | 0 <= i < |slots| && slots[i].token.Some? && h in slots[i].token.value.sessions ::
        slots[i].token.value.sessions[h] as object
    }

    /** Tokens are valid, and neither tokens nor sessions are shared between slots. */
    ghost predicate Valid()
      reads this`slots, Tokens()
    {
      && (forall i | 0 <= i < |slots| && slots[i].token.Some? :: slots[i].token.value.Valid())
      && (forall i, j | 0 <= i < j < |slots| && slots[i].token.Some? && slots[j].token.Some? ::
            && slots[i].token.value != slots[j].token.value
            && slots[i].token.value.sessions.Values !! slots[j].token.value.sessions.Values)
    }

    ghost function SlotView(i: nat): Option<TokenView>
      requires i < |slots|
      reads this`slots, Tokens(), Sessions()
    {
      match slots[i].token
      case None => None
      case Some(t) => Some(t.View())
    }

    ghost function SlotViewsTo(n: nat): (vs: seq<Option<TokenView>>)
      requires n <= |slots|
      reads this`slots, Tokens(), Sessions()
      ensures |vs| == n && forall i | 0 <= i < n :: vs[i] == SlotView(i)
    {
      if n == 0 then [] else SlotViewsTo(n - 1) + [SlotView(n - 1)]
    }

    ghost function SlotViews(): (vs: seq<Option<TokenView>>)
      reads this`slots, Tokens(), Sessions()
      ensures |vs| == |slots| && forall i | 0 <= i < |slots| :: vs[i] == SlotView(i)
    {
      SlotViewsTo(|slots|)
    }

    ghost function View(): DeviceView
      reads this, Tokens(), Sessions()
    {
      DeviceView(SlotViews(), sessionSlotMap, nextSessionHandle, configUpdateTime)
    }

    /** Build the device from the loaded slots; null when some token's keys do not parse. */
    static method Create(content: Store.Slots, parses: Store.Token -> bool, mtime: nat) returns (d: Device?)
      ensures d == null <==> exists i :: 0 <= i < |content| && content[i].Some? && !parses(content[i].value)
      ensures d != null ==> fresh(d) && d.Valid() && Fresh(d.View())
      ensures d != null ==> d.View() == DeviceView(Built(content), map[], 1, mtime)
    {
      var slots: seq<Slot> := [];
      for i := 0 to |content|
        invariant |slots| == i
        invariant forall j | 0 <= j < i && content[j].Some? :: parses(content[j].value)
        invariant forall j | 0 <= j < i :: slots[j].token.Some? <==> content[j].Some?
        invariant forall j | 0 <= j < i && slots[j].token.Some? ::
          var t := slots[j].token.value;
          && fresh(t) && t.Valid() && t.sessions == map[]
          && t.View() == NewToken(content[j].value)
        invariant forall j, k | 0 <= j < k < i && slots[j].token.Some? && slots[k].token.Some? ::
          slots[j].token.value != slots[k].token.value
      {
        match content[i] {
          case None =>
            slots := slots + [Slot(i, None)];
          case Some(c) =>
            if !parses(c) {
              return null;
            }
            var t := new Token(i, c);
            slots := slots + [Slot(i, Some(t))];
        }
      }
      d := new Device(slots, mtime);
      assert d.SlotViews() == Built(content);
    }

    constructor (slots: seq<Slot>, mtime: nat)
      ensures this.slots == slots && sessionSlotMap == map[]
      ensures nextSessionHandle == 1 && configUpdateTime == mtime
    {
      this.slots := slots;
      sessionSlotMap := map[];
      nextSessionHandle := 1;
      configUpdateTime := mtime;
    }

    function TokenAt(slotId: nat, now: nat): (r: Result<Token, Error>)
      requires Valid()
      reads this, Tokens(), Sessions()
      ensures match LiveToken(View(), slotId, now)
              case Err(e) => r == Err(e)
              case Ok(t) => slotId < |slots| && slots[slotId].token.Some? && r == Ok(slots[slotId].token.value)
                            && r.value.View() == t
    {
      if slotId >= |slots| then Err(SlotIdInvalid)
      else
        match slots[slotId].token
        case None => Err(TokenNotPresent)
        case Some(t) => if t.HasExpired(now) then Err(TokenNotPresent) else Ok(t)
    }

    /** Framing: when only the token of slot `i` and its sessions change, so does the view. */
    twostate lemma OnlySlotChanged(i: nat)
      requires old(Valid())
      requires slots == old(slots) && i < |slots| && slots[i].token.Some?
      requires forall j | 0 <= j < |slots| && j != i && slots[j].token.Some? ::
                 var t := slots[j].token.value; unchanged(t) && unchanged(old(t.sessions.Values))
      requires var t := slots[i].token.value;
               t.Valid() && forall s | s in t.sessions.Values :: s in old(t.sessions.Values) || fresh(s)
      ensures Valid()
      ensures SlotViews() == old(SlotViews())[i := Some(slots[i].token.value.View())]
    {
      var t := slots[i].token.value;
      forall j | 0 <= j < |slots| && j != i && slots[j].token.Some?
        ensures slots[j].token.value.sessions.Values !! t.sessions.Values
      {
        var u := slots[j].token.value;
        assert u.sessions.Values == old(u.sessions.Values);
        assert old(u.sessions.Values) !! old(t.sessions.Values);
        forall s | s in u.sessions.Values ensures s !in t.sessions.Values {
          var h :| h in u.sessions && u.sessions[h] == s;
          assert !fresh(s);
        }
      }
      forall j | 0 <= j < |slots| && j != i ensures SlotView(j) == old(SlotView(j)) {
        if slots[j].token.Some? {
          var u := slots[j].token.value;
          assert u.View() == old(u.View());
        }
      }
    }

    method OpenSession(slotId: nat, now: nat) returns (r: Result<nat, Error>)
      requires Valid()
      modifies this, Tokens()
      ensures Valid()
      ensures View() == OpenStep(old(View()), slotId, now).0
      ensures match OpenStep(old(View()), slotId, now).1
              case Handle(h) => r == Ok(h)
              case Failed(e) => r == Err(e)
              case _ => false
    {
      var handle := nextSessionHandle;
      var token := TokenAt(slotId, now);
      if token.Err? {
        return Err(token.error);
      }
      var opening := token.value.OpenSession(handle);
      OnlySlotChanged(slotId);
      if opening.Err? {
        assert SlotViews() == old(SlotViews());
        return Err(opening.error);
      }
      assert SlotViews() == old(SlotViews())[slotId := Some(OpenToken(old(token.value.View()), handle).value)];
      Record(handle, slotId);
      return Ok(handle);
    }

    /** Enter a new session in the handle index and move to the next handle. */
    method Record(handle: nat, slotId: nat)
      requires Valid()
      modifies this`sessionSlotMap, this`nextSessionHandle
      ensures Valid() && SlotViews() == old(SlotViews())
      ensures sessionSlotMap == old(sessionSlotMap)[handle := slotId]
      ensures nextSessionHandle == NextHandle(old(nextSessionHandle))
    {
      sessionSlotMap := sessionSlotMap[handle := slotId];
      nextSessionHandle := if nextSessionHandle == U64_SIZE - 1 then 0 else nextSessionHandle + 1;
    }

    method CloseSession(handle: nat, now: nat) returns (r: Result<(), Error>)
      requires Valid()
      modifies this, Tokens()
      ensures Valid()
      ensures View() == CloseStep(old(View()), handle, now).0
      ensures match CloseStep(old(View()), handle, now).1
              case Done => r.Ok?
              case Failed(e) => r == Err(e)
              case _ => false
    {
      if handle !in sessionSlotMap {
        return Err(SessionHandleInvalid);
      }
      var slotId := sessionSlotMap[handle];
      var token := TokenAt(slotId, now);
      if token.Err? {
        return Err(token.error);
      }
      var closing := token.value.CloseSession(handle);
      OnlySlotChanged(slotId);
      if closing.Err? {
        assert SlotViews() == old(SlotViews());
        return Err(closing.error);
      }
      assert SlotViews() == old(SlotViews())[slotId := Some(CloseToken(old(token.value.View()), handle).value)];
      Forget({handle});
      return Ok(());
    }

    /** Take handles out of the index. */
    method Forget(handles: set<nat>)
      requires Valid()
      modifies this`sessionSlotMap
      ensures Valid() && SlotViews() == old(SlotViews())
      ensures sessionSlotMap == old(sessionSlotMap) - handles
    {
      sessionSlotMap := sessionSlotMap - handles;
    }

    method CloseAllSlotSessions(slotId: nat, now: nat) returns (r: Result<(), Error>)
      requires Valid()
      modifies this`sessionSlotMap, Tokens()
      ensures Valid()
      ensures View() == CloseAllStep(old(View()), slotId, now).0
      ensures match CloseAllStep(old(View()), slotId, now).1
              case Done => r.Ok?
              case Failed(e) => r == Err(e)
              case _ => false
    {
      var token := TokenAt(slotId, now);
      if token.Err? {
        return Err(token.error);
      }
      token.value.CloseAllSessions();
      OnlySlotChanged(slotId);
      ForgetSlot(slotId);
      return Ok(());
    }

    /** Take the handles of a slot out of the index. */
    method ForgetSlot(slotId: nat)
      requires Valid()
      modifies this`sessionSlotMap
      ensures Valid() && SlotViews() == old(SlotViews())
      ensures sessionSlotMap == map h | h in old(sessionSlotMap) && old(sessionSlotMap)[h] != slotId :: old(sessionSlotMap)[h]
    {
      sessionSlotMap := map h | h in sessionSlotMap && sessionSlotMap[h] != slotId :: sessionSlotMap[h];
    }

    /** A session lookup that never reloads. */
    method FindSession(handle: nat, now: nat) returns (s: Session?)
      requires Valid()
      ensures s != null <==> Resolves(View(), handle, now)
      ensures Resolves(View(), handle, now) ==>
                s == slots[sessionSlotMap[handle]].token.value.sessions[handle]
    {
      if handle !in sessionSlotMap {
        return null;
      }
      var token := TokenAt(sessionSlotMap[handle], now);
      if token.Err? || handle !in token.value.sessions {
        return null;
      }
      return token.value.sessions[handle];
    }

    method DoReloadSlots(content: Store.Slots, now: nat)
      requires Valid()
      modifies this`slots, this`sessionSlotMap, Tokens()
      ensures Valid()
      ensures View() == Reloaded(old(View()), content, now)
    {
      ghost var v := View();
      assert Reloaded(v, content[..0], now) == v;
      for i := 0 to |content|
        invariant Valid()
        invariant Tokens() <= old(Tokens())
        invariant View() == Reloaded(v, content[..i], now)
      {
        ReloadedNext(v, content, i, now);
        ReloadSlot(i, content[i], now);
      }
      assert content[..|content|] == content;
    }

    /** Replace a slot by an empty one. */
    method EmptySlot(slotId: nat)
      requires Valid() && slotId < |slots|
      modifies this`slots
      ensures Valid() && Tokens() <= old(Tokens())
      ensures SlotViews() == old(SlotViews())[slotId := None]
    {
      slots := slots[slotId := Slot(slotId, None)];
    }

    /** One turn of the reload loop. The branch for a new token in a missing slot does nothing:
        the slot it builds is dropped. */
    method ReloadSlot(slotId: nat, c: Option<Store.Token>, now: nat)
      requires Valid()
      modifies this`slots, this`sessionSlotMap, Tokens()
      ensures Valid()
      ensures Tokens() <= old(Tokens())
      ensures View() == ReloadOne(old(View()), slotId, c, now)
    {
      if slotId < |slots| {
        match c {
          case None =>
            var _ := CloseAllSlotSessions(slotId, now);
            EmptySlot(slotId);
          case Some(config) =>
            if slots[slotId].token.Some? {
              slots[slotId].token.value.Refresh(config.expiry);
              OnlySlotChanged(slotId);
            }
        }
      }
    }

    method ReloadSlots(r: Reload, now: nat)
      requires Valid()
      modifies this`slots, this`sessionSlotMap, this`configUpdateTime, Tokens()
      ensures Valid()
      ensures View() == ReloadIfChanged(old(View()), r, now)
    {
      if r.Stamp? && r.mtime != configUpdateTime && r.content.Some? {
        DoReloadSlots(r.content.value, now);
        SetStamp(r.mtime);
      }
    }

    method SetStamp(mtime: nat)
      requires Valid()
      modifies this`configUpdateTime
      ensures Valid() && SlotViews() == old(SlotViews())
      ensures configUpdateTime == mtime
    {
      configUpdateTime := mtime;
    }

    /** A session lookup that first brings the slots up to date with the configuration. */
    method FindSessionMut(handle: nat, r: Reload, now: nat) returns (s: Session?)
      requires Valid()
      modifies this`slots, this`sessionSlotMap, this`configUpdateTime, Tokens()
      ensures Valid()
      ensures View() == FindMutStep(old(View()), handle, r, now).0
      ensures FindMutStep(old(View()), handle, r, now).1 == Found(s != null)
      ensures s != null ==> s == slots[old(sessionSlotMap)[handle]].token.value.sessions[handle]
    {
      if handle !in sessionSlotMap {
        return null;
      }
      var slotId := sessionSlotMap[handle];
      ReloadSlots(r, now);
      var token := TokenAt(slotId, now);
      if token.Err? || handle !in token.value.sessions {
        return null;
      }
      return token.value.sessions[handle];
    }

    method Login(handle: nat, pin: Bytes, now: nat) returns (r: Result<(), Error>)
      requires Valid()
      modifies Tokens(), Sessions()
      ensures Valid()
      ensures View() == LoginStep(old(View()), handle, pin, now).0
      ensures match LoginStep(old(View()), handle, pin, now).1
              case Done => r.Ok?
              case Failed(e) => r == Err(e)
              case _ => false
    {
      if handle !in sessionSlotMap {
        return Err(SessionHandleInvalid);
      }
      var slotId := sessionSlotMap[handle];
      var token := TokenAt(slotId, now);
      if token.Err? {
        return Err(token.error);
      }
      r := token.value.Login(handle, pin);
      OnlySlotChanged(slotId);
      if r.Err? {
        assert SlotViews() == old(SlotViews());
      }
    }

    method Logout(handle: nat, now: nat) returns (r: Result<(), Error>)
      requires Valid()
      modifies Tokens(), Sessions()
      ensures Valid()
      ensures View() == LogoutStep(old(View()), handle, now).0
      ensures match LogoutStep(old(View()), handle, now).1
              case Done => r.Ok?
              case Failed(e) => r == Err(e)
              case _ => false
    {
      if handle !in sessionSlotMap {
        return Err(SessionHandleInvalid);
      }
      var slotId := sessionSlotMap[handle];
      var token := TokenAt(slotId, now);
      if token.Err? {
        return Err(token.error);
      }
      r := token.value.Logout(handle);
      OnlySlotChanged(slotId);
      if r.Err? {
        assert SlotViews() == old(SlotViews());
      }
    }
  }
}
