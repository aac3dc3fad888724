/**
 What the answers of the provisioning store mean: which requests it takes, what it then holds, and what
 later requests make of that.
 */
module StoreLaws {
  import opened Common
  import opened Store

  /* ---------- Which arguments are valid ---------- */

  predicate Sized(pin: Bytes, name: Bytes) {
    4 <= |pin| <= 64 && 1 <= |name| <= 32
  }

  ghost predicate KeysDiffer(keys: seq<EncryptedKey>) {
    forall j, k | 0 <= j < k < |keys| :: keys[j].id != keys[k].id && keys[j].name != keys[k].name
  }

  lemma KeysValid(keys: seq<EncryptedKey>)
    ensures CheckKeys(keys).None? <==> KeysDiffer(keys)
  {
    if CheckKeys(keys).None? {
      forall j, k | 0 <= j < k < |keys| ensures keys[j].id != keys[k].id && keys[j].name != keys[k].name {
        assert !RepeatsId(keys, k) && !RepeatsLabel(keys, k);
      }
    }
  }

  /** A request is let in exactly when its PINs and labels have lengths within bounds and its keys have
      different ids and labels. */
  lemma ArgsValid(req: Request)
    ensures CheckArgs(req).None? <==>
              match req
              case AddToken(t) => Sized(t.pin, t.name) && KeysDiffer(t.keys)
              case DescribeDevice => true
              case UpdateToken(name, pin, t) => Sized(pin, name) && Sized(t.pin, t.name) && KeysDiffer(t.keys)
              case _ => Sized(req.pin, req.name)
  {
    if req.AddToken? || req.UpdateToken? {
      KeysValid(req.token.keys);
    }
  }

  /** And it is refused with what is wrong first, the PIN before the label before the keys. */
  lemma ArgsRefused(pin: Bytes, name: Bytes, keys: seq<EncryptedKey>)
    ensures CheckToken(NewToken(name, pin, keys)) ==
            if |pin| < 4 then Some(PinTooShort) else if |pin| > 64 then Some(PinTooLong)
            else if name == [] then Some(LabelTooShort) else if |name| > 32 then Some(LabelTooLong)
            else CheckKeys(keys)
    ensures var r := CheckArgs(RefreshToken(name, pin));
            && r == CheckToken(NewToken(name, pin, [])) == CheckArgs(RemoveToken(name, pin)) == CheckArgs(DescribeToken(name, pin))
  {
  }

  /** The k-th key repeats an id, or else a label, of one before it. */
  ghost predicate RefusedFor(keys: seq<EncryptedKey>, k: nat, e: ArgError) {
    && k < |keys|
    && match e
       case DuplicateKeyId(id) => id == keys[k].id && exists j | 0 <= j < k :: keys[j].id == id
       case DuplicateKeyLabel(name) =>
         && name == keys[k].name && (exists j | 0 <= j < k :: keys[j].name == name)
         && forall j | 0 <= j < k :: keys[j].id != keys[k].id
       case _ => false
  }

  lemma RefusedLonger(before: seq<EncryptedKey>, keys: seq<EncryptedKey>, k: nat, e: ArgError)
    requires RefusedFor(before, k, e) && before <= keys
    ensures RefusedFor(keys, k, e) && keys[..k] == before[..k]
  {
    assert forall j | 0 <= j < |before| :: before[j] == keys[j];
  }

  /** Of repeated ids and labels the first key that repeats one is named, its id before its label. */
  lemma {:induction false} KeyRefused(keys: seq<EncryptedKey>)
    ensures CheckKeys(keys).Some? ==> exists k: nat :: RefusedFor(keys, k, CheckKeys(keys).value) && KeysDiffer(keys[..k])
  {
    if keys != [] && CheckKeys(keys).Some? {
      var n := |keys| - 1;
      var before := keys[..n];
      if CheckKeys(before).Some? {
        KeyRefused(before);
        var k: nat :| RefusedFor(before, k, CheckKeys(before).value) && KeysDiffer(before[..k]);
        RefusedLonger(before, keys, k, CheckKeys(before).value);
      } else {
        KeysValid(before);
        LastRefused(keys);
      }
    }
  }

  lemma LastRefused(keys: seq<EncryptedKey>)
    requires keys != [] && CheckKeys(keys[..|keys| - 1]).None? && CheckKeys(keys).Some?
    ensures RefusedFor(keys, |keys| - 1, CheckKeys(keys).value)
  {
  }

  /* ---------- What a stored key holds ---------- */

  /** A stored key is the given one: encrypted text, id, label and certificate as they came, and the text
      that the KMS gives for the encrypted one. */
  predicate KeyFrom(stored: Key, given: EncryptedKey, kms: Kms) {
    && stored.encryptedPem == given.encryptedPem && stored.id == given.id && stored.name == given.name
    && stored.certPem == given.certPem && kms(given.encryptedPem) == Plain(stored.pem)
  }

  ghost predicate KeysFrom(stored: seq<Key>, given: seq<EncryptedKey>, kms: Kms) {
    |stored| == |given| && forall k | 0 <= k < |given| :: KeyFrom(stored[k], given[k], kms)
  }

  lemma KeyTaken(k: EncryptedKey, kms: Kms)
    ensures DecryptKey(k, kms).Ok? <==> kms(k.encryptedPem).Plain?
    ensures DecryptKey(k, kms).Ok? ==> KeyFrom(DecryptKey(k, kms).value, k, kms)
    ensures DecryptKey(k, kms).Err? ==> KeyRefusal(kms(k.encryptedPem), DecryptKey(k, kms).error)
  {
  }

  /** Why the KMS gave no text. */
  predicate KeyRefusal(outcome: Decrypted, e: ApiError) {
    match outcome
    case BadBase64 => e == TokenKeyDecodingFailed
    case KmsFailed => e == KmsDecryptFailed
    case BadUtf8 => e == TokenProvisioningFailed
    case Plain(_) => false
  }

  ghost predicate AllText(keys: seq<EncryptedKey>, kms: Kms) {
    forall k | 0 <= k < |keys| :: kms(keys[k].encryptedPem).Plain?
  }

  /** Keys are taken exactly when the KMS decrypts each to text; otherwise the first that it does not says
      why. */
  lemma KeysTaken(keys: seq<EncryptedKey>, kms: Kms)
    ensures DecryptKeys(keys, kms).Ok? <==> AllText(keys, kms)
    ensures DecryptKeys(keys, kms).Ok? ==> KeysFrom(DecryptKeys(keys, kms).value, keys, kms)
    ensures DecryptKeys(keys, kms).Err? ==>
              exists k | 0 <= k < |keys| ::
                AllText(keys[..k], kms) && KeyRefusal(kms(keys[k].encryptedPem), DecryptKeys(keys, kms).error)
  {
    var r := DecryptKeys(keys, kms);
    if r.Ok? {
      forall k | 0 <= k < |keys| ensures kms(keys[k].encryptedPem).Plain? && KeyFrom(r.value[k], keys[k], kms) {
        KeyTaken(keys[k], kms);
        assert DecryptKey(keys[k], kms) == Ok(r.value[k]);
      }
    } else {
      var k :| 0 <= k < |keys| && DecryptKey(keys[k], kms) == Err(r.error) && forall j | 0 <= j < k :: DecryptKey(keys[j], kms).Ok?;
      KeyTaken(keys[k], kms);
      forall j | 0 <= j < k ensures kms(keys[j].encryptedPem).Plain? {
        KeyTaken(keys[j], kms);
        assert DecryptKey(keys[j], kms).Ok?;
      }
    }
  }

  /* ---------- What the store answers ---------- */

  /** Slot `i` holds a token with this label that has not expired. */
  predicate RunsIn(slots: Slots, now: nat, name: Bytes, i: nat) {
    i < |slots| && slots[i].Some? && slots[i].value.name == name && slots[i].value.expiry > now
  }

  ghost predicate Known(slots: Slots, now: nat, name: Bytes) {
    exists i: nat :: RunsIn(slots, now, name, i)
  }

  /** Slot `i` can take a token: it is empty, or its token has expired. */
  predicate Vacant(slots: Slots, now: nat, i: nat) {
    i < |slots| && (slots[i].None? || slots[i].value.expiry <= now)
  }

  ghost predicate Room(slots: Slots, now: nat) {
    exists i: nat :: Vacant(slots, now, i)
  }

  lemma FoundIff(slots: Slots, now: nat, name: Bytes)
    ensures FindLabel(Sweep(slots, now), name).Some? <==> Known(slots, now, name)
    ensures FindLabel(Sweep(slots, now), name).Some? ==> RunsIn(slots, now, name, FindLabel(Sweep(slots, now), name).value)
  {
    var live := Sweep(slots, now);
    if Known(slots, now, name) {
      var i: nat :| RunsIn(slots, now, name, i);
      assert HasLabel(live[i], name);
    }
    if FindLabel(live, name).Some? {
      assert RunsIn(slots, now, name, FindLabel(live, name).value);
    }
  }

  lemma FreeIff(slots: Slots, now: nat)
    ensures FindFree(Sweep(slots, now)).Some? <==> Room(slots, now)
  {
    var live := Sweep(slots, now);
    if Room(slots, now) {
      var i: nat :| Vacant(slots, now, i);
      assert live[i].None?;
    }
    if FindFree(live).Some? {
      assert Vacant(slots, now, FindFree(live).value);
    }
  }

  lemma FoundAt(slots: Slots, now: nat, name: Bytes, i: nat)
    requires Distinct(slots) && RunsIn(slots, now, name, i)
    ensures FindLabel(Sweep(slots, now), name) == Some(i)
  {
    FoundIff(slots, now, name);
  }

  /** The token that a request on a label is about, and whether the PIN is its PIN. */
  predicate Opens(slots: Slots, now: nat, name: Bytes, pin: Bytes, i: nat) {
    RunsIn(slots, now, name, i) && slots[i].value.pin == pin
  }

  /** An add is taken exactly when no running token has the label, every key decrypts and there is room;
      which of the three fails first decides the refusal. */
  lemma AddAnswer(slots: Slots, t: NewToken, env: Env)
    requires CheckArgs(AddToken(t)).None?
    ensures var r := Step(slots, AddToken(t), env).1;
            && (r == Ok(Nothing) <==>
                  && !Known(slots, env.load, t.name) && Room(slots, env.load)
                  && AllText(t.keys, env.kms))
            && (r == Err(TokenLabelInUse) <==> Known(slots, env.load, t.name))
            && (r == Err(TooManyTokens) <==>
                  && !Known(slots, env.load, t.name) && !Room(slots, env.load)
                  && AllText(t.keys, env.kms))
            && (!Known(slots, env.load, t.name) && !AllText(t.keys, env.kms) ==> r == Err(DecryptKeys(t.keys, env.kms).error))
  {
    FoundIff(slots, env.load, t.name);
    FreeIff(slots, env.load);
    KeysTaken(t.keys, env.kms);
  }

  /** Then it runs in a slot that was vacant, with what was given and 48 hours to go. */
  lemma AddStores(slots: Slots, t: NewToken, env: Env)
    requires Step(slots, AddToken(t), env).1.Ok?
    ensures var slots' := Step(slots, AddToken(t), env).0;
            exists i: nat ::
              && Vacant(slots, env.load, i) && i < |slots'| && slots'[i].Some?
              && Holds(slots'[i].value, t.name, t.pin, t.keys, env)
  {
    KeysTaken(t.keys, env.kms);
    FoundIff(slots, env.load, t.name);
    var i := FindFree(Sweep(slots, env.load)).value;
    assert Vacant(slots, env.load, i);
  }

  ghost predicate Holds(t: Token, name: Bytes, pin: Bytes, keys: seq<EncryptedKey>, env: Env) {
    && t.name == name && t.pin == pin && t.expiry == env.later + 172800 && KeysFrom(t.keys, keys, env.kms)
  }

  /** An update is taken exactly when the token runs under the label and PIN, every key decrypts, and the
      new label, if it is another, is not in use. */
  lemma UpdateAnswer(slots: Slots, name: Bytes, pin: Bytes, t: NewToken, env: Env, i: nat)
    requires CheckArgs(UpdateToken(name, pin, t)).None? && Distinct(slots) && RunsIn(slots, env.load, name, i)
    ensures var r := Step(slots, UpdateToken(name, pin, t), env).1;
            && (r == Ok(Nothing) <==>
                  && (t.name == name || !Known(slots, env.load, t.name)) && slots[i].value.pin == pin
                  && AllText(t.keys, env.kms))
            && (r == Err(TokenLabelInUse) <==> t.name != name && Known(slots, env.load, t.name))
            && (r == Err(AccessDenied) <==> (t.name == name || !Known(slots, env.load, t.name)) && slots[i].value.pin != pin)
            && ((t.name == name || !Known(slots, env.load, t.name)) && slots[i].value.pin == pin && !AllText(t.keys, env.kms) ==>
                  r == Err(DecryptKeys(t.keys, env.kms).error))
  {
    FoundAt(slots, env.load, name, i);
    FoundIff(slots, env.load, t.name);
    KeysTaken(t.keys, env.kms);
  }

  /** Then the slot holds the new keys, with 48 hours to go, under the old label and PIN. */
  lemma UpdateStores(slots: Slots, name: Bytes, pin: Bytes, t: NewToken, env: Env, i: nat)
    requires Distinct(slots) && RunsIn(slots, env.load, name, i) && Step(slots, UpdateToken(name, pin, t), env).1.Ok?
    ensures var slots' := Step(slots, UpdateToken(name, pin, t), env).0;
            i < |slots'| && slots'[i].Some? && Holds(slots'[i].value, name, pin, t.keys, env)
  {
    FoundAt(slots, env.load, name, i);
    KeysTaken(t.keys, env.kms);
  }

  /** Refresh, remove and describe of a running token: all need its PIN; a refresh also needs the KMS to give
      the stored text of the first key once more, and changes the expiry only. */
  lemma RefreshAnswer(slots: Slots, name: Bytes, pin: Bytes, env: Env, i: nat)
    requires Sized(pin, name) && Distinct(slots) && RunsIn(slots, env.load, name, i)
    ensures var (slots', r) := Step(slots, RefreshToken(name, pin), env);
            var keys := slots[i].value.keys;
            && (r == Ok(Nothing) <==>
                  slots[i].value.pin == pin && keys != [] && env.kms(keys[0].encryptedPem) == Plain(keys[0].pem))
            && (r == Err(AccessDenied) <==> slots[i].value.pin != pin)
            && (r == Err(EmptyToken) <==> slots[i].value.pin == pin && keys == [])
            && (r == Err(TokenKeyDecodingFailed) <==>
                  slots[i].value.pin == pin && keys != [] && env.kms(keys[0].encryptedPem).BadBase64?)
            && (r.Ok? || r.error in {AccessDenied, EmptyToken, TokenKeyDecodingFailed, TokenRefreshFailed})
            && (r.Ok? ==> i < |slots'| && slots'[i] == Some(slots[i].value.(expiry := env.later + 172800)))
  {
    FoundAt(slots, env.load, name, i);
  }

  lemma RemoveAnswer(slots: Slots, name: Bytes, pin: Bytes, env: Env, i: nat)
    requires Sized(pin, name) && Distinct(slots) && RunsIn(slots, env.load, name, i)
    ensures var (slots', r) := Step(slots, RemoveToken(name, pin), env);
            && r == (if slots[i].value.pin == pin then Ok(Nothing) else Err(AccessDenied))
            && (r.Ok? ==> |slots'| == |slots| && !Known(slots', env.load, name))
  {
    FoundAt(slots, env.load, name, i);
    assert Distinct(Sweep(slots, env.load));
  }

  lemma DescribeAnswer(slots: Slots, name: Bytes, pin: Bytes, env: Env, i: nat)
    requires Sized(pin, name) && Distinct(slots) && RunsIn(slots, env.load, name, i)
    ensures var (t, r) := (slots[i].value, Step(slots, DescribeToken(name, pin), env).1);
            && (r.Ok? <==> t.pin == pin) && (r.Err? ==> r.error == AccessDenied)
            && (r.Ok? ==>
                  && r.value.TokenDescription? && r.value.token.name == name && r.value.token.slotId == i
                  && (t.expiry >= env.later ==> r.value.token.ttl == t.expiry - env.later)
                  && (t.expiry < env.later ==> r.value.token.ttl == 0)
                  && |r.value.keys| == |t.keys|
                  && forall k | 0 <= k < |t.keys| :: r.value.keys[k].name == t.keys[k].name && r.value.keys[k].id == t.keys[k].id)
  {
    FoundAt(slots, env.load, name, i);
  }

  /** Requests on a label that no running token has are answered that it is not found. */
  lemma UnknownAnswer(slots: Slots, name: Bytes, pin: Bytes, t: NewToken, env: Env)
    requires Sized(pin, name) && !Known(slots, env.load, name)
    ensures Step(slots, RefreshToken(name, pin), env).1 == Err(TokenNotFound)
    ensures Step(slots, RemoveToken(name, pin), env).1 == Err(TokenNotFound)
    ensures Step(slots, DescribeToken(name, pin), env).1 == Err(TokenNotFound)
    ensures CheckArgs(UpdateToken(name, pin, t)).None? && !Known(slots, env.load, t.name) ==>
              Step(slots, UpdateToken(name, pin, t), env).1 == Err(TokenNotFound)
  {
    FoundIff(slots, env.load, name);
    FoundIff(slots, env.load, t.name);
  }

  /** The device listing: the tokens that run at the load and at the listing, by ascending slot, with their
      remaining times, and as free whatever they do not take of the 128 slots. */
  lemma DeviceAnswer(slots: Slots, env: Env)
    ensures var (slots', r) := Step(slots, DescribeDevice, env);
            && slots' == slots && r.Ok? && r.value.DeviceDescription?
            && var ts := r.value.tokens;
               && r.value.freeSlots == 128 - |ts|
               && (forall k | 0 <= k < |ts| ::
                     && RunsIn(slots, env.load, ts[k].name, ts[k].slotId)
                     && ts[k].ttl + env.later == slots[ts[k].slotId].value.expiry)
               && (forall j, k | 0 <= j < k < |ts| :: ts[j].slotId < ts[k].slotId)
               && (forall i | 0 <= i < |slots| && slots[i].Some? && slots[i].value.expiry > env.load && slots[i].value.expiry >= env.later ::
                     exists k :: 0 <= k < |ts| && ts[k].slotId == i)
  {
    var live := Sweep(slots, env.load);
    ListedSlots(live, env.later);
    var ts := ListTokens(live, env.later);
    forall k | 0 <= k < |ts| ensures RunsIn(slots, env.load, ts[k].name, ts[k].slotId) {
      assert live[ts[k].slotId] == Kept(slots[ts[k].slotId], env.load);
    }
    forall i | 0 <= i < |slots| && slots[i].Some? && slots[i].value.expiry > env.load && slots[i].value.expiry >= env.later
      ensures exists k :: 0 <= k < |ts| && ts[k].slotId == i
    {
      assert live[i] == slots[i];
    }
  }

  /* ---------- Over runs ---------- */

  /** The request replaces or removes the token with this label and PIN. */
  predicate Rewrites(req: Request, name: Bytes, pin: Bytes) {
    (req.RemoveToken? || req.UpdateToken?) && req.name == name && req.pin == pin
  }

  lemma StepKeepsKeys(slots: Slots, req: Request, env: Env, i: nat)
    requires Distinct(slots) && i < |slots| && slots[i].Some? && !Expired(slots[i].value, env.load)
    requires !Rewrites(req, slots[i].value.name, slots[i].value.pin)
    ensures var slots' := Step(slots, req, env).0;
            && |slots'| == |slots| && slots'[i].Some?
            && slots'[i].value == slots[i].value.(expiry := slots'[i].value.expiry)
  {
    StepFrame(slots, req, env);
    if req.RefreshToken? && CheckArgs(req).None? && slots[i].value.name == req.name {
      FoundAt(slots, env.load, req.name, i);
    }
  }

  /** From add to update, removal or expiry a token keeps its slot, label, PIN and keys, whatever is
      requested. */
  lemma {:induction false} RunKeepsKeys(slots: Slots, calls: seq<Call>, i: nat)
    requires Distinct(slots) && i < |slots| && slots[i].Some?
    requires forall n | 0 <= n < |calls| :: AliveAt(slots, calls, n, i) && !Rewrites(calls[n].req, slots[i].value.name, slots[i].value.pin)
    ensures |Run(slots, calls)| == |slots| && Run(slots, calls)[i].Some?
    ensures Run(slots, calls)[i].value == slots[i].value.(expiry := Run(slots, calls)[i].value.expiry)
  {
    if calls != [] {
      var n := |calls| - 1;
      var before := calls[..n];
      forall m | 0 <= m < n ensures AliveAt(slots, before, m, i) && before[m] == calls[m] {
        assert before[..m] == calls[..m] && AliveAt(slots, calls, m, i);
      }
      RunKeepsKeys(slots, before, i);
      RunKeepsDistinct(slots, before);
      assert AliveAt(slots, calls, n, i);
      StepKeepsKeys(Run(slots, before), calls[n].req, calls[n].env, i);
    }
  }

  /** So a token that was added or updated with some key, and neither updated nor removed since, is
      refreshed for its PIN as long as it has not expired and the KMS still gives the text of the first key
      that it gave then. */
  lemma RefreshWorks(slots: Slots, calls: seq<Call>, i: nat, keys: seq<EncryptedKey>, given: Env, env: Env)
    requires Distinct(slots) && i < |slots| && slots[i].Some?
    requires Holds(slots[i].value, slots[i].value.name, slots[i].value.pin, keys, given) && keys != []
    requires Sized(slots[i].value.pin, slots[i].value.name)
    requires forall n | 0 <= n < |calls| :: AliveAt(slots, calls, n, i) && !Rewrites(calls[n].req, slots[i].value.name, slots[i].value.pin)
    requires env.kms(keys[0].encryptedPem) == given.kms(keys[0].encryptedPem)
    requires i < |Run(slots, calls)| && Run(slots, calls)[i].Some? && Run(slots, calls)[i].value.expiry > env.load
    ensures Step(Run(slots, calls), RefreshToken(slots[i].value.name, slots[i].value.pin), env).1 == Ok(Nothing)
  {
    RunKeepsKeys(slots, calls, i);
    RunKeepsDistinct(slots, calls);
    assert KeyFrom(slots[i].value.keys[0], keys[0], given.kms);
    RefreshAnswer(Run(slots, calls), slots[i].value.name, slots[i].value.pin, env, i);
  }

  /** In particular right after the add. */
  lemma AddThenRefresh(slots: Slots, t: NewToken, env: Env, next: Env)
    requires Distinct(slots) && t.keys != [] && Step(slots, AddToken(t), env).1.Ok?
    requires next.kms(t.keys[0].encryptedPem) == env.kms(t.keys[0].encryptedPem) && next.load < env.later + 172800
    ensures Step(Step(slots, AddToken(t), env).0, RefreshToken(t.name, t.pin), next).1 == Ok(Nothing)
  {
    var slots' := Step(slots, AddToken(t), env).0;
    AddStores(slots, t, env);
    var i: nat :| Vacant(slots, env.load, i) && i < |slots'| && slots'[i].Some? && Holds(slots'[i].value, t.name, t.pin, t.keys, env);
    StepKeepsDistinct(slots, AddToken(t), env);
    ArgsValid(AddToken(t));
    assert Run(slots', []) == slots';
    RefreshWorks(slots', [], i, t.keys, env, next);
  }
}
