/**
 The provisioning store: the slot vector kept in the configuration file, and what each RPC request
 does to it. `Step` is the effect of one request on the stored slots together with its response.

 Strings are their UTF-8 bytes. A token or key label is the field `name`. The KMS, with the envelope
 key of the request, is a function from the encrypted key to the outcome of decrypting it.
 */
module Store {
  import opened Common

  const DEVICE_MAX_SLOTS: nat := 128
  const TOKEN_EXPIRY_SECS: nat := 48 * 3600
  const TOKEN_MIN_PIN_LEN: nat := 4
  const TOKEN_MAX_PIN_LEN: nat := 64
  const TOKEN_MIN_LABEL_LEN: nat := 1
  const TOKEN_MAX_LABEL_LEN: nat := 32

  datatype EncryptedKey = EncryptedKey(encryptedPem: Bytes, id: byte, name: Bytes, certPem: Option<Bytes>)

  datatype Key = Key(pem: Bytes, encryptedPem: Bytes, id: byte, name: Bytes, certPem: Option<Bytes>)

  datatype Token = Token(name: Bytes, keys: seq<Key>, pin: Bytes, expiry: nat)

  type Slots = seq<Option<Token>>

  datatype NewToken = NewToken(name: Bytes, pin: Bytes, keys: seq<EncryptedKey>)

  datatype Decrypted = Plain(pem: Bytes) | BadBase64 | KmsFailed | BadUtf8

  type Kms = Bytes -> Decrypted

  datatype Request =
    | AddToken(token: NewToken)
    | DescribeDevice
    | DescribeToken(name: Bytes, pin: Bytes)
    | RefreshToken(name: Bytes, pin: Bytes)
    | RemoveToken(name: Bytes, pin: Bytes)
    | UpdateToken(name: Bytes, pin: Bytes, token: NewToken)

  datatype ArgError =
    | DuplicateKeyId(id: byte)
    | DuplicateKeyLabel(name: Bytes)
    | LabelTooLong
    | LabelTooShort
    | PinTooLong
    | PinTooShort

  datatype ApiError =
    | AccessDenied
    | EmptyToken
    | InvalidArgs(arg: ArgError)
    | TokenLabelInUse
    | TokenNotFound
    | TooManyTokens
    | TokenProvisioningFailed
    | TokenRefreshFailed
    | TokenKeyDecodingFailed
    | KmsDecryptFailed

  datatype TokenDesc = TokenDesc(name: Bytes, slotId: nat, ttl: nat)

  datatype KeyDesc = KeyDesc(name: Bytes, id: byte)

  datatype Answer =
    | Nothing
    | DeviceDescription(freeSlots: int, tokens: seq<TokenDesc>)
    | TokenDescription(token: TokenDesc, keys: seq<KeyDesc>)

  type Response = Result<Answer, ApiError>

  /** The surroundings of one request: the clock when the file is loaded, the clock when the
      request later reads it again, and the KMS. */
  datatype Env = Env(load: nat, later: nat, kms: Kms)

  /* ---------- Argument validation ---------- */

  function CheckPin(pin: Bytes): Option<ArgError> {
    if |pin| < TOKEN_MIN_PIN_LEN then Some(PinTooShort)
    else if |pin| > TOKEN_MAX_PIN_LEN then Some(PinTooLong)
    else None
  }

  function CheckLabel(name: Bytes): Option<ArgError> {
    if |name| < TOKEN_MIN_LABEL_LEN then Some(LabelTooShort)
    else if |name| > TOKEN_MAX_LABEL_LEN then Some(LabelTooLong)
    else None
  }

  function CheckPinLabel(pin: Bytes, name: Bytes): Option<ArgError> {
    if CheckPin(pin).Some? then CheckPin(pin) else CheckLabel(name)
  }

  predicate RepeatsId(keys: seq<EncryptedKey>, k: nat)
    requires k < |keys|
  {
    exists j :: 0 <= j < k && keys[j].id == keys[k].id
  }

  predicate RepeatsLabel(keys: seq<EncryptedKey>, k: nat)
    requires k < |keys|
  {
    exists j :: 0 <= j < k && keys[j].name == keys[k].name
  }

  /** The first key that repeats an earlier id or name decides, and its id is looked at first. */
  function CheckKeys(keys: seq<EncryptedKey>): (r: Option<ArgError>)
    ensures r.None? <==> forall k | 0 <= k < |keys| :: !RepeatsId(keys, k) && !RepeatsLabel(keys, k)
  {
    if keys == [] then None
    else
      var k := |keys| - 1;
      var before := keys[..k];
      var r := CheckKeys(before);
      assert forall i | 0 <= i < k :: RepeatsId(before, i) == RepeatsId(keys, i);
      assert forall i | 0 <= i < k :: RepeatsLabel(before, i) == RepeatsLabel(keys, i);
      if r.Some? then r
      else if RepeatsId(keys, k) then Some(DuplicateKeyId(keys[k].id))
      else if RepeatsLabel(keys, k) then Some(DuplicateKeyLabel(keys[k].name))
      else None
  }

  function CheckToken(t: NewToken): Option<ArgError> {
    if CheckPinLabel(t.pin, t.name).Some? then CheckPinLabel(t.pin, t.name) else CheckKeys(t.keys)
  }

  function CheckArgs(req: Request): Option<ArgError> {
    match req
    case AddToken(t) => CheckToken(t)
    case DescribeDevice => None
    case UpdateToken(name, pin, t) =>
      if CheckPinLabel(pin, name).Some? then CheckPinLabel(pin, name) else CheckToken(t)
    case _ => CheckPinLabel(req.pin, req.name)
  }

  /* ---------- Loading and scanning the slots ---------- */

  predicate Expired(t: Token, now: nat) {
    t.expiry <= now
  }

  function Kept(slot: Option<Token>, now: nat): Option<Token> {
    if slot.Some? && !Expired(slot.value, now) then slot else None
  }

  /** Loading drops every token whose expiry has been reached. */
  function Sweep(slots: Slots, now: nat): Slots {
    seq(|slots|, i requires 0 <= i < |slots| => Kept(slots[i], now))
  }

  predicate HasLabel(slot: Option<Token>, name: Bytes) {
    slot.Some? && slot.value.name == name
  }

  /** `i` is the first slot that holds a token labelled `name`. */
  predicate FirstLabel(slots: Slots, name: Bytes, i: nat) {
    i < |slots| && HasLabel(slots[i], name) && forall j | 0 <= j < i :: !HasLabel(slots[j], name)
  }

  /** `i` is the first free slot. */
  predicate FirstFree(slots: Slots, i: nat) {
    i < |slots| && slots[i].None? && forall j | 0 <= j < i :: slots[j].Some?
  }

  lemma {:induction false} SomeFirstLabel(slots: Slots, name: Bytes, i: nat)
    requires i < |slots| && HasLabel(slots[i], name)
    ensures exists k :: FirstLabel(slots, name, k)
  {
    if !FirstLabel(slots, name, i) {
      var j :| 0 <= j < i && HasLabel(slots[j], name);
      SomeFirstLabel(slots, name, j);
    }
  }

  lemma {:induction false} SomeFirstFree(slots: Slots, i: nat)
    requires i < |slots| && slots[i].None?
    ensures exists k :: FirstFree(slots, k)
  {
    if !FirstFree(slots, i) {
      var j :| 0 <= j < i && slots[j].None?;
      SomeFirstFree(slots, j);
    }
  }

  function FindLabel(slots: Slots, name: Bytes): (r: Option<nat>)
    ensures r.Some? ==> FirstLabel(slots, name, r.value)
    ensures r.None? ==> forall i | 0 <= i < |slots| :: !HasLabel(slots[i], name)
  {
    if exists i | 0 <= i < |slots| :: HasLabel(slots[i], name) then
      assert exists k :: FirstLabel(slots, name, k) by {
        var i :| 0 <= i < |slots| && HasLabel(slots[i], name);
        SomeFirstLabel(slots, name, i);
      }
      var k: nat :| k < |slots| && FirstLabel(slots, name, k);
      Some(k)
    else None
  }

  function FindFree(slots: Slots): (r: Option<nat>)
    ensures r.Some? ==> FirstFree(slots, r.value)
    ensures r.None? ==> forall i | 0 <= i < |slots| :: slots[i].Some?
  {
    if exists i | 0 <= i < |slots| :: slots[i].None? then
      assert exists k :: FirstFree(slots, k) by {
        var i :| 0 <= i < |slots| && slots[i].None?;
        SomeFirstFree(slots, i);
      }
      var k: nat :| k < |slots| && FirstFree(slots, k);
      Some(k)
    else None
  }

  /* ---------- Keys ---------- */

  function DecryptKey(k: EncryptedKey, kms: Kms): Result<Key, ApiError> {
    match kms(k.encryptedPem)
    case BadBase64 => Err(TokenKeyDecodingFailed)
    case KmsFailed => Err(KmsDecryptFailed)
    case BadUtf8 => Err(TokenProvisioningFailed)
    case Plain(pem) => Ok(Key(pem, k.encryptedPem, k.id, k.name, k.certPem))
  }

  /** All the keys decrypted, or the error of the first that does not decrypt. */
  function DecryptKeys(keys: seq<EncryptedKey>, kms: Kms): (r: Result<seq<Key>, ApiError>)
    ensures r.Ok? ==> |r.value| == |keys| && forall k | 0 <= k < |keys| :: DecryptKey(keys[k], kms) == Ok(r.value[k])
    ensures r.Err? ==> exists k :: 0 <= k < |keys| && DecryptKey(keys[k], kms) == Err(r.error)
                                   && forall j | 0 <= j < k :: DecryptKey(keys[j], kms).Ok?
  {
    if keys == [] then Ok([])
    else
      var before := keys[..|keys| - 1];
      match DecryptKeys(before, kms)
      case Err(e) =>
        assert exists k :: 0 <= k < |keys| && DecryptKey(keys[k], kms) == Err(e)
                           && forall j | 0 <= j < k :: DecryptKey(keys[j], kms).Ok?
        by {
          var k :| 0 <= k < |before| && DecryptKey(before[k], kms) == Err(e)
                   && forall j | 0 <= j < k :: DecryptKey(before[j], kms).Ok?;
          assert keys[k] == before[k] && forall j | 0 <= j < k :: keys[j] == before[j];
        }
        Err(e)
      case Ok(ks) =>
        match DecryptKey(keys[|keys| - 1], kms)
        case Err(e) => Err(e)
        case Ok(k) => Ok(ks + [k])
  }

  /** Re-attestation: the first key must decrypt to the stored key again. */
  function Attest(keys: seq<Key>, kms: Kms): (r: Option<ApiError>)
    ensures r.None? <==> |keys| > 0 && kms(keys[0].encryptedPem) == Plain(keys[0].pem)
  {
    if keys == [] then Some(EmptyToken)
    else
      match kms(keys[0].encryptedPem)
      case BadBase64 => Some(TokenKeyDecodingFailed)
      case Plain(pem) => if pem == keys[0].pem then None else Some(TokenRefreshFailed)
      case _ => Some(TokenRefreshFailed)
  }

  /* ---------- Requests ---------- */

  function AddStep(slots: Slots, t: NewToken, env: Env): (Slots, Response) {
    var live := Sweep(slots, env.load);
    if FindLabel(live, t.name).Some? then (slots, Err(TokenLabelInUse))
    else
      match DecryptKeys(t.keys, env.kms)
      case Err(e) => (slots, Err(e))
      case Ok(keys) =>
        match FindFree(live)
        case None => (slots, Err(TooManyTokens))
        case Some(i) =>
          (live[i := Some(Token(t.name, keys, t.pin, env.later + TOKEN_EXPIRY_SECS))], Ok(Nothing))
  }

  /** Seconds left until `expiry`. */
  function Remaining(expiry: nat, now: nat): nat {
    if expiry >= now then expiry - now else 0
  }

  /** Tokens that run out between the load and the listing are left out of the list. */
  function ListTokens(live: Slots, now: nat): (r: seq<TokenDesc>)
    ensures |r| <= |live|
  {
    if live == [] then []
    else
      var i := |live| - 1;
      ListTokens(live[..i], now)
      + if live[i].Some? && live[i].value.expiry >= now
        then [TokenDesc(live[i].value.name, i, Remaining(live[i].value.expiry, now))] else []
  }

  function FreeSlots(listed: nat): int {
    DEVICE_MAX_SLOTS - listed
  }

  function DescribeDeviceStep(slots: Slots, env: Env): Response {
    var tokens := ListTokens(Sweep(slots, env.load), env.later);
    Ok(DeviceDescription(FreeSlots(|tokens|), tokens))
  }

  function DescribeKeys(keys: seq<Key>): seq<KeyDesc> {
    seq(|keys|, k requires 0 <= k < |keys| => KeyDesc(keys[k].name, keys[k].id))
  }

  function DescribeTokenStep(slots: Slots, name: Bytes, pin: Bytes, env: Env): Response {
    var live := Sweep(slots, env.load);
    match FindLabel(live, name)
    case None => Err(TokenNotFound)
    case Some(i) =>
      var t := live[i].value;
      if t.pin != pin then Err(AccessDenied)
      else
        Ok(TokenDescription(TokenDesc(t.name, i, Remaining(t.expiry, env.later)), DescribeKeys(t.keys)))
  }

  function RefreshStep(slots: Slots, name: Bytes, pin: Bytes, env: Env): (Slots, Response) {
    var live := Sweep(slots, env.load);
    match FindLabel(live, name)
    case None => (slots, Err(TokenNotFound))
    case Some(i) =>
      var t := live[i].value;
      if t.pin != pin then (slots, Err(AccessDenied))
      else
        match Attest(t.keys, env.kms)
        case Some(e) => (slots, Err(e))
        case None => (live[i := Some(t.(expiry := env.later + TOKEN_EXPIRY_SECS))], Ok(Nothing))
  }

  function RemoveStep(slots: Slots, name: Bytes, pin: Bytes, env: Env): (Slots, Response) {
    var live := Sweep(slots, env.load);
    match FindLabel(live, name)
    case None => (slots, Err(TokenNotFound))
    case Some(i) =>
      if live[i].value.pin != pin then (slots, Err(AccessDenied))
      else (live[i := None], Ok(Nothing))
  }

  /** The replacement keeps the old name and PIN, whatever the new token carries. */
  function UpdateStep(slots: Slots, name: Bytes, pin: Bytes, t: NewToken, env: Env): (Slots, Response) {
    var live := Sweep(slots, env.load);
    if name != t.name && FindLabel(live, t.name).Some? then (slots, Err(TokenLabelInUse))
    else
      match FindLabel(live, name)
      case None => (slots, Err(TokenNotFound))
      case Some(i) =>
        if live[i].value.pin != pin then (slots, Err(AccessDenied))
        else
          match DecryptKeys(t.keys, env.kms)
          case Err(e) => (slots, Err(e))
          case Ok(keys) =>
            (live[i := Some(Token(name, keys, pin, env.later + TOKEN_EXPIRY_SECS))], Ok(Nothing))
  }

  function Step(slots: Slots, req: Request, env: Env): (Slots, Response) {
    var bad := CheckArgs(req);
    if bad.Some? then (slots, Err(InvalidArgs(bad.value)))
    else
      match req
      case AddToken(t) => AddStep(slots, t, env)
      case DescribeDevice => (slots, DescribeDeviceStep(slots, env))
      case DescribeToken(name, pin) => (slots, DescribeTokenStep(slots, name, pin, env))
      case RefreshToken(name, pin) => RefreshStep(slots, name, pin, env)
      case RemoveToken(name, pin) => RemoveStep(slots, name, pin, env)
      case UpdateToken(name, pin, t) => UpdateStep(slots, name, pin, t, env)
  }

  /* ---------- Runs ---------- */

  datatype Call = Call(req: Request, env: Env)

  function Run(slots: Slots, calls: seq<Call>): Slots {
    if calls == [] then slots
    else
      var last := calls[|calls| - 1];
      Step(Run(slots, calls[..|calls| - 1]), last.req, last.env).0
  }

  function Empty(): (r: Slots)
    ensures |r| == DEVICE_MAX_SLOTS && forall i | 0 <= i < |r| :: r[i].None?
  {
    seq(DEVICE_MAX_SLOTS, _ => None)
  }

  /** The clock never runs backwards, within a call or from one call to the next. */
  ghost predicate ClockForward(calls: seq<Call>) {
    && (forall k | 0 <= k < |calls| :: calls[k].env.load <= calls[k].env.later)
    && (forall j, k | 0 <= j < k < |calls| :: calls[j].env.later <= calls[k].env.load)
  }

  /* ---------- The invariant of the stored slots ---------- */

  ghost predicate Distinct(slots: Slots) {
    forall i, j | 0 <= i < j < |slots| && slots[i].Some? && slots[j].Some? ::
      slots[i].value.name != slots[j].value.name
  }

  ghost predicate DistinctKeys(keys: seq<Key>) {
    forall j, k | 0 <= j < k < |keys| :: keys[j].id != keys[k].id && keys[j].name != keys[k].name
  }

  ghost predicate GoodToken(t: Token, clock: nat) {
    && TOKEN_MIN_PIN_LEN <= |t.pin| <= TOKEN_MAX_PIN_LEN
    && TOKEN_MIN_LABEL_LEN <= |t.name| <= TOKEN_MAX_LABEL_LEN
    && DistinctKeys(t.keys)
    && t.expiry <= clock + TOKEN_EXPIRY_SECS
  }

  ghost predicate Inv(slots: Slots, clock: nat) {
    && |slots| == DEVICE_MAX_SLOTS
    && Distinct(slots)
    && forall i | 0 <= i < |slots| && slots[i].Some? :: GoodToken(slots[i].value, clock)
  }

  lemma DecryptedKeysDistinct(keys: seq<EncryptedKey>, kms: Kms)
    requires CheckKeys(keys).None? && DecryptKeys(keys, kms).Ok?
    ensures DistinctKeys(DecryptKeys(keys, kms).value)
  {
    var r := DecryptKeys(keys, kms).value;
    forall j, k | 0 <= j < k < |keys| ensures r[j].id != r[k].id && r[j].name != r[k].name {
      assert !RepeatsId(keys, k) && !RepeatsLabel(keys, k);
      assert DecryptKey(keys[j], kms) == Ok(r[j]) && DecryptKey(keys[k], kms) == Ok(r[k]);
    }
  }

  /** What a slot vector may become: expired tokens gone, and at most one slot changed. */
  ghost predicate SweptExcept(slots: Slots, slots': Slots, now: nat, i: nat) {
    && i < |slots| == |slots'|
    && forall j | 0 <= j < |slots| && j != i :: slots'[j] == Sweep(slots, now)[j]
  }

  /** Frame and atomicity of one request. An error leaves the stored slots as they were. A success
      other than an add changes only the slot of the named token, and only for its PIN; an add
      fills the first slot that is free once expired tokens are gone. */
  lemma StepFrame(slots: Slots, req: Request, env: Env)
    ensures var (slots', r) := Step(slots, req, env);
            var live := Sweep(slots, env.load);
            && (r.Err? || req.DescribeDevice? || req.DescribeToken? ==> slots' == slots)
            && (r.Ok? && req.AddToken? ==>
                  && FindFree(live).Some? && SweptExcept(slots, slots', env.load, FindFree(live).value)
                  && HasLabel(slots'[FindFree(live).value], req.token.name)
                  && slots'[FindFree(live).value].value.pin == req.token.pin)
            && (r.Ok? && (req.RefreshToken? || req.RemoveToken? || req.UpdateToken?) ==>
                  && FindLabel(live, req.name).Some? && live[FindLabel(live, req.name).value].value.pin == req.pin
                  && var i := FindLabel(live, req.name).value;
                     && SweptExcept(slots, slots', env.load, i)
                     && (req.RemoveToken? <==> slots'[i].None?)
                     && (slots'[i].Some? ==> slots'[i].value.name == req.name && slots'[i].value.pin == req.pin))
  {
  }

  lemma SweepKeepsInv(slots: Slots, now: nat, clock: nat)
    requires Inv(slots, clock)
    ensures Inv(Sweep(slots, now), clock)
  {
  }

  /** Writing a good token over a slot, when no other slot has its label. */
  lemma PutKeepsInv(live: Slots, i: nat, t: Token, clock: nat, clock': nat)
    requires Inv(live, clock) && clock <= clock' && i < |live|
    requires GoodToken(t, clock')
    requires forall j | 0 <= j < |live| && j != i :: !HasLabel(live[j], t.name)
    ensures Inv(live[i := Some(t)], clock')
  {
  }

  lemma StepKeepsInv(slots: Slots, req: Request, env: Env, clock: nat)
    requires Inv(slots, clock) && clock <= env.load <= env.later
    ensures Inv(Step(slots, req, env).0, env.later)
  {
    var (slots', r) := Step(slots, req, env);
    var live := Sweep(slots, env.load);
    SweepKeepsInv(slots, env.load, clock);
    if r.Err? || req.DescribeDevice? || req.DescribeToken? {
    } else if req.AddToken? {
      DecryptedKeysDistinct(req.token.keys, env.kms);
      PutKeepsInv(live, FindFree(live).value, slots'[FindFree(live).value].value, clock, env.later);
    } else {
      var i := FindLabel(live, req.name).value;
      if req.UpdateToken? {
        DecryptedKeysDistinct(req.token.keys, env.kms);
      }
      if !req.RemoveToken? {
        assert HasLabel(live[i], req.name);
        PutKeepsInv(live, i, slots'[i].value, clock, env.later);
      }
    }
  }

  function LastClock(calls: seq<Call>): nat {
    if calls == [] then 0 else calls[|calls| - 1].env.later
  }

  /** Store invariant: it holds after every sequence of requests served since the file was made. */
  lemma {:induction false} RunKeepsInv(calls: seq<Call>)
    requires ClockForward(calls)
    ensures Inv(Run(Empty(), calls), LastClock(calls))
  {
    if calls != [] {
      var before, last := calls[..|calls| - 1], calls[|calls| - 1];
      RunKeepsInv(before);
      StepKeepsInv(Run(Empty(), before), last.req, last.env, LastClock(before));
    }
  }

  /** A stored token that has not expired is changed or removed only by a request that gives its
      label and PIN. */
  lemma ChangeNeedsPin(slots: Slots, req: Request, env: Env, i: nat)
    requires Distinct(slots) && i < |slots| && slots[i].Some? && !Expired(slots[i].value, env.load)
    requires Step(slots, req, env).0[i] != slots[i]
    ensures req.RefreshToken? || req.RemoveToken? || req.UpdateToken?
    ensures req.name == slots[i].value.name && req.pin == slots[i].value.pin
  {
    StepFrame(slots, req, env);
  }

  /** One request leaves an unexpired token in its slot, with its label and PIN, unless it is its removal. */
  lemma StepKeepsSlot(slots: Slots, req: Request, env: Env, i: nat)
    requires Distinct(slots) && i < |slots| && slots[i].Some? && !Expired(slots[i].value, env.load)
    requires !(req.RemoveToken? && req.name == slots[i].value.name && req.pin == slots[i].value.pin)
    ensures var slots' := Step(slots, req, env).0;
            && |slots'| == |slots| && slots'[i].Some?
            && slots'[i].value.name == slots[i].value.name && slots'[i].value.pin == slots[i].value.pin
  {
    StepFrame(slots, req, env);
  }

  lemma StepKeepsDistinct(slots: Slots, req: Request, env: Env)
    requires Distinct(slots)
    ensures Distinct(Step(slots, req, env).0)
  {
    StepFrame(slots, req, env);
    assert Distinct(Sweep(slots, env.load));
  }

  lemma {:induction false} RunKeepsDistinct(slots: Slots, calls: seq<Call>)
    requires Distinct(slots)
    ensures Distinct(Run(slots, calls))
  {
    if calls != [] {
      var before, last := calls[..|calls| - 1], calls[|calls| - 1];
      RunKeepsDistinct(slots, before);
      StepKeepsDistinct(Run(slots, before), last.req, last.env);
    }
  }

  /** Slot `i` is not found expired by the n-th request. */
  predicate AliveAt(slots: Slots, calls: seq<Call>, n: nat, i: nat)
    requires n < |calls|
  {
    var before := Run(slots, calls[..n]);
    i < |before| && before[i].Some? ==> !Expired(before[i].value, calls[n].env.load)
  }

  /** From add to removal or expiry a token keeps its slot, label and PIN, whatever is requested: as long
      as no request finds it expired and none removes it with its label and PIN. */
  lemma {:induction false} RunKeepsSlot(slots: Slots, calls: seq<Call>, i: nat)
    requires Distinct(slots) && i < |slots| && slots[i].Some?
    requires forall n | 0 <= n < |calls| :: AliveAt(slots, calls, n, i)
    requires forall n | 0 <= n < |calls| && calls[n].req.RemoveToken? ::
               !(calls[n].req.name == slots[i].value.name && calls[n].req.pin == slots[i].value.pin)
    ensures |Run(slots, calls)| == |slots| && Run(slots, calls)[i].Some?
    ensures Run(slots, calls)[i].value.name == slots[i].value.name && Run(slots, calls)[i].value.pin == slots[i].value.pin
  {
    if calls != [] {
      var n := |calls| - 1;
      var before := calls[..n];
      forall m | 0 <= m < n ensures AliveAt(slots, before, m, i) {
        assert before[..m] == calls[..m] && AliveAt(slots, calls, m, i);
      }
      RunKeepsSlot(slots, before, i);
      RunKeepsDistinct(slots, before);
      assert AliveAt(slots, calls, n, i);
      StepKeepsSlot(Run(slots, before), calls[n].req, calls[n].env, i);
    }
  }

  lemma {:induction false} ListedEach(live: Slots, now: nat)
    ensures var ts := ListTokens(live, now);
            && |ts| <= |live|
            && (forall k | 0 <= k < |ts| ::
                  && ts[k].slotId < |live| && HasLabel(live[ts[k].slotId], ts[k].name)
                  && ts[k].ttl + now == live[ts[k].slotId].value.expiry)
            && (forall j, k | 0 <= j < k < |ts| :: ts[j].slotId < ts[k].slotId)
  {
    if live != [] {
      var n := |live| - 1;
      var ts, ts' := ListTokens(live[..n], now), ListTokens(live, now);
      ListedEach(live[..n], now);
      assert forall k | 0 <= k < |ts| :: ts'[k] == ts[k];
    }
  }

  lemma {:induction false} ListedAll(live: Slots, now: nat, i: nat)
    requires i < |live| && live[i].Some? && live[i].value.expiry >= now
    ensures exists k :: 0 <= k < |ListTokens(live, now)| && ListTokens(live, now)[k].slotId == i
  {
    var n := |live| - 1;
    var ts, ts' := ListTokens(live[..n], now), ListTokens(live, now);
    if i < n {
      ListedAll(live[..n], now, i);
      var k :| 0 <= k < |ts| && ts[k].slotId == i;
      assert ts'[k] == ts[k];
    } else {
      assert ts'[|ts|].slotId == i;
    }
  }

  /** The device listing: ascending slots, each with the token that slot holds, and every token
      still running is there. Free count and listed tokens add up to 128, and with the 128 slots of the
      store the free count cannot go negative. */
  lemma ListedSlots(live: Slots, now: nat)
    ensures var ts := ListTokens(live, now);
            && (forall k | 0 <= k < |ts| ::
                  && ts[k].slotId < |live| && HasLabel(live[ts[k].slotId], ts[k].name)
                  && ts[k].ttl + now == live[ts[k].slotId].value.expiry)
            && (forall j, k | 0 <= j < k < |ts| :: ts[j].slotId < ts[k].slotId)
            && (forall i | 0 <= i < |live| && live[i].Some? && live[i].value.expiry >= now ::
                  exists k :: 0 <= k < |ts| && ts[k].slotId == i)
            && FreeSlots(|ts|) + |ts| == DEVICE_MAX_SLOTS
            && (|live| == DEVICE_MAX_SLOTS ==> FreeSlots(|ts|) >= 0)
  {
    ListedEach(live, now);
    forall i | 0 <= i < |live| && live[i].Some? && live[i].value.expiry >= now
      ensures exists k :: 0 <= k < |ListTokens(live, now)| && ListTokens(live, now)[k].slotId == i
    {
      ListedAll(live, now, i);
    }
  }
}
