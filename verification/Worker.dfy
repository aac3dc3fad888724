/**
 The configuration file and the RPC worker as mutable objects, proved against `Store.Step`.

 Loading, parsing and saving succeed; the file lock is the subject of `ConfigFile`.
 */
module Worker {
  import opened Common
  import opened Store

  /** The configuration file, by the slots it encodes. */
  class SlotFile {
    var content: Slots

    /** A new file: every slot free. */
    constructor InitNew()
      ensures content == Empty()
    {
      var slots: Slots := [];
      for n := 0 to DEVICE_MAX_SLOTS
        invariant slots == seq(n, _ => None)
      {
        slots := slots + [None];
      }
      content := slots;
    }
  }

  /** A loaded configuration. `file` is kept by the read-write form only. */
  class Config {
    var slots: Slots
    const file: SlotFile?

    constructor LoadRo(f: SlotFile, now: nat)
      ensures slots == Sweep(f.content, now) && file == null
    {
      slots := f.content;
      file := null;
      new;
      DropExpired(now);
    }

    constructor LoadRw(f: SlotFile, now: nat)
      ensures slots == Sweep(f.content, now) && file == f
    {
      slots := f.content;
      file := f;
      new;
      DropExpired(now);
    }

    /** The expiry sweep of every load. */
    method DropExpired(now: nat)
      modifies this`slots
      ensures slots == Sweep(old(slots), now)
    {
      var n := |slots|;
      for i := 0 to n
        invariant |slots| == n == |old(slots)|
        invariant forall j | 0 <= j < i :: slots[j] == Kept(old(slots)[j], now)
        invariant forall j | i <= j < n :: slots[j] == old(slots)[j]
      {
        var alive := slots[i].Some? && slots[i].value.expiry > now;
        if !alive {
          slots := slots[i := None];
        }
      }
    }

    /** Write the slots back; refused for a configuration loaded read-only. */
    method Save() returns (ok: bool)
      modifies if file == null then {} else {file}
      ensures ok <==> file != null
      ensures ok ==> file.content == slots
    {
      if file == null {
        return false;
      }
      file.content := slots;
      return true;
    }
  }

  method ValidateKeys(keys: seq<EncryptedKey>) returns (r: Option<ArgError>)
    ensures r == CheckKeys(keys)
  {
    var ids: set<byte>, names: set<Bytes> := {}, {};
    for k := 0 to |keys|
      invariant ids == set j | 0 <= j < k :: keys[j].id
      invariant names == set j | 0 <= j < k :: keys[j].name
      invariant CheckKeys(keys[..k]).None?
    {
      var next := keys[..k + 1];
      assert next[..k] == keys[..k] && next[k] == keys[k];
      assert RepeatsId(next, k) <==> keys[k].id in ids;
      assert RepeatsLabel(next, k) <==> keys[k].name in names;
      if keys[k].id in ids {
        CheckKeysPrefix(keys, k + 1);
        return Some(DuplicateKeyId(keys[k].id));
      }
      if keys[k].name in names {
        CheckKeysPrefix(keys, k + 1);
        return Some(DuplicateKeyLabel(keys[k].name));
      }
      ids := ids + {keys[k].id};
      names := names + {keys[k].name};
    }
    assert keys[..|keys|] == keys;
    return None;
  }

  /** An error found in a prefix of the keys is the error of all of them. */
  lemma {:induction false} CheckKeysPrefix(keys: seq<EncryptedKey>, n: nat)
    requires n <= |keys| && CheckKeys(keys[..n]).Some?
    ensures CheckKeys(keys) == CheckKeys(keys[..n])
  {
    if n == |keys| {
      assert keys[..n] == keys;
    } else {
      var before := keys[..|keys| - 1];
      assert before[..n] == keys[..n];
      CheckKeysPrefix(before, n);
    }
  }

  method DecryptTokenKeys(keys: seq<EncryptedKey>, kms: Kms) returns (r: Result<seq<Key>, ApiError>)
    ensures r == DecryptKeys(keys, kms)
  {
    var done: seq<Key> := [];
    for k := 0 to |keys|
      invariant DecryptKeys(keys[..k], kms) == Ok(done)
    {
      var next := keys[..k + 1];
      assert next[..k] == keys[..k] && next[k] == keys[k];
      match DecryptKey(keys[k], kms) {
        case Err(e) =>
          DecryptKeysPrefix(keys, k + 1, kms);
          return Err(e);
        case Ok(key) =>
          done := done + [key];
      }
    }
    assert keys[..|keys|] == keys;
    return Ok(done);
  }

  lemma {:induction false} DecryptKeysPrefix(keys: seq<EncryptedKey>, n: nat, kms: Kms)
    requires n <= |keys| && DecryptKeys(keys[..n], kms).Err?
    ensures DecryptKeys(keys, kms) == DecryptKeys(keys[..n], kms)
  {
    if n == |keys| {
      assert keys[..n] == keys;
    } else {
      var before := keys[..|keys| - 1];
      assert before[..n] == keys[..n];
      DecryptKeysPrefix(before, n, kms);
    }
  }

  /** The first slot with a label. */
  method ScanLabel(slots: Slots, name: Bytes) returns (r: Option<nat>)
    ensures r == FindLabel(slots, name)
  {
    for i := 0 to |slots|
      invariant forall j | 0 <= j < i :: !HasLabel(slots[j], name)
    {
      if slots[i].Some? && slots[i].value.name == name {
        assert HasLabel(slots[i], name) && FirstLabel(slots, name, i);
        return Some(i);
      }
    }
    return None;
  }

  /** The first free slot. */
  method ScanFree(slots: Slots) returns (r: Option<nat>)
    ensures r == FindFree(slots)
  {
    for i := 0 to |slots|
      invariant forall j | 0 <= j < i :: slots[j].Some?
    {
      if slots[i].None? {
        assert FirstFree(slots, i);
        return Some(i);
      }
    }
    return None;
  }

  /** How many slots carry a label. */
  method CountLabel(slots: Slots, name: Bytes) returns (n: nat)
    ensures n > 0 <==> FindLabel(slots, name).Some?
  {
    n := 0;
    for i := 0 to |slots|
      invariant n > 0 <==> exists j :: 0 <= j < i && HasLabel(slots[j], name)
    {
      if slots[i].Some? && slots[i].value.name == name {
        assert HasLabel(slots[i], name);
        n := n + 1;
      }
    }
  }

  /** Decrypt the first key again and compare: this succeeds exactly when the token has a key and the KMS
      still decrypts the first one to the stored text; the other keys are not looked at. */
  method AttestFirst(keys: seq<Key>, kms: Kms) returns (failed: Option<ApiError>)
    ensures failed.None? <==> |keys| > 0 && kms(keys[0].encryptedPem) == Plain(keys[0].pem)
    ensures failed == Some(EmptyToken) <==> |keys| == 0
    ensures failed == Some(TokenKeyDecodingFailed) <==> |keys| > 0 && kms(keys[0].encryptedPem).BadBase64?
    ensures failed.Some? ==> failed.value in {EmptyToken, TokenKeyDecodingFailed, TokenRefreshFailed}
  {
    if |keys| == 0 {
      return Some(EmptyToken);
    }
    var key := keys[0];
    match kms(key.encryptedPem) {
      case BadBase64 => failed := Some(TokenKeyDecodingFailed);
      case KmsFailed => failed := Some(TokenRefreshFailed);
      case BadUtf8 => failed := Some(TokenRefreshFailed);
      case Plain(pem) => failed := if pem == key.pem then None else Some(TokenRefreshFailed);
    }
  }

  method DescribeDevice(f: SlotFile, env: Env) returns (r: Response)
    ensures r == DescribeDeviceStep(f.content, env)
  {
    var config := new Config.LoadRo(f, env.load);
    var live := config.slots;
    var tokens: seq<TokenDesc> := [];
    for i := 0 to |live|
      invariant tokens == ListTokens(live[..i], env.later)
    {
      assert live[..i + 1][..i] == live[..i];
      if live[i].Some? && live[i].value.expiry >= env.later {
        tokens := tokens + [TokenDesc(live[i].value.name, i, live[i].value.expiry - env.later)];
      }
    }
    assert live[..|live|] == live;
    return Ok(DeviceDescription(DEVICE_MAX_SLOTS - |tokens|, tokens));
  }

  method DescribeToken(f: SlotFile, name: Bytes, pin: Bytes, env: Env) returns (r: Response)
    ensures r == DescribeTokenStep(f.content, name, pin, env)
  {
    var config := new Config.LoadRo(f, env.load);
    var slot := ScanLabel(config.slots, name);
    if slot.None? {
      return Err(TokenNotFound);
    }
    var token := config.slots[slot.value].value;
    if token.pin != pin {
      return Err(AccessDenied);
    }
    var keys: seq<KeyDesc> := [];
    for k := 0 to |token.keys|
      invariant keys == DescribeKeys(token.keys[..k])
    {
      keys := keys + [KeyDesc(token.keys[k].name, token.keys[k].id)];
    }
    assert token.keys[..|token.keys|] == token.keys;
    var ttl := if token.expiry >= env.later then token.expiry - env.later else 0;
    return Ok(TokenDescription(TokenDesc(token.name, slot.value, ttl), keys));
  }

  method AddToken(f: SlotFile, t: NewToken, env: Env) returns (r: Response)
    modifies f
    ensures (f.content, r) == AddStep(old(f.content), t, env)
  {
    var config := new Config.LoadRw(f, env.load);
    var dup := CountLabel(config.slots, t.name);
    if dup > 0 {
      return Err(TokenLabelInUse);
    }
    var keys := DecryptTokenKeys(t.keys, env.kms);
    if keys.Err? {
      return Err(keys.error);
    }
    var free := ScanFree(config.slots);
    if free.None? {
      return Err(TooManyTokens);
    }
    config.slots := config.slots[free.value := Some(Token(t.name, keys.value, t.pin, env.later + TOKEN_EXPIRY_SECS))];
    var _ := config.Save();
    return Ok(Nothing);
  }

  method RefreshToken(f: SlotFile, name: Bytes, pin: Bytes, env: Env) returns (r: Response)
    modifies f
    ensures (f.content, r) == RefreshStep(old(f.content), name, pin, env)
  {
    var config := new Config.LoadRw(f, env.load);
    var slot := ScanLabel(config.slots, name);
    if slot.None? {
      return Err(TokenNotFound);
    }
    var token := config.slots[slot.value].value;
    if token.pin != pin {
      return Err(AccessDenied);
    }
    var failed := AttestFirst(token.keys, env.kms);
    if failed.Some? {
      return Err(failed.value);
    }
    config.slots := config.slots[slot.value := Some(token.(expiry := env.later + TOKEN_EXPIRY_SECS))];
    var _ := config.Save();
    return Ok(Nothing);
  }

  method RemoveToken(f: SlotFile, name: Bytes, pin: Bytes, env: Env) returns (r: Response)
    modifies f
    ensures (f.content, r) == RemoveStep(old(f.content), name, pin, env)
  {
    var config := new Config.LoadRw(f, env.load);
    var slot := ScanLabel(config.slots, name);
    if slot.None? {
      return Err(TokenNotFound);
    }
    if config.slots[slot.value].value.pin != pin {
      return Err(AccessDenied);
    }
    config.slots := config.slots[slot.value := None];
    var _ := config.Save();
    return Ok(Nothing);
  }

  method UpdateToken(f: SlotFile, name: Bytes, pin: Bytes, t: NewToken, env: Env) returns (r: Response)
    modifies f
    ensures (f.content, r) == UpdateStep(old(f.content), name, pin, t, env)
  {
    var config := new Config.LoadRw(f, env.load);
    if name != t.name {
      var other := ScanLabel(config.slots, t.name);
      if other.Some? {
        return Err(TokenLabelInUse);
      }
    }
    var slot := ScanLabel(config.slots, name);
    if slot.None? {
      return Err(TokenNotFound);
    }
    if config.slots[slot.value].value.pin != pin {
      return Err(AccessDenied);
    }
    var keys := DecryptTokenKeys(t.keys, env.kms);
    if keys.Err? {
      return Err(keys.error);
    }
    config.slots := config.slots[slot.value := Some(Token(name, keys.value, pin, env.later + TOKEN_EXPIRY_SECS))];
    var _ := config.Save();
    return Ok(Nothing);
  }

  method ValidateArgs(req: Request) returns (bad: Option<ArgError>)
    ensures bad == CheckArgs(req)
  {
    bad := match req
      case AddToken(t) => CheckPinLabel(t.pin, t.name)
      case DescribeDevice => None
      case UpdateToken(name, pin, t) =>
        if CheckPinLabel(pin, name).Some? then CheckPinLabel(pin, name) else CheckPinLabel(t.pin, t.name)
      case _ => CheckPinLabel(req.pin, req.name);
    if bad.None? && (req.AddToken? || req.UpdateToken?) {
      bad := ValidateKeys(req.token.keys);
    }
  }

  /** One request, from validation to response. */
  method Serve(f: SlotFile, req: Request, env: Env) returns (r: Response)
    modifies f
    ensures (f.content, r) == Step(old(f.content), req, env)
  {
    var bad := ValidateArgs(req);
    if bad.Some? {
      return Err(InvalidArgs(bad.value));
    }
    match req {
      case AddToken(t) => r := AddToken(f, t, env);
      case DescribeDevice => r := DescribeDevice(f, env);
      case DescribeToken(name, pin) => r := DescribeToken(f, name, pin, env);
      case RefreshToken(name, pin) => r := RefreshToken(f, name, pin, env);
      case RemoveToken(name, pin) => r := RemoveToken(f, name, pin, env);
      case UpdateToken(name, pin, t) => r := UpdateToken(f, name, pin, t, env);
    }
  }
}
