/**
 Object attributes: queries by template (section 5.7 of PKCS#11 v2.40) and matching.
 */
module Attributes {
  import opened Common

  const UNAVAILABLE: nat := U64_SIZE - 1

  type AttrType = nat

  const CKA_CLASS: AttrType := 0
  const CKA_PRIVATE: AttrType := 2

  datatype Attr = Plain(bytes: Bytes) | Sensitive

  /** An object: its attributes, and whether it stands for a mechanism. */
  datatype Object = Object(attrs: map<AttrType, Attr>, mechanism: bool)

  /** Attribute values are shorter than the marker of an unavailable length. */
  predicate GoodObject(obj: Object) {
    forall t | t in obj.attrs && obj.attrs[t].Plain? :: |obj.attrs[t].bytes| < UNAVAILABLE
  }

  /** A template entry in caller memory: a type, a buffer or null, and a length. */
  datatype Entry = Entry(typ: AttrType, buf: Option<Bytes>, len: nat)

  /** The caller's buffer is at least as long as its length says. */
  predicate Sound(e: Entry) {
    e.buf.Some? ==> e.len <= |e.buf.value|
  }

  datatype Rv = CkrOk | CkrAttributeSensitive | CkrBufferTooSmall | CkrAttributeTypeInvalid

  /* ---------- One entry ---------- */

  function Code(obj: Object, e: Entry): Rv {
    if e.typ !in obj.attrs then CkrAttributeTypeInvalid
    else if obj.attrs[e.typ].Sensitive? then CkrAttributeSensitive
    else if e.buf.Some? && |obj.attrs[e.typ].bytes| > e.len then CkrBufferTooSmall
    else CkrOk
  }

  /** The entry after the call. */
  function Filled(obj: Object, e: Entry): Entry
    requires Sound(e)
  {
    if Code(obj, e) != CkrOk then e.(len := UNAVAILABLE)
    else
      var v := obj.attrs[e.typ].bytes;
      Entry(e.typ, if e.buf.None? then None else Some(v + e.buf.value[|v|..]), |v|)
  }

  /** The entry can be answered: it is there, not sensitive, and null or large enough. */
  predicate Answerable(obj: Object, e: Entry) {
    && e.typ in obj.attrs && obj.attrs[e.typ].Plain?
    && (e.buf.None? || |obj.attrs[e.typ].bytes| <= e.len)
  }

  /** Which code an entry gets. */
  lemma CodeIs(obj: Object, e: Entry)
    ensures Code(obj, e) == CkrOk <==> Answerable(obj, e)
    ensures Code(obj, e) == CkrAttributeTypeInvalid <==> e.typ !in obj.attrs
    ensures Code(obj, e) == CkrAttributeSensitive <==> e.typ in obj.attrs && obj.attrs[e.typ].Sensitive?
    ensures Code(obj, e) == CkrBufferTooSmall <==>
              e.typ in obj.attrs && obj.attrs[e.typ].Plain? && e.buf.Some? && |obj.attrs[e.typ].bytes| > e.len
  {
  }

  /* ---------- The whole template ---------- */

  /** The code of the last entry that failed. */
  function LastCode(obj: Object, tpl: seq<Entry>): Rv {
    if tpl == [] then CkrOk
    else
      var n := |tpl| - 1;
      if Code(obj, tpl[n]) != CkrOk then Code(obj, tpl[n]) else LastCode(obj, tpl[..n])
  }

  /** The result is OK exactly when every entry can be answered, and otherwise the code of the last
      entry that cannot. */
  lemma {:induction false} LastCodeIs(obj: Object, tpl: seq<Entry>)
    ensures LastCode(obj, tpl) == CkrOk <==> forall i | 0 <= i < |tpl| :: Answerable(obj, tpl[i])
    ensures LastCode(obj, tpl) != CkrOk ==>
              exists i | 0 <= i < |tpl| ::
                && Code(obj, tpl[i]) == LastCode(obj, tpl) && !Answerable(obj, tpl[i])
                && forall j | i < j < |tpl| :: Answerable(obj, tpl[j])
  {
    if tpl != [] {
      var n := |tpl| - 1;
      LastCodeIs(obj, tpl[..n]);
      assert forall i | 0 <= i < n :: tpl[..n][i] == tpl[i];
      if Code(obj, tpl[n]) == CkrOk && LastCode(obj, tpl[..n]) != CkrOk {
        var i :| 0 <= i < n && Code(obj, tpl[i]) == LastCode(obj, tpl) && !Answerable(obj, tpl[i])
               && forall j | i < j < n :: Answerable(obj, tpl[..n][j]);
        assert forall j | i < j < |tpl| :: Answerable(obj, tpl[j]);
      }
    }
  }

  /** The template a caller makes after asking for lengths: buffers of those lengths where one was
      given, of any content. */
  predicate Follows(query: Entry, e: Entry) {
    && e.typ == query.typ
    && if query.len == UNAVAILABLE then e.buf.None?
       else e.buf.Some? && |e.buf.value| == query.len && e.len == query.len
  }

  /** Asking for lengths and then for values: each entry is then exactly its value, or unavailable
      as the first call said, and no buffer is too small. */
  lemma QueryThenFetch(obj: Object, ask: Entry, e: Entry)
    requires GoodObject(obj) && ask.buf.None? && Follows(Filled(obj, ask), e)
    ensures Sound(e) && Code(obj, e) == Code(obj, ask) && Code(obj, e) != CkrBufferTooSmall
    ensures Code(obj, e) == CkrOk ==>
              Filled(obj, e) == Entry(ask.typ, Some(obj.attrs[ask.typ].bytes), |obj.attrs[ask.typ].bytes|)
    ensures Code(obj, e) != CkrOk ==> Filled(obj, e).buf.None? && Filled(obj, e).len == UNAVAILABLE
  {
    if Code(obj, ask) == CkrOk {
      assert |obj.attrs[ask.typ].bytes| < UNAVAILABLE;
      assert obj.attrs[ask.typ].bytes + e.buf.value[e.len..] == obj.attrs[ask.typ].bytes;
    }
  }

  lemma {:induction false} QueryThenFetchAll(obj: Object, asks: seq<Entry>, tpl: seq<Entry>)
    requires GoodObject(obj) && |tpl| == |asks|
    requires forall i | 0 <= i < |tpl| :: asks[i].buf.None? && Follows(Filled(obj, asks[i]), tpl[i])
    ensures LastCode(obj, tpl) == LastCode(obj, asks) && LastCode(obj, tpl) != CkrBufferTooSmall
    ensures forall i | 0 <= i < |tpl| && Code(obj, asks[i]) == CkrOk ::
              Sound(tpl[i]) && Filled(obj, tpl[i]).buf == Some(obj.attrs[asks[i].typ].bytes)
                            && Filled(obj, tpl[i]).len == |obj.attrs[asks[i].typ].bytes|
  {
    if tpl != [] {
      var n := |tpl| - 1;
      QueryThenFetchAll(obj, asks[..n], tpl[..n]);
      QueryThenFetch(obj, asks[n], tpl[n]);
      forall i | 0 <= i < n && Code(obj, asks[i]) == CkrOk
        ensures Sound(tpl[i]) && Filled(obj, tpl[i]).buf == Some(obj.attrs[asks[i].typ].bytes)
                              && Filled(obj, tpl[i]).len == |obj.attrs[asks[i].typ].bytes|
      {
        QueryThenFetch(obj, asks[i], tpl[i]);
      }
    }
  }

  /** Bytes are written only into a buffer of an answerable entry, and there only over the start. */
  lemma WritesOnlyValues(obj: Object, e: Entry)
    requires Sound(e)
    ensures var f := Filled(obj, e);
            && f.typ == e.typ && (f.buf.Some? <==> e.buf.Some?)
            && (e.buf.Some? ==> |f.buf.value| == |e.buf.value|)
            && (!Answerable(obj, e) ==> f.buf == e.buf && f.len == 0xFFFF_FFFF_FFFF_FFFF)
            && (Answerable(obj, e) ==> f.len == |obj.attrs[e.typ].bytes|)
            && (e.buf.Some? && Answerable(obj, e) ==>
                  && f.buf.value[..f.len] == obj.attrs[e.typ].bytes
                  && f.buf.value[f.len..] == e.buf.value[f.len..])
  {
  }

  /* ---------- In caller memory ---------- */

  class RawAttr {
    const typ: AttrType
    const value: array?<byte>
    var len: nat

    constructor (t: AttrType, v: array?<byte>, l: nat)
      ensures typ == t && value == v && len == l
    {
      typ, value, len := t, v, l;
    }

    function View(): Entry
      reads this, value
    {
      Entry(typ, if value == null then None else Some(value[..]), len)
    }

    ghost predicate Ok()
      reads this
    {
      value != null ==> len <= value.Length
    }

    /** Copy a value in: false if there is room for less. A null buffer takes nothing. */
    method SetValue(bytes: Bytes) returns (fits: bool)
      requires Ok()
      modifies value
      ensures fits <==> value == null || |bytes| <= len
      ensures value != null ==> value[..] == if fits then bytes + old(value[..])[|bytes|..] else old(value[..])
    {
      if value == null {
        return true;
      }
      if |bytes| > len {
        return false;
      }
      forall i | 0 <= i < |bytes| {
        value[i] := bytes[i];
      }
      assert value[..] == bytes + old(value[..])[|bytes|..];
      fits := true;
    }

    /** Answer this entry. */
    method Fill(obj: Object) returns (rv: Rv)
      requires Ok()
      modifies this, value
      ensures View() == Filled(obj, old(View())) && rv == Code(obj, old(View()))
    {
      if typ !in obj.attrs {
        len := UNAVAILABLE;
        return CkrAttributeTypeInvalid;
      }
      match obj.attrs[typ]
      case Sensitive =>
        len := UNAVAILABLE;
        rv := CkrAttributeSensitive;
      case Plain(bytes) =>
        var fits := SetValue(bytes);
        len := if fits then |bytes| else UNAVAILABLE;
        rv := if fits then CkrOk else CkrBufferTooSmall;
    }
  }

  /** Entries with buffers of their own. */
  ghost predicate Separate(tpl: seq<RawAttr>) {
    forall i, j | 0 <= i < j < |tpl| ::
      tpl[i] != tpl[j] && (tpl[i].value != null ==> tpl[i].value != tpl[j].value)
  }

  ghost function Views(tpl: seq<RawAttr>): (r: seq<Entry>)
    reads tpl, set a: RawAttr | a in tpl :: a.value
    ensures |r| == |tpl| && forall i | 0 <= i < |tpl| :: r[i] == tpl[i].View()
  {
    if tpl == [] then [] else Views(tpl[..|tpl| - 1]) + [tpl[|tpl| - 1].View()]
  }

  /** Answer one entry; the others keep theirs. */
  method FillAt(obj: Object, tpl: seq<RawAttr>, n: nat) returns (rv: Rv)
    requires Separate(tpl) && n < |tpl| && tpl[n].Ok()
    modifies tpl[n], tpl[n].value
    ensures tpl[n].View() == Filled(obj, old(tpl[n].View())) && rv == Code(obj, old(tpl[n].View()))
    ensures forall i | 0 <= i < |tpl| && i != n :: tpl[i].View() == old(tpl[i].View()) && tpl[i].len == old(tpl[i].len)
  {
    rv := tpl[n].Fill(obj);
  }

  /** Each entry is answered on its own, whatever happened to the others, and the last failure is
      reported. */
  method FillTemplate(obj: Object, tpl: seq<RawAttr>) returns (rv: Rv)
    requires Separate(tpl) && forall i | 0 <= i < |tpl| :: tpl[i].Ok()
    modifies tpl, set a: RawAttr | a in tpl :: a.value
    ensures rv == LastCode(obj, old(Views(tpl)))
    ensures forall i | 0 <= i < |tpl| :: Sound(old(Views(tpl))[i]) && tpl[i].View() == Filled(obj, old(Views(tpl))[i])
  {
    rv := CkrOk;
    ghost var was := Views(tpl);
    assert forall i | 0 <= i < |tpl| :: was[i] == tpl[i].View() && tpl[i].Ok();
    for n := 0 to |tpl|
      invariant rv == LastCode(obj, was[..n])
      invariant forall i | 0 <= i < |tpl| :: Sound(was[i])
      invariant forall i | 0 <= i < n :: tpl[i].View() == Filled(obj, was[i])
      invariant forall i | n <= i < |tpl| :: tpl[i].View() == was[i] && tpl[i].Ok()
    {
      assert was[..n + 1][..n] == was[..n];
      var code := FillAt(obj, tpl, n);
      if code != CkrOk {
        rv := code;
      }
    }
    assert was[..|tpl|] == was;
  }
}
