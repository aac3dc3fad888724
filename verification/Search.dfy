/**
 Object search: which objects a template matches, which a session may see, and how they are handed
 out in chunks.
 */
module Search {
  import opened Common
  import opened Attributes

  type Handle = nat

  /** A template entry for matching: the caller's value, or None for a null pointer. */
  datatype Want = Want(typ: AttrType, value: Option<Bytes>)

  function AsBytes(a: Attr): Bytes {
    if a.Sensitive? then [] else a.bytes
  }

  predicate Has(obj: Object, w: Want) {
    w.typ in obj.attrs && w.value == Some(AsBytes(obj.attrs[w.typ]))
  }

  /** All wanted attributes are there; a mechanism must also be asked for by class. */
  predicate Matches(obj: Object, tpl: seq<Want>) {
    && (forall w | w in tpl :: Has(obj, w))
    && (obj.mechanism ==> exists w | w in tpl :: w.typ == CKA_CLASS)
  }

  method MatchTemplate(obj: Object, tpl: seq<Want>) returns (r: bool)
    ensures r == Matches(obj, tpl)
  {
    var classMatched := false;
    for n := 0 to |tpl|
      invariant forall w | w in tpl[..n] :: Has(obj, w)
      invariant classMatched <==> exists w | w in tpl[..n] :: w.typ == CKA_CLASS
    {
      var w := tpl[n];
      assert tpl[..n + 1] == tpl[..n] + [w];
      if w.typ !in obj.attrs || w.value.None? || AsBytes(obj.attrs[w.typ]) != w.value.value {
        assert w in tpl && !Has(obj, w);
        return false;
      }
      if w.typ == CKA_CLASS {
        assert w in tpl[..n + 1];
        classMatched := true;
      }
    }
    assert tpl[..|tpl|] == tpl;
    r := !obj.mechanism || classMatched;
  }

  /** Order and repetition of entries do not matter. */
  lemma MatchUnordered(obj: Object, a: seq<Want>, b: seq<Want>)
    requires forall w :: w in a <==> w in b
    ensures Matches(obj, a) == Matches(obj, b)
  {
  }

  lemma MatchPermuted(obj: Object, a: seq<Want>, b: seq<Want>)
    requires multiset(a) == multiset(b)
    ensures Matches(obj, a) == Matches(obj, b)
  {
    forall w
      ensures w in a <==> w in b
    {
      assert w in a <==> w in multiset(a);
      assert w in b <==> w in multiset(b);
    }
    MatchUnordered(obj, a, b);
  }

  /** A mechanism matches only a template that names its very class. */
  lemma MechanismNamed(obj: Object, tpl: seq<Want>)
    requires obj.mechanism && Matches(obj, tpl)
    ensures CKA_CLASS in obj.attrs && Want(CKA_CLASS, Some(AsBytes(obj.attrs[CKA_CLASS]))) in tpl
  {
    var w :| w in tpl && w.typ == CKA_CLASS;
    assert Has(obj, w);
  }

  /* ---------- What a search lists ---------- */

  const TRUE_BYTES: Bytes := [1]

  predicate IsPrivate(obj: Object) {
    CKA_PRIVATE in obj.attrs && AsBytes(obj.attrs[CKA_PRIVATE]) == TRUE_BYTES
  }

  /** What the search of a session lists: private objects only for a user, mechanisms only on demand. */
  predicate Listed(obj: Object, user: bool, tpl: Option<seq<Want>>) {
    && (user || !IsPrivate(obj))
    && match tpl
       case Some(t) => Matches(obj, t)
       case None => !obj.mechanism
  }

  /** The handles of listed objects: their positions, in order. */
  function Handles(db: seq<Object>, user: bool, tpl: Option<seq<Want>>): (r: seq<Handle>)
    ensures forall i | 0 <= i < |r| :: r[i] < |db|
  {
    if db == [] then []
    else
      var n := |db| - 1;
      Handles(db[..n], user, tpl) + if Listed(db[n], user, tpl) then [n] else []
  }

  /** The filter over the database. */
  method ListHandles(db: seq<Object>, user: bool, tpl: Option<seq<Want>>) returns (r: seq<Handle>)
    ensures r == Handles(db, user, tpl)
  {
    r := [];
    for i := 0 to |db|
      invariant r == Handles(db[..i], user, tpl)
    {
      assert db[..i + 1][..i] == db[..i];
      var pass := user || !IsPrivate(db[i]);
      if pass {
        match tpl {
          case Some(t) => pass := MatchTemplate(db[i], t);
          case None => pass := !db[i].mechanism;
        }
      }
      if pass {
        r := r + [i];
      }
    }
    assert db[..|db|] == db;
  }

  /** The object of a handle. */
  function Lookup(db: seq<Object>, h: Handle): Option<Object> {
    if h < |db| then Some(db[h]) else None
  }

  ghost predicate Ascending(s: seq<Handle>) {
    forall i, j | 0 <= i < j < |s| :: s[i] < s[j]
  }

  /** The handles are exactly those of the listed objects, in ascending order without repeats. */
  lemma {:induction false} HandlesExact(db: seq<Object>, user: bool, tpl: Option<seq<Want>>)
    ensures Ascending(Handles(db, user, tpl))
    ensures forall h: Handle :: h in Handles(db, user, tpl) <==>
              Lookup(db, h).Some? && Listed(Lookup(db, h).value, user, tpl)
  {
    if db != [] {
      var n := |db| - 1;
      HandlesExact(db[..n], user, tpl);
      var before, all := Handles(db[..n], user, tpl), Handles(db, user, tpl);
      assert forall i | 0 <= i < |before| :: before[i] < n;
      forall h: Handle
        ensures h in all <==> h < |db| && Listed(db[h], user, tpl)
      {
        assert h in before <==> h < n && Listed(db[..n][h], user, tpl);
      }
    }
  }

  /** The bytes of an attribute as a search compares them; a sensitive one compares as no bytes. */
  predicate Reads(obj: Object, t: AttrType, bytes: Bytes) {
    t in obj.attrs && match obj.attrs[t] case Plain(b) => b == bytes case Sensitive => bytes == []
  }

  /** A private object: its attribute CKA_PRIVATE (2) is the byte 1. */
  predicate Hidden(obj: Object) {
    Reads(obj, 2, [1])
  }

  /** Whether an object is searched for: with a template, exactly the objects all of whose wanted attributes
      have the wanted values, mechanisms only if attribute CKA_CLASS (0) is among them; without one, every
      object but mechanisms. */
  ghost predicate SearchedFor(obj: Object, tpl: Option<seq<Want>>) {
    match tpl
    case None => !obj.mechanism
    case Some(t) =>
      && (forall i | 0 <= i < |t| :: t[i].value.Some? && Reads(obj, t[i].typ, t[i].value.value))
      && (obj.mechanism ==> exists i | 0 <= i < |t| :: t[i].typ == 0)
  }

  /** Who sees what: without a login a search lists what is searched for and not private, with one all that is
      searched for; so the two differ exactly by the private objects. */
  lemma SeenIff(db: seq<Object>, user: bool, tpl: Option<seq<Want>>, h: Handle)
    ensures h in Handles(db, user, tpl) <==> h < |db| && SearchedFor(db[h], tpl) && (user || !Hidden(db[h]))
  {
    HandlesExact(db, user, tpl);
    if h < |db| {
      ListedIff(db[h], user, tpl);
      assert Lookup(db, h) == Some(db[h]);
    }
  }

  lemma HiddenFromPublic(db: seq<Object>, tpl: Option<seq<Want>>, h: Handle)
    ensures h in Handles(db, false, tpl) <==> h in Handles(db, true, tpl) && !Hidden(db[h])
  {
    SeenIff(db, false, tpl, h);
    SeenIff(db, true, tpl, h);
  }

  lemma ListedIff(obj: Object, user: bool, tpl: Option<seq<Want>>)
    ensures Listed(obj, user, tpl) <==> SearchedFor(obj, tpl) && (user || !Hidden(obj))
  {
    if tpl.Some? {
      var t := tpl.value;
      assert forall i | 0 <= i < |t| :: t[i] in t;
      forall i | 0 <= i < |t| ensures Has(obj, t[i]) <==> t[i].value.Some? && Reads(obj, t[i].typ, t[i].value.value) {
      }
    }
  }

  /* ---------- Handing out chunks ---------- */

  /** Addition of machine words without overflow checks. */
  function WrapAdd(a: nat, b: nat): nat
    requires a < U64_SIZE && b < U64_SIZE
  {
    if a + b < U64_SIZE then a + b else a + b - U64_SIZE
  }

  /** A search in progress. */
  class EnumCtx {
    const handles: seq<Handle>
    var index: nat

    constructor (hs: seq<Handle>)
      ensures handles == hs && index == 0
    {
      handles, index := hs, 0;
    }

    ghost predicate Valid()
      reads this
    {
      index <= |handles| < U64_SIZE
    }

    /** The next handles, at most `count`; None when the range is refused, which happens exactly when
        the end of the range does not fit a machine word. */
    method NextChunk(count: nat) returns (r: Option<seq<Handle>>)
      requires Valid() && count < U64_SIZE
      modifies this
      ensures Valid()
      ensures r.None? <==> old(index) + count >= U64_SIZE
      ensures r.Some? ==> index == Min(old(index) + count, |handles|) && r.value == handles[old(index)..index]
      ensures r.None? ==> index == old(index)
    {
      var end := Min(WrapAdd(index, count), |handles|);
      if end < index {
        return None;
      }
      r := Some(handles[index..end]);
      index := index + |r.value|;
    }
  }

  function Sum(counts: seq<nat>): nat {
    if counts == [] then 0 else Sum(counts[..|counts| - 1]) + counts[|counts| - 1]
  }

  /** No call asks for a range that ends beyond a machine word. */
  ghost predicate NoOverflow(total: nat, counts: seq<nat>) {
    forall i | 0 <= i < |counts| :: Min(Sum(counts[..i]), total) + counts[i] < U64_SIZE
  }

  /** Chunk after chunk: together they are the first handles, as many as were asked for or as there
      are, and a chunk shorter than asked for means the end. */
  method Collect(c: EnumCtx, counts: seq<nat>) returns (found: seq<Handle>, ended: bool)
    requires c.Valid() && c.index == 0 && NoOverflow(|c.handles|, counts)
    modifies c
    ensures found <= c.handles && |found| == Min(Sum(counts), |c.handles|)
    ensures ended ==> found == c.handles
  {
    found, ended := [], false;
    for n := 0 to |counts|
      invariant c.Valid() && c.index == Min(Sum(counts[..n]), |c.handles|)
      invariant found == c.handles[..c.index]
      invariant ended ==> c.index == |c.handles|
    {
      assert counts[..n + 1][..n] == counts[..n];
      assert Min(Sum(counts[..n]), |c.handles|) + counts[n] < U64_SIZE;
      var chunk := c.NextChunk(counts[n]);
      found := found + chunk.value;
      ended := ended || |chunk.value| < counts[n];
    }
    assert counts[..|counts|] == counts;
  }

  /** A search session: the database it was given, its login state and the search in progress. */
  class SearchSession {
    const db: seq<Object>
    var user: bool
    var ctx: EnumCtx?

    constructor (objects: seq<Object>, loggedIn: bool)
      ensures db == objects && user == loggedIn && ctx == null
    {
      db, user, ctx := objects, loggedIn, null;
    }

    /** Start a search, unless one is in progress. */
    method FindInit(tpl: Option<seq<Want>>) returns (ok: bool)
      modifies this`ctx
      ensures ok <==> old(ctx) == null
      ensures ok ==> ctx != null && fresh(ctx) && ctx.index == 0 && ctx.handles == Handles(db, user, tpl)
      ensures !ok ==> ctx == old(ctx)
    {
      if ctx != null {
        return false;
      }
      var handles := ListHandles(db, user, tpl);
      ctx := new EnumCtx(handles);
      ok := true;
    }

    /** End the search. */
    method FindFinal() returns (ok: bool)
      modifies this`ctx
      ensures ok == (old(ctx) != null) && ctx == null
    {
      ok := ctx != null;
      ctx := null;
    }

    /** A whole search: for every sequence of chunk sizes that does not overflow the index, the chunks
        together are a prefix of the ascending handles of the objects listed at the start, and all of
        them once as many were asked for as there are. */
    method Find(tpl: Option<seq<Want>>, counts: seq<nat>) returns (found: seq<Handle>, ended: bool)
      requires ctx == null && |db| < U64_SIZE && NoOverflow(|Handles(db, user, tpl)|, counts)
      modifies this`ctx
      ensures ctx == null
      ensures found <= Handles(db, user, tpl) && |found| == Min(Sum(counts), |Handles(db, user, tpl)|)
      ensures ended ==> found == Handles(db, user, tpl)
      ensures Ascending(found)
      ensures forall h | h in found :: h < |db| && Listed(db[h], user, tpl)
    {
      var _ := FindInit(tpl);
      HandlesFew(db, user, tpl);
      found, ended := Collect(ctx, counts);
      HandlesExact(db, user, tpl);
      assert forall h | h in found :: h in Handles(db, user, tpl);
      assert forall h | h in found :: Lookup(db, h).Some?;
      var _ := FindFinal();
    }
  }

  lemma {:induction false} HandlesFew(db: seq<Object>, user: bool, tpl: Option<seq<Want>>)
    ensures |Handles(db, user, tpl)| <= |db|
  {
    if db != [] {
      HandlesFew(db[..|db| - 1], user, tpl);
    }
  }
}
