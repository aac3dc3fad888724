/**
 Two messages one right after the other. The reader may pull bytes of the second with the last piece
 of the first, and then they are gone; a message without its first bytes is not received.
 */
module Pipelining {
  import opened Common
  import opened HeaderText
  import opened Framing
  import opened ReadCounts
  import opened Transport

  /* ---------- The words of the end of a line ---------- */

  /** The last words, the first of them possibly without its beginning. */
  ghost predicate IsTail(w: seq<string>, all: seq<string>) {
    && |w| <= |all|
    && (w != [] ==>
          var (k, first) := (|all| - |w|, w[0]);
          && w[1..] == all[k + 1..]
          && first != "" && |first| <= |all[k]| && first == all[k][|all[k]| - |first|..])
  }

  /** Something is missing. */
  predicate Shorter(w: seq<string>, all: seq<string>) {
    |w| < |all| || (|w| == |all| && |w| > 0 && |w[0]| < |all[0]|)
  }

  lemma TailDrop(w: seq<string>, all: seq<string>)
    requires IsTail(w, all) && w != [] && forall i | 0 <= i < |all| :: all[i] != ""
    ensures IsTail(w[1..], all) && Shorter(w[1..], all)
  {
    if |w| > 1 {
      assert w[1] == w[1..][0] && w[1..][1..] == w[2..];
      var k := |all| - |w|;
      assert w[1..][0] == all[k + 1..][0] == all[k + 1];
      assert w[2..] == all[k + 1..][1..] == all[k + 2..];
      assert all[k + 1][0..] == all[k + 1];
    }
  }

  lemma TailTrim(w: seq<string>, all: seq<string>)
    requires IsTail(w, all) && w != [] && |w[0]| > 1
    ensures IsTail([w[0][1..]] + w[1..], all) && Shorter([w[0][1..]] + w[1..], all)
  {
    var w' := [w[0][1..]] + w[1..];
    var a := all[|all| - |w|];
    assert w'[1..] == w[1..];
    assert w[0][1..] == a[|a| - |w[0]| + 1..];
  }

  /** One character less of a first word. */
  lemma WordsTrim(w: string, rest: string)
    requires IsWord(w) && (rest == "" || IsSpace(rest[0]))
    ensures Words((w + rest)[1..]) == if |w| > 1 then [w[1..]] + Words(rest) else Words(rest)
  {
    assert (w + rest)[1..] == w[1..] + rest;
    if |w| > 1 {
      WordsCons(w[1..], rest);
    } else {
      assert w[1..] + rest == rest;
    }
  }

  lemma WordsRest(t: string)
    requires t != ""
    ensures var (w, w') := (Words(t), Words(t[1..]));
            if IsSpace(t[0]) then w' == w
            else w != [] && w' == if |w[0]| > 1 then [w[0][1..]] + w[1..] else w[1..]
  {
    if !IsSpace(t[0]) {
      var n := WordLen(t);
      var w, rest := t[..n], t[n..];
      assert t == w + rest;
      WordsTrim(w, rest);
      assert Words(t) == [w] + Words(rest);
      assert ([w] + Words(rest))[1..] == Words(rest);
    }
  }

  lemma WordsNonEmpty(t: string)
    ensures forall i | 0 <= i < |Words(t)| :: Words(t)[i] != ""
    decreases |t|
  {
    if t != "" {
      if IsSpace(t[0]) {
        WordsNonEmpty(t[1..]);
      } else {
        WordsNonEmpty(t[WordLen(t)..]);
      }
    }
  }

  lemma TailSelf(all: seq<string>)
    requires forall i | 0 <= i < |all| :: all[i] != ""
    ensures IsTail(all, all)
  {
    if all != [] {
      assert all[0][0..] == all[0];
    }
  }

  lemma {:induction false} WordsTail(s: string, y: nat)
    requires y <= |s|
    ensures IsTail(Words(s[y..]), Words(s))
    ensures y > 0 && !IsSpace(s[0]) ==> Shorter(Words(s[y..]), Words(s))
  {
    if y == 0 {
      assert s[0..] == s;
      WordsNonEmpty(s);
      TailSelf(Words(s));
    } else {
      WordsTail(s, y - 1);
      WordsNonEmpty(s);
      var t := s[y - 1..];
      assert t[1..] == s[y..];
      assert t[0] == s[y - 1];
      WordsRest(t);
      var w := Words(t);
      if !IsSpace(t[0]) {
        if |w[0]| > 1 {
          TailTrim(w, Words(s));
        } else {
          TailDrop(w, Words(s));
        }
      }
    }
  }

  /* ---------- No part of a head starts a message ---------- */

  lemma StartRejected(k: Kind, y: nat)
    requires GoodKind(k) && 0 < y <= |StartLine(k)| + 2
    ensures CheckStart(k, Line(StartLine(k))[y..]).Some?
  {
    var s := Line(StartLine(k));
    WordsTail(s, y);
    match k
    case Request(url) =>
      RequestWords(url);
      assert s[0] == 'P';
    case Response =>
      ResponseWords();
      assert s[0] == '2';
  }

  /** The end of two words of which the first ends in a colon starts no message. */
  lemma ColonRejected(k: Kind, t: string, a: string, b: string)
    requires IsTail(Words(t), [a, b]) && a != "" && a[|a| - 1] == ':'
    ensures CheckStart(k, t).Some?
  {
    var w := Words(t);
    if |w| == 2 {
      assert w[0][|w[0]| - 1] == ':';
    }
  }

  lemma FieldRejected(k: Kind, name: string, value: string, y: nat)
    requires IsWord(name + ":") && IsWord(value) && y <= |Field(name, value)| + 2
    ensures CheckStart(k, Line(Field(name, value))[y..]).Some?
  {
    var s := Line(Field(name, value));
    var a := name + ":";
    assert Field(name, value) == a + ([' '] + value);
    TwoWords(a, value);
    WordsTail(s, y);
    ColonRejected(k, s[y..], a, value);
  }

  lemma TypeRejected(k: Kind, y: nat)
    requires y <= |TypeLine()| + 2
    ensures CheckStart(k, Line(TypeLine())[y..]).Some?
  {
    var a, v := "Content-Type" + ":", "application/json";
    assert forall i | 0 <= i < |a| :: !IsSpace(a[i]);
    assert forall i | 0 <= i < |v| :: !IsSpace(v[i]);
    FieldRejected(k, "Content-Type", v, y);
  }

  lemma LengthRejected(k: Kind, n: nat, y: nat)
    requires y <= |LengthLine(n)| + 2
    ensures CheckStart(k, Line(LengthLine(n))[y..]).Some?
  {
    var a := "Content-Length" + ":";
    assert forall i | 0 <= i < |a| :: !IsSpace(a[i]);
    assert forall i | 0 <= i < |Decimal(n)| :: IsDigit(Decimal(n)[i]);
    FieldRejected(k, "Content-Length", Decimal(n), y);
  }

  lemma EmptyRejected(k: Kind, y: nat)
    requires y <= 2
    ensures CheckStart(k, Line("")[y..]).Some?
  {
    assert Line("") == "\r\n";
    WordsOfEnd();
    WordsTail("\r\n", y);
  }

  /** Input that starts with the end of a line no message starts with. */
  lemma LineRejected(s: string, y: nat, rest: Bytes, k: Kind)
    requires Plain(s) && y < |s| + 2 <= MAX_HDR_LEN && CheckStart(k, Line(s)[y..]).Some?
    ensures Head(Wire(s)[y..] + rest, k).Err?
  {
    PlainLine(s);
    var l, data := Wire(s)[y..], Wire(s)[y..] + rest;
    var tail := Line(s)[y..];
    assert IsAscii(tail);
    assert l == Ascii(tail);
    var v := View(data);
    assert v[..|l|] == l;
    assert v == l + v[|l|..];
    forall i | 0 <= i < |l| - 1 ensures l[i] != LF {
      assert Line(s)[y + i] != '\n';
    }
    assert l[|l| - 1] as int == '\n' as int;
    LineLenIs(l, v[|l|..]);
    DecodeAscii(tail);
  }

  lemma CutAt(m: Bytes, before: Bytes, line: Bytes, rest: Bytes, y: nat)
    requires m == before + (line + rest) && y <= |line|
    ensures m[|before| + y..] == line[y..] + rest
  {
    assert m[|before|..] == line + rest;
    assert m[|before|..][y..] == m[|before| + y..];
  }

  /** Cut inside a given line. */
  lemma CutLine(m: Bytes, before: Bytes, s: string, rest: Bytes, y: nat, k: Kind)
    requires Plain(s) && y < |s| + 2 <= MAX_HDR_LEN && CheckStart(k, Line(s)[y..]).Some?
    requires m == before + (Wire(s) + rest)
    ensures |before| + y <= |m| && Head(m[|before| + y..], k).Err?
  {
    CutAt(m, before, Wire(s), rest, y);
    LineRejected(s, y, rest, k);
  }

  ghost predicate Printable(k: Kind, n: nat) {
    && GoodKind(k) && Plain(StartLine(k)) && Plain(TypeLine()) && Plain(LengthLine(n))
    && HeadLen(k, n) <= MAX_HDR_LEN
  }

  lemma Regroup4(a: Bytes, b: Bytes, c: Bytes, d: Bytes, e: Bytes)
    ensures (a + (b + (c + d))) + e == [] + (a + (b + (c + (d + e))))
    ensures (a + (b + (c + d))) + e == a + (b + (c + (d + e)))
    ensures (a + (b + (c + d))) + e == (a + b) + (c + (d + e))
    ensures (a + (b + (c + d))) + e == (a + b + c) + (d + e)
  {
  }

  /** The j-th line of a head. */
  function LineText(k: Kind, n: nat, j: nat): string {
    if j == 0 then StartLine(k) else if j == 1 then TypeLine() else if j == 2 then LengthLine(n) else ""
  }

  /** The line of a message that a position in its head is in, what precedes it and what follows it. */
  lemma LineAt(k: Kind, body: Bytes, x: nat) returns (j: nat, before: Bytes, rest: Bytes, y: nat)
    requires Printable(k, |body|) && 0 < x < HeadLen(k, |body|)
    ensures j < 4 && x == |before| + y && y < |LineText(k, |body|, j)| + 2 <= MAX_HDR_LEN && (j == 0 ==> y > 0)
    ensures Plain(LineText(k, |body|, j)) && Message(k, body) == before + (Wire(LineText(k, |body|, j)) + rest)
  {
    var w0, w1, w2, w3 := Wire(StartLine(k)), Wire(TypeLine()), Wire(LengthLine(|body|)), Wire("");
    Regroup4(w0, w1, w2, w3, body);
    if x < |w0| {
      j, before, rest, y := 0, [], w1 + (w2 + (w3 + body)), x;
    } else if x < |w0| + |w1| {
      j, before, rest, y := 1, w0, w2 + (w3 + body), x - |w0|;
    } else if x < |w0| + |w1| + |w2| {
      j, before, rest, y := 2, w0 + w1, w3 + body, x - |w0| - |w1|;
    } else {
      j, before, rest, y := 3, w0 + w1 + w2, body, x - |w0| - |w1| - |w2|;
    }
  }

  lemma Rejected(k: Kind, n: nat, j: nat, y: nat)
    requires GoodKind(k) && j < 4 && y < |LineText(k, n, j)| + 2 && (j == 0 ==> y > 0)
    ensures CheckStart(k, Line(LineText(k, n, j))[y..]).Some?
  {
    if j == 0 {
      StartRejected(k, y);
    } else if j == 1 {
      TypeRejected(k, y);
    } else if j == 2 {
      LengthRejected(k, n, y);
    } else {
      EmptyRejected(k, y);
    }
  }

  /** Cut inside a line of a message. */
  lemma CutInLine(k: Kind, body: Bytes, before: Bytes, s: string, rest: Bytes, y: nat)
    requires GoodKind(k) && Plain(s) && y < |s| + 2 <= MAX_HDR_LEN && CheckStart(k, Line(s)[y..]).Some?
    requires Message(k, body) == before + (Wire(s) + rest)
    ensures |before| + y <= |Message(k, body)| && Head(Message(k, body)[|before| + y..], k).Err?
  {
    CutLine(Message(k, body), before, s, rest, y, k);
  }

  /** A message without its first bytes, cut inside its head. */
  lemma CutInHead(k: Kind, body: Bytes, x: nat)
    requires GoodKind(k) && HeadLen(k, |body|) <= MAX_HDR_LEN && 0 < x < HeadLen(k, |body|)
    ensures x <= |Message(k, body)| && Head(Message(k, body)[x..], k).Err?
  {
    PlainStart(k);
    PlainHeaders(|body|);
    var j, before, rest, y := LineAt(k, body, x);
    Rejected(k, |body|, j, y);
    CutInLine(k, body, before, LineText(k, |body|, j), rest, y);
  }

  /** Nothing starts with an empty line. */
  lemma HeadTakesBytes(data: Bytes, k: Kind)
    requires Head(data, k).Ok?
    ensures Head(data, k).value.0 > 0
  {
    var v := View(data);
  }

  /** A received body is shorter than the input. */
  lemma BodyShorter(data: Bytes, k: Kind, body: Bytes)
    requires Receive(data, k) == Ok(body)
    ensures |body| < |data|
  {
    HeadTakesBytes(data, k);
  }

  lemma MessageSize(k: Kind, body: Bytes)
    requires GoodKind(k)
    ensures |Message(k, body)| == HeadLen(k, |body|) + |body| && HeadLen(k, |body|) > 0
  {
    HeadSize(k, |body|);
  }

  /** A message that has lost its first bytes is not received. */
  lemma CutMessage(k: Kind, body: Bytes, x: nat)
    requires GoodKind(k) && HeadLen(k, |body|) <= MAX_HDR_LEN && 0 < x <= |Message(k, body)|
    ensures Receive(Message(k, body)[x..], k) != Ok(body)
  {
    MessageSize(k, body);
    var data := Message(k, body)[x..];
    if x < HeadLen(k, |body|) {
      CutInHead(k, body, x);
    } else if Receive(data, k) == Ok(body) {
      BodyShorter(data, k, body);
    }
  }

  /* ---------- Two messages in a row ---------- */

  lemma SecondIff(k: Kind, body: Bytes, x: nat)
    requires GoodKind(k) && |body| <= MAX_BODY_LEN && HeadLen(k, |body|) <= MAX_HDR_LEN
    requires x <= |Message(k, body)|
    ensures Receive(Message(k, body)[x..], k) == Ok(body) <==> x == 0
  {
    if x == 0 {
      assert Message(k, body)[x..] == Message(k, body) + [];
      RoundTrip(k, body, []);
    } else {
      CutMessage(k, body, x);
    }
  }

  lemma FirstFacts(k: Kind, body: Bytes, rest: Bytes)
    requires Sendable(k, body)
    ensures var data := Message(k, body) + rest;
            && Receive(data, k) == Ok(body) && HeadComplete(data)
            && Head(data, k) == Ok((HeadLen(k, |body|), |body|))
            && |Message(k, body)| == HeadLen(k, |body|) + |body|
  {
    RoundTrip(k, body, rest);
    MessageShape(k, body, rest);
    MessageComplete(k, body, rest);
  }

  /** A message that a receiver accepts. */
  predicate Sendable(k: Kind, body: Bytes) {
    GoodKind(k) && |body| <= MAX_BODY_LEN && HeadLen(k, |body|) <= MAX_HDR_LEN
  }

  /** Receiving a message `m` that something follows: what is left of that. */
  method RecvFirst(stream: ByteStream, k: Kind, body: Bytes, ghost m: Bytes, ghost rest: Bytes, ghost x: nat)
    returns (r: Result<Bytes, Error>)
    requires stream.data == m + rest && Receive(stream.data, k) == Ok(body) && HeadComplete(stream.data)
    requires Pulls(stream.sizes, stream.made, stream.data, k) == |m| + x && x <= |rest|
    modifies stream
    ensures r == Ok(body) && stream.data == rest[x..]
  {
    RestLeft(m, rest, x);
    r := Recv(stream, k);
  }

  lemma RestLeft(m: Bytes, rest: Bytes, x: nat)
    requires x <= |rest|
    ensures (m + rest)[|m| + x..] == rest[x..]
  {
  }

  /** Receive, whatever is left. */
  method RecvLast(stream: ByteStream, k: Kind) returns (r: Result<Bytes, Error>)
    modifies stream
    ensures r == Receive(old(stream.data), k)
  {
    r := Recv(stream, k);
  }

  /** How much receiving the first of two messages pulls, as the sizes of the pieces decide. */
  function PulledFirst(sizes: Schedule, i: nat, h: nat, len: nat, rest: nat): (n: nat)
    requires h <= MAX_HDR_LEN
    ensures h + len <= n <= h + len + rest
  {
    PulledFor(sizes, i, h + len + rest, MAX_HDR_LEN, h, len)
  }

  lemma PullsIs(sizes: Schedule, i: nat, data: Bytes, k: Kind, h: nat, len: nat, rest: nat)
    requires Head(data, k) == Ok((h, len)) && h <= MAX_HDR_LEN && |data| == h + len + rest
    ensures Pulls(sizes, i, data, k) == PulledFirst(sizes, i, h, len, rest)
  {
  }

  /** How much of what follows goes with the first message. */
  function Beyond(sizes: Schedule, i: nat, h: nat, len: nat, rest: nat): (x: nat)
    requires h <= MAX_HDR_LEN
    ensures x <= rest
  {
    PulledFirst(sizes, i, h, len, rest) - (h + len)
  }

  lemma FirstPulls(sizes: Schedule, i: nat, k: Kind, body: Bytes, m: Bytes, rest: Bytes)
    requires Sendable(k, body) && m == Message(k, body)
    ensures Receive(m + rest, k) == Ok(body) && HeadComplete(m + rest)
    ensures Pulls(sizes, i, m + rest, k) == |m| + Beyond(sizes, i, HeadLen(k, |body|), |body|, |rest|)
  {
    FirstFacts(k, body, rest);
    PullsIs(sizes, i, m + rest, k, HeadLen(k, |body|), |body|, |rest|);
  }

  /** Receiving a message that was sent: it arrives, and so much of what follows is left. */
  method RecvSent(stream: ByteStream, k: Kind, body: Bytes, ghost rest: Bytes) returns (r: Result<Bytes, Error>)
    requires Sendable(k, body) && stream.data == Message(k, body) + rest
    modifies stream
    ensures r == Ok(body)
    ensures stream.data == rest[Beyond(stream.sizes, old(stream.made), HeadLen(k, |body|), |body|, |rest|)..]
  {
    ghost var x := Beyond(stream.sizes, stream.made, HeadLen(k, |body|), |body|, |rest|);
    ghost var m := Message(k, body);
    FirstPulls(stream.sizes, stream.made, k, body, m, rest);
    r := RecvFirst(stream, k, body, m, rest, x);
  }

  /** Receiving what is left of a message. */
  method RecvCut(stream: ByteStream, k: Kind, body: Bytes, ghost x: nat) returns (r: Result<Bytes, Error>)
    requires Sendable(k, body) && x <= |Message(k, body)| && stream.data == Message(k, body)[x..]
    modifies stream
    ensures r == Ok(body) <==> x == 0
  {
    SecondIff(k, body, x);
    r := RecvLast(stream, k);
  }

  /** Receiving twice from two messages sent without a pause: the first arrives, and the second arrives
      exactly when the pieces are such that the first receive does not pull beyond the first message. */
  method RecvBoth(stream: ByteStream, k1: Kind, body1: Bytes, k2: Kind, body2: Bytes)
    returns (r1: Result<Bytes, Error>, r2: Result<Bytes, Error>)
    requires Sendable(k1, body1) && Sendable(k2, body2)
    requires stream.data == Message(k1, body1) + Message(k2, body2)
    modifies stream
    ensures r1 == Ok(body1)
    ensures r2 == Ok(body2) <==>
              PulledFirst(stream.sizes, old(stream.made), HeadLen(k1, |body1|), |body1|, |Message(k2, body2)|)
              == HeadLen(k1, |body1|) + |body1|
  {
    ghost var h, len, m2 := HeadLen(k1, |body1|), |body1|, Message(k2, body2);
    ghost var x := Beyond(stream.sizes, stream.made, h, len, |m2|);
    r1 := RecvSent(stream, k1, body1, m2);
    r2 := RecvCut(stream, k2, body2, x);
  }

  /** Both messages arrive under every schedule exactly when the first head fills the header limit, or
      leaves one byte of it for a body of one byte. */
  lemma BothAlwaysIff(h: nat, len: nat, rest: nat)
    requires 0 < h <= MAX_HDR_LEN && rest > 0
    ensures (forall sizes: Schedule, i: nat :: PulledFirst(sizes, i, h, len, rest) == h + len)
            <==> h == MAX_HDR_LEN || (h == MAX_HDR_LEN - 1 && len == 1)
  {
    NeverTooMuchIff(h + len + rest, MAX_HDR_LEN, h, len);
    if Exact(MAX_HDR_LEN, h, len) {
      forall sizes: Schedule, i: nat ensures PulledFirst(sizes, i, h, len, rest) == h + len {
        ExactIsSafe(sizes, i, h + len + rest, MAX_HDR_LEN, h, len);
      }
    } else {
      GreedyLoses(h, len, rest);
    }
  }

  lemma GreedyLoses(h: nat, len: nat, rest: nat)
    requires 0 < h <= MAX_HDR_LEN && rest > 0 && !Exact(MAX_HDR_LEN, h, len)
    ensures PulledFirst(Greedy(0, MAX_HDR_LEN, h, len), 0, h, len, rest) == h + len + 1
  {
    GreedyPullsMore(0, h + len + rest, MAX_HDR_LEN, h, len);
  }

  /** For all other lengths there are pieces that lose the second message. */
  method LosesSecond(k1: Kind, body1: Bytes, k2: Kind, body2: Bytes)
    returns (r1: Result<Bytes, Error>, r2: Result<Bytes, Error>)
    requires Sendable(k1, body1) && Sendable(k2, body2)
    requires !(HeadLen(k1, |body1|) == MAX_HDR_LEN || (HeadLen(k1, |body1|) == MAX_HDR_LEN - 1 && |body1| == 1))
    ensures r1 == Ok(body1) && r2 != Ok(body2)
  {
    var h := HeadLen(k1, |body1|);
    MessageSize(k1, body1);
    MessageSize(k2, body2);
    GreedyLoses(h, |body1|, |Message(k2, body2)|);
    var stream := new ByteStream(Message(k1, body1) + Message(k2, body2), Greedy(0, MAX_HDR_LEN, h, |body1|));
    r1, r2 := RecvBoth(stream, k1, body1, k2, body2);
  }

  lemma ApiHead(n: nat)
    requires n <= MAX_BODY_LEN
    ensures 0 < HeadLen(Request(API_URL), n) < 100
  {
    DecimalShort(n);
  }

  /** A run with the API's URL: two short requests arrive together, the first read hands out 1024 bytes
      or all there is, and the second request is lost. */
  method LosesRequest(body1: Bytes, body2: Bytes) returns (r1: Result<Bytes, Error>, r2: Result<Bytes, Error>)
    requires |body1| <= 900 && |body2| <= MAX_BODY_LEN
    ensures r1 == Ok(body1) && r2 != Ok(body2)
  {
    var k := Request(API_URL);
    ApiFits(k, |body1|);
    ApiFits(k, |body2|);
    ApiHead(|body1|);
    ApiHead(|body2|);
    var stream := new ByteStream(Message(k, body1) + Message(k, body2), _ => MAX_HDR_LEN - 1);
    MessageSize(k, body2);
    ghost var h, rest := HeadLen(k, |body1|), |Message(k, body2)|;
    AtOnce(stream.sizes, 0, h + |body1| + rest, MAX_HDR_LEN, h, |body1|);
    r1, r2 := RecvBoth(stream, k, body1, k, body2);
  }
}
