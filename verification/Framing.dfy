/**
 The RPC messages: what is written for a body, and what a receiver makes of any input. `Receive` is
 a function of the bytes alone; the reader of `Transport` is proved to compute it however the stream
 splits them.
 */
module Framing {
  import opened Common
  import opened HeaderText

  const MAX_HDR_LEN: nat := 1024
  const MAX_BODY_LEN: nat := 64 * 1024
  const LF: byte := 10

  datatype Error = BadUrl | IoError | MsgLen | ParseError

  /** Requests go to one URL; responses always say 200 OK. */
  datatype Kind = Request(url: string) | Response

  /* ---------- Receiving ---------- */

  /** The length of the first line, with its line feed if it has one. */
  function LineLen(v: Bytes): (n: nat)
    ensures n <= |v|
    ensures v != [] ==> n > 0
  {
    if v == [] then 0
    else if v[0] == LF then 1
    else 1 + LineLen(v[1..])
  }

  /** What the first line must be. */
  function CheckStart(k: Kind, line: string): Option<Error> {
    var w := Words(line);
    match k
    case Request(url) =>
      if |w| < 3 || w[0] != "POST" || w[2] != "HTTP/1.1" then Some(ParseError)
      else if w[1] != url then Some(BadUrl)
      else None
    case Response =>
      if |w| < 2 || w[0] != "200" || w[1] != "OK" then Some(ParseError) else None
  }

  /** One header line: the content length after it, or an error. */
  function HeaderLine(line: string, len: Option<nat>): Result<Option<nat>, Error> {
    match Fields(line)
    case (name, Some(value)) =>
      if name == "Content-Length" then
        if ParseUsize(value).Some? then Ok(ParseUsize(value)) else Err(ParseError)
      else if name == "Content-Type" && value == "application/json" then Ok(len)
      else Err(ParseError)
    case (_, None) => Err(ParseError)
  }

  function CheckLen(len: Option<nat>): Result<nat, Error> {
    if len.None? then Err(ParseError)
    else if len.value > MAX_BODY_LEN then Err(MsgLen)
    else Ok(len.value)
  }

  /** Header lines up to an empty one (or the end of what may be read): the unread part and the
      content length. */
  function Headers(v: Bytes, len: Option<nat>): (r: Result<(Bytes, nat), Error>)
    ensures r.Ok? ==> |r.value.0| <= |v| && r.value.0 == v[|v| - |r.value.0|..] && r.value.1 <= MAX_BODY_LEN
    decreases |v|
  {
    var n := LineLen(v);
    match Decode(v[..n])
    case None => Err(IoError)
    case Some(text) =>
      var line := Trim(text);
      if line == "" then
        match CheckLen(len)
        case Err(e) => Err(e)
        case Ok(l) => Ok((v[n..], l))
      else
        match HeaderLine(line, len)
        case Err(e) => Err(e)
        case Ok(len') => if v == [] then Err(ParseError) else Headers(v[n..], len')
  }

  /** The part of the input that headers may take. */
  function View(data: Bytes): Bytes {
    if |data| <= MAX_HDR_LEN then data else data[..MAX_HDR_LEN]
  }

  /** What is wrong with the bytes of a first line. */
  function Judge(raw: Bytes, k: Kind): Option<Error> {
    match Decode(raw)
    case None => Some(IoError)
    case Some(line) => CheckStart(k, line)
  }

  /** The judgement of the first line, then that of the headers, of `size` bytes. */
  function AfterStart(bad: Option<Error>, size: nat, h: Result<(Bytes, nat), Error>): (r: Result<(nat, nat), Error>)
    requires h.Ok? ==> |h.value.0| <= size
  {
    if bad.Some? then Err(bad.value)
    else if h.Err? then Err(h.error)
    else Ok((size - |h.value.0|, h.value.1))
  }

  /** How many bytes the head takes, and the declared content length. */
  function Head(data: Bytes, k: Kind): (r: Result<(nat, nat), Error>)
    ensures r.Ok? ==> r.value.0 <= |View(data)| && r.value.1 <= MAX_BODY_LEN
  {
    var v := View(data);
    var n := LineLen(v);
    AfterStart(Judge(v[..n], k), |v|, Headers(v[n..], None))
  }

  /** So many bytes of the input from some position on, if they are there. */
  function BodyOf(pending: Bytes, len: nat): Result<Bytes, Error> {
    if len <= |pending| then Ok(pending[..len]) else Err(IoError)
  }

  function Receive(data: Bytes, k: Kind): Result<Bytes, Error> {
    var head := Head(data, k);
    if head.Err? then Err(head.error) else BodyOf(data[head.value.0..], head.value.1)
  }

  /* ---------- Sending ---------- */

  function StartLine(k: Kind): string {
    match k
    case Request(url) => "POST " + url + " HTTP/1.1"
    case Response => "200 OK"
  }

  function Line(s: string): string {
    s + "\r\n"
  }

  /** A header line. */
  function Field(name: string, value: string): string {
    name + ": " + value
  }

  function TypeLine(): string {
    Field("Content-Type", "application/json")
  }

  function LengthLine(n: nat): string {
    Field("Content-Length", Decimal(n))
  }

  /** ASCII text without line ends. */
  predicate Plain(s: string) {
    forall i | 0 <= i < |s| :: s[i] < 128 as char && s[i] != '\n'
  }

  /** A URL that stays one word of an ASCII request line. */
  predicate GoodKind(k: Kind) {
    k.Request? ==> IsWord(k.url) && IsAscii(k.url)
  }

  lemma PlainJoin(a: string, b: string)
    requires Plain(a) && Plain(b)
    ensures Plain(a + b)
  {
  }

  lemma PlainField(name: string, value: string)
    requires Plain(name) && Plain(value)
    ensures Plain(Field(name, value))
  {
    PlainJoin(name, ": ");
    PlainJoin(name + ": ", value);
  }

  lemma PlainLine(s: string)
    requires Plain(s)
    ensures IsAscii(Line(s))
  {
  }

  lemma PlainNames()
    ensures Plain("Content-Type") && NoColon("Content-Type")
    ensures Plain("Content-Length") && NoColon("Content-Length")
  {
  }

  lemma PlainJson()
    ensures Plain("application/json") && NoColon("application/json")
  {
  }

  lemma PlainDecimal(n: nat)
    ensures Plain(Decimal(n)) && NoColon(Decimal(n))
  {
    assert forall i | 0 <= i < |Decimal(n)| :: IsDigit(Decimal(n)[i]);
  }

  lemma PlainStart(k: Kind)
    requires GoodKind(k)
    ensures Plain(StartLine(k))
  {
    if k.Request? {
      assert IsSpace('\n');
      assert Plain(k.url);
      PlainJoin("POST ", k.url);
      PlainJoin("POST " + k.url, " HTTP/1.1");
    }
  }

  lemma PlainHeaders(n: nat)
    ensures Plain(TypeLine()) && Plain(LengthLine(n))
  {
    PlainNames();
    PlainJson();
    PlainDecimal(n);
    PlainField("Content-Type", "application/json");
    PlainField("Content-Length", Decimal(n));
  }

  /** A line as it goes on the wire. */
  function Wire(s: string): Bytes
    requires Plain(s)
  {
    PlainLine(s);
    Ascii(Line(s))
  }

  /** The lines before the body. */
  function MessageHead(k: Kind, n: nat): Bytes
    requires GoodKind(k)
  {
    PlainStart(k);
    PlainHeaders(n);
    Wire(StartLine(k)) + (Wire(TypeLine()) + (Wire(LengthLine(n)) + Wire("")))
  }

  function Message(k: Kind, body: Bytes): Bytes
    requires GoodKind(k)
  {
    MessageHead(k, |body|) + body
  }

  /* ---------- Round trip ---------- */

  lemma {:induction false} LineLenIs(l: Bytes, rest: Bytes)
    requires l != [] && l[|l| - 1] == LF && forall i | 0 <= i < |l| - 1 :: l[i] != LF
    ensures LineLen(l + rest) == |l|
  {
    var v := l + rest;
    assert v[0] == l[0];
    if |l| > 1 {
      assert v[1..] == l[1..] + rest;
      LineLenIs(l[1..], rest);
    }
  }

  /** Reading a written line gives its text and leaves what follows. */
  lemma ReadWritten(s: string, rest: Bytes)
    requires Plain(s)
    ensures var v := Wire(s) + rest;
            LineLen(v) == |s| + 2 && Decode(v[..LineLen(v)]) == Some(Line(s)) && v[LineLen(v)..] == rest
  {
    PlainLine(s);
    var l := Wire(s);
    assert l[|l| - 1] as int == '\n' as int;
    forall i | 0 <= i < |l| - 1 ensures l[i] != LF {
      assert Line(s)[i] != '\n';
    }
    LineLenIs(l, rest);
    assert (l + rest)[..|l|] == l && (l + rest)[|l|..] == rest;
    DecodeAscii(Line(s));
  }

  lemma WordsOfEnd()
    ensures Words("\r\n") == []
  {
    WordsSkip('\n', "");
    WordsSkip('\r', "\n");
    assert ['\r'] + "\n" == "\r\n" && ['\n'] + "" == "\n";
  }

  /** A word, a blank and more. */
  lemma WordsBlank(w: string, rest: string)
    requires IsWord(w)
    ensures Words(w + ([' '] + rest)) == [w] + Words(rest)
  {
    WordsSkip(' ', rest);
    WordsCons(w, [' '] + rest);
  }

  lemma TwoWords(a: string, b: string)
    requires IsWord(a) && IsWord(b)
    ensures Words(Line(a + ([' '] + b))) == [a, b]
  {
    WordsOfEnd();
    assert IsSpace("\r\n"[0]);
    WordsCons(b, "\r\n");
    WordsBlank(a, b + "\r\n");
    assert Line(a + ([' '] + b)) == a + ([' '] + (b + "\r\n"));
  }

  lemma ThreeWords(a: string, b: string, c: string)
    requires IsWord(a) && IsWord(b) && IsWord(c)
    ensures Words(Line(a + ([' '] + (b + ([' '] + c))))) == [a, b, c]
  {
    TwoWords(b, c);
    var rest := b + ([' '] + c);
    WordsBlank(a, Line(rest));
    assert Line(a + ([' '] + rest)) == a + ([' '] + Line(rest));
  }

  lemma RequestWords(url: string)
    requires IsWord(url)
    ensures Words(Line("POST " + url + " HTTP/1.1")) == ["POST", url, "HTTP/1.1"]
  {
    ThreeWords("POST", url, "HTTP/1.1");
    assert "POST " == "POST" + [' '];
    assert " HTTP/1.1" == [' '] + "HTTP/1.1";
    Blanks("POST", url, "HTTP/1.1");
  }

  lemma Blanks(a: string, b: string, c: string)
    ensures (a + [' ']) + b + ([' '] + c) == a + ([' '] + (b + ([' '] + c)))
  {
  }

  lemma ResponseWords()
    ensures Words(Line("200 OK")) == ["200", "OK"]
  {
    TwoWords("200", "OK");
    assert "200" + ([' '] + "OK") == "200 OK";
  }

  lemma StartLineAccepted(k: Kind)
    requires GoodKind(k)
    ensures CheckStart(k, Line(StartLine(k))).None?
  {
    match k
    case Request(url) => RequestWords(url);
    case Response => ResponseWords();
  }

  lemma FieldTrimmed(name: string, value: string)
    requires name != "" && value != "" && !IsSpace(name[0]) && !IsSpace(value[|value| - 1])
    ensures Field(name, value) != "" && Trim(Line(Field(name, value))) == Field(name, value)
  {
    var f := Field(name, value);
    assert f[0] == name[0] && f[|f| - 1] == value[|value| - 1];
    TrimLine(f);
  }

  /** The header that is read and dropped. */
  lemma TypeHeader(line: string, name: string, value: string, len: Option<nat>)
    requires Fields(line) == (name, Some(value)) && name == "Content-Type" && value == "application/json"
    ensures HeaderLine(line, len) == Ok(len)
  {
    assert |name| == 12 && |"Content-Length"| == 14;
  }

  lemma TypeLineTrimmed()
    ensures TypeLine() != "" && Trim(Line(TypeLine())) == TypeLine()
  {
    FieldTrimmed("Content-Type", "application/json");
  }

  lemma TypeLineFields()
    ensures Fields(TypeLine()) == ("Content-Type", Some("application/json"))
  {
    PlainNames();
    PlainJson();
    FieldsOf("Content-Type", "application/json");
  }

  lemma TypeLineAccepted(len: Option<nat>)
    ensures TypeLine() != "" && Trim(Line(TypeLine())) == TypeLine() && HeaderLine(TypeLine(), len) == Ok(len)
  {
    TypeLineTrimmed();
    TypeLineFields();
    TypeHeader(TypeLine(), "Content-Type", "application/json", len);
  }

  lemma LengthLineAccepted(n: nat, len: Option<nat>)
    requires n < U64_SIZE
    ensures LengthLine(n) != "" && Trim(Line(LengthLine(n))) == LengthLine(n)
    ensures HeaderLine(LengthLine(n), len) == Ok(Some(n))
  {
    PlainNames();
    PlainDecimal(n);
    ParseDecimal(n);
    FieldsOf("Content-Length", Decimal(n));
    assert IsDigit(Decimal(n)[|Decimal(n)| - 1]);
    FieldTrimmed("Content-Length", Decimal(n));
  }

  /** The header section that is written is read back, and what follows it is left; a body length
      over the limit is refused there. */
  lemma HeadersRead(n: nat, rest: Bytes)
    requires n < U64_SIZE && Plain(TypeLine()) && Plain(LengthLine(n))
    ensures Headers(HeaderLines(n, rest), None)
         == if n <= MAX_BODY_LEN then Ok((rest, n)) else Err(MsgLen)
  {
    ReadWritten("", rest);
    TrimEmptyLine();
    var v3 := Wire("") + rest;
    assert Line("") == "\r\n";
    var r := Headers(v3, Some(n));
    assert r == if n <= MAX_BODY_LEN then Ok((rest, n)) else Err(MsgLen);
    ReadWritten(LengthLine(n), v3);
    LengthLineAccepted(n, None);
    var v2 := Wire(LengthLine(n)) + v3;
    assert Headers(v2, None) == r;
    ReadWritten(TypeLine(), v2);
    TypeLineAccepted(None);
  }

  function HeadLen(k: Kind, n: nat): nat {
    |StartLine(k)| + 2 + |TypeLine()| + 2 + |LengthLine(n)| + 2 + 2
  }

  lemma HeadFits(k: Kind, n: nat)
    requires n <= MAX_BODY_LEN && (k.Request? ==> |k.url| <= 900)
    ensures HeadLen(k, n) <= MAX_HDR_LEN
  {
    DecimalShort(n);
  }

  /** A message is its head, then its body. */
  lemma MessageShape(k: Kind, body: Bytes, rest: Bytes)
    requires GoodKind(k)
    ensures var h := HeadLen(k, |body|);
            var data := Message(k, body) + rest;
            && |data| == h + |body| + |rest|
            && data[..h] == MessageHead(k, |body|)
            && data[h..h + |body|] == body
  {
    var head := MessageHead(k, |body|);
    HeadSize(k, |body|);
    assert Message(k, body) + rest == head + (body + rest);
  }

  lemma HeadSize(k: Kind, n: nat)
    requires GoodKind(k)
    ensures |MessageHead(k, n)| == HeadLen(k, n)
  {
    PlainStart(k);
    PlainHeaders(n);
  }

  lemma Nested(a: Bytes, b: Bytes, c: Bytes, d: Bytes, e: Bytes)
    ensures (a + (b + (c + d))) + e == a + (b + (c + (d + e)))
  {
  }

  /** What follows the first line of a head and some bytes after it. */
  function HeaderLines(n: nat, tail: Bytes): Bytes
    requires Plain(TypeLine()) && Plain(LengthLine(n))
  {
    Wire(TypeLine()) + (Wire(LengthLine(n)) + (Wire("") + tail))
  }

  /** The bytes that headers may take start with the head of the message. */
  lemma ViewShape(k: Kind, body: Bytes, rest: Bytes)
    requires GoodKind(k) && Plain(StartLine(k)) && Plain(TypeLine()) && Plain(LengthLine(|body|))
    requires HeadLen(k, |body|) <= MAX_HDR_LEN
    ensures var v := View(Message(k, body) + rest);
            var h := HeadLen(k, |body|);
            && h <= |v|
            && v == Wire(StartLine(k)) + HeaderLines(|body|, v[h..])
  {
    MessageShape(k, body, rest);
    var v := View(Message(k, body) + rest);
    var h := HeadLen(k, |body|);
    assert v[..h] == (Message(k, body) + rest)[..h];
    assert v == v[..h] + v[h..];
    Nested(Wire(StartLine(k)), Wire(TypeLine()), Wire(LengthLine(|body|)), Wire(""), v[h..]);
  }

  /** A line whose reading is known stands at the start of the input. */
  lemma HeadFirstLine(data: Bytes, s: string, rest: Bytes, k: Kind)
    requires Plain(s) && View(data) == Wire(s) + rest
    ensures Head(data, k) == AfterStart(CheckStart(k, Line(s)), |s| + 2 + |rest|, Headers(rest, None))
  {
    ReadWritten(s, rest);
    assert (Wire(s) + rest)[..|s| + 2] == Wire(s);
  }

  /** After a good first line, headers that leave `tail` or are refused. */
  lemma AfterGoodStart(all: nat, size: nat, tail: Bytes, n: nat, h: Result<(Bytes, nat), Error>)
    requires all == size + |tail| && h == if n <= MAX_BODY_LEN then Ok((tail, n)) else Err(MsgLen)
    ensures AfterStart(None, all, h) == if n <= MAX_BODY_LEN then Ok((size, n)) else Err(MsgLen)
  {
  }

  /** A head that is followed by anything is read back. */
  lemma HeadRead(k: Kind, n: nat, data: Bytes, tail: Bytes)
    requires GoodKind(k) && Plain(StartLine(k)) && Plain(TypeLine()) && Plain(LengthLine(n)) && n < U64_SIZE
    requires View(data) == Wire(StartLine(k)) + HeaderLines(n, tail)
    ensures Head(data, k) == if n <= MAX_BODY_LEN then Ok((HeadLen(k, n), n)) else Err(MsgLen)
  {
    var (start, lines) := (StartLine(k), HeaderLines(n, tail));
    HeadFirstLine(data, start, lines, k);
    StartLineAccepted(k);
    HeadersRead(n, tail);
    HeaderLinesSize(n, tail);
    AfterGoodStart(|start| + 2 + |lines|, HeadLen(k, n), tail, n, Headers(lines, None));
  }

  lemma HeaderLinesSize(n: nat, tail: Bytes)
    requires Plain(TypeLine()) && Plain(LengthLine(n))
    ensures |HeaderLines(n, tail)| == |TypeLine()| + 2 + |LengthLine(n)| + 2 + 2 + |tail|
  {
  }

  /** Framing round trip: whatever follows on the stream, receiving what was sent for a body of at
      most 65536 bytes gives that body back, as long as the head fits the header limit. */
  lemma RoundTrip(k: Kind, body: Bytes, rest: Bytes)
    requires GoodKind(k) && |body| <= MAX_BODY_LEN && HeadLen(k, |body|) <= MAX_HDR_LEN
    ensures Head(Message(k, body) + rest, k) == Ok((HeadLen(k, |body|), |body|))
    ensures Receive(Message(k, body) + rest, k) == Ok(body)
  {
    PlainStart(k);
    PlainHeaders(|body|);
    var data := Message(k, body) + rest;
    ViewShape(k, body, rest);
    HeadRead(k, |body|, data, View(data)[HeadLen(k, |body|)..]);
    MessageShape(k, body, rest);
    var h := HeadLen(k, |body|);
    assert data[h..][..|body|] == data[h..h + |body|];
  }

  /** A longer body is sent all the same, and refused by the receiver for its length. */
  lemma OversizeRefused(k: Kind, body: Bytes, rest: Bytes)
    requires GoodKind(k) && MAX_BODY_LEN < |body| < U64_SIZE && HeadLen(k, |body|) <= MAX_HDR_LEN
    ensures Receive(Message(k, body) + rest, k) == Err(MsgLen)
  {
    PlainStart(k);
    PlainHeaders(|body|);
    var data := Message(k, body) + rest;
    ViewShape(k, body, rest);
    HeadRead(k, |body|, data, View(data)[HeadLen(k, |body|)..]);
  }

  /** Header lines that all end in a line feed, up to an empty one. */
  predicate HeadersEnd(v: Bytes)
    decreases |v|
  {
    var n := LineLen(v);
    && n > 0 && v[n - 1] == LF && Decode(v[..n]).Some?
    && (Trim(Decode(v[..n]).value) == "" || HeadersEnd(v[n..]))
  }

  /** The whole head is there: no line of it is cut short by the end of the input. */
  predicate HeadComplete(data: Bytes) {
    var v := View(data);
    var n := LineLen(v);
    n > 0 && v[n - 1] == LF && HeadersEnd(v[n..])
  }

  lemma WireEnds(s: string, rest: Bytes)
    requires Plain(s)
    ensures var v := Wire(s) + rest;
            LineLen(v) == |s| + 2 && v[LineLen(v) - 1] == LF && v[LineLen(v)..] == rest
            && Decode(v[..LineLen(v)]) == Some(Line(s))
  {
    ReadWritten(s, rest);
    var l := Wire(s);
    assert (l + rest)[|s| + 1] == l[|s| + 1];
    assert l[|s| + 1] as int == '\n' as int;
  }

  lemma HeadersComplete(n: nat, rest: Bytes)
    requires Plain(TypeLine()) && Plain(LengthLine(n))
    ensures HeadersEnd(HeaderLines(n, rest))
  {
    TrimEmptyLine();
    assert Line("") == "\r\n";
    WireEnds("", rest);
    var v3 := Wire("") + rest;
    assert HeadersEnd(v3);
    WireEnds(LengthLine(n), v3);
    var v2 := Wire(LengthLine(n)) + v3;
    assert HeadersEnd(v2);
    WireEnds(TypeLine(), v2);
  }

  lemma MessageComplete(k: Kind, body: Bytes, rest: Bytes)
    requires GoodKind(k) && HeadLen(k, |body|) <= MAX_HDR_LEN
    ensures HeadComplete(Message(k, body) + rest)
  {
    PlainStart(k);
    PlainHeaders(|body|);
    var v := View(Message(k, body) + rest);
    ViewShape(k, body, rest);
    var tail := v[HeadLen(k, |body|)..];
    WireEnds(StartLine(k), HeaderLines(|body|, tail));
    HeadersComplete(|body|, tail);
  }
}
