/**
 What a receiver takes and what it refuses, said of the text: first lines, header lines, whole header
 sections and the exact bytes of a message.
 */
module FramingLaws {
  import opened Common
  import opened HeaderText
  import opened Framing

  /* ---------- Words ---------- */

  predicate Gap(g: string) {
    forall i | 0 <= i < |g| :: IsSpace(g[i])
  }

  /** The white space characters, by their Unicode code points. */
  lemma SpacesAre(c: char)
    ensures IsSpace(c) <==> c as int in [9, 10, 11, 12, 13, 32, 133, 160, 5760, 8192, 8193, 8194, 8195, 8196, 8197, 8198, 8199,
                                         8200, 8201, 8202, 8232, 8233, 8239, 8287, 12288]
  {
  }

  /** A line that begins with these words, whatever white space is around them. */
  ghost predicate BeginsWith(line: string, ws: seq<string>)
    decreases |ws|
  {
    ws == [] || exists g: string, rest: string ::
      && Gap(g) && IsWord(ws[0]) && (rest == "" || IsSpace(rest[0]))
      && line == g + (ws[0] + rest) && BeginsWith(rest, ws[1..])
  }

  lemma {:induction false} WordsGap(g: string, t: string)
    requires Gap(g)
    ensures Words(g + t) == Words(t)
    decreases |g|
  {
    if g == "" {
      assert g + t == t;
    } else {
      assert g + t == [g[0]] + (g[1..] + t);
      WordsSkip(g[0], g[1..] + t);
      WordsGap(g[1..], t);
    }
  }

  /** Where the first word begins. */
  function GapLen(s: string): (n: nat)
    ensures n <= |s| && Gap(s[..n]) && (n < |s| ==> !IsSpace(s[n]))
  {
    if s == "" || !IsSpace(s[0]) then 0
    else
      var n := GapLen(s[1..]);
      assert s[..n + 1] == [s[0]] + s[1..][..n];
      1 + n
  }

  lemma {:induction false} BeginsIff(line: string, ws: seq<string>)
    ensures BeginsWith(line, ws) <==> ws <= Words(line)
    decreases |ws|
  {
    if ws != [] {
      if BeginsWith(line, ws) {
        var g, rest :| Gap(g) && IsWord(ws[0]) && (rest == "" || IsSpace(rest[0]))
                       && line == g + (ws[0] + rest) && BeginsWith(rest, ws[1..]);
        WordsGap(g, ws[0] + rest);
        WordsCons(ws[0], rest);
        BeginsIff(rest, ws[1..]);
      }
      if ws <= Words(line) {
        FirstWord(line, ws);
      }
    }
  }

  lemma FirstWord(line: string, ws: seq<string>)
    requires ws != [] && ws <= Words(line)
    ensures BeginsWith(line, ws)
    decreases |ws|, 1
  {
    var n := GapLen(line);
    var g, t := line[..n], line[n..];
    assert line == g + t;
    WordsGap(g, t);
    var w, rest := t[..WordLen(t)], t[WordLen(t)..];
    assert t == w + rest;
    assert t == "" ==> Words(t) == [];
    WordThen(w, rest, ws, Words(t));
    BeginsIff(rest, ws[1..]);
    BeginsAgain(g, ws, rest);
  }

  lemma WordThen(w: string, rest: string, ws: seq<string>, all: seq<string>)
    requires IsWord(w) && (rest == "" || IsSpace(rest[0])) && ws != [] && ws <= all && all == Words(w + rest)
    ensures ws[0] == w && ws[1..] <= Words(rest)
  {
    WordsCons(w, rest);
    assert all[1..] == Words(rest);
  }

  lemma BeginsAgain(g: string, ws: seq<string>, rest: string)
    requires ws != [] && Gap(g) && IsWord(ws[0]) && (rest == "" || IsSpace(rest[0])) && BeginsWith(rest, ws[1..])
    ensures BeginsWith(g + (ws[0] + rest), ws)
  {
  }

  /* ---------- First lines ---------- */

  /** A request is taken exactly when its line begins with POST, the receiver's URL and HTTP/1.1; another URL
      between these two is refused as a bad URL, and everything else as not parsed. */
  lemma RequestStart(url: string, line: string)
    requires IsWord(url)
    ensures CheckStart(Request(url), line) == None <==> BeginsWith(line, ["POST", url, "HTTP/1.1"])
    ensures CheckStart(Request(url), line) == Some(BadUrl) <==>
              exists u: string :: u != url && BeginsWith(line, ["POST", u, "HTTP/1.1"])
    ensures CheckStart(Request(url), line) in {None, Some(BadUrl), Some(ParseError)}
  {
    var w := Words(line);
    BeginsIff(line, ["POST", url, "HTTP/1.1"]);
    if CheckStart(Request(url), line) == Some(BadUrl) {
      BeginsIff(line, ["POST", w[1], "HTTP/1.1"]);
    }
    forall u: string | u != url && BeginsWith(line, ["POST", u, "HTTP/1.1"])
      ensures CheckStart(Request(url), line) == Some(BadUrl)
    {
      BeginsIff(line, ["POST", u, "HTTP/1.1"]);
      assert w[0] == ["POST", u, "HTTP/1.1"][0] && w[1] == ["POST", u, "HTTP/1.1"][1] && w[2] == ["POST", u, "HTTP/1.1"][2];
    }
  }

  /** A response is taken exactly when its line begins with 200 and OK. */
  lemma ResponseStart(line: string)
    ensures CheckStart(Response, line) == if BeginsWith(line, ["200", "OK"]) then None else Some(ParseError)
  {
    BeginsIff(line, ["200", "OK"]);
    if BeginsWith(line, ["200", "OK"]) {
      assert Words(line)[0] == ["200", "OK"][0] && Words(line)[1] == ["200", "OK"][1];
    }
  }

  /** A whole request to another URL is refused as that, whatever follows. */
  lemma OtherUrlRefused(url: string, u: string, body: Bytes, rest: Bytes)
    requires GoodKind(Request(u)) && IsWord(url) && u != url && HeadLen(Request(u), |body|) <= MAX_HDR_LEN
    ensures Receive(Message(Request(u), body) + rest, Request(url)) == Err(BadUrl)
  {
    var k := Request(u);
    PlainStart(k);
    PlainHeaders(|body|);
    var data := Message(k, body) + rest;
    ViewShape(k, body, rest);
    var lines := HeaderLines(|body|, View(data)[HeadLen(k, |body|)..]);
    HeadFirstLine(data, StartLine(k), lines, Request(url));
    RequestWords(u);
  }

  /** A response where a request is due is not parsed, and the other way round. */
  lemma OtherKindRefused(url: string, body: Bytes, rest: Bytes)
    requires GoodKind(Request(url)) && HeadLen(Request(url), |body|) <= MAX_HDR_LEN
    ensures Receive(Message(Response, body) + rest, Request(url)) == Err(ParseError)
    ensures Receive(Message(Request(url), body) + rest, Response) == Err(ParseError)
  {
    PlainHeaders(|body|);
    PlainStart(Response);
    PlainStart(Request(url));
    ViewShape(Response, body, rest);
    ViewShape(Request(url), body, rest);
    var (a, b) := (Message(Response, body) + rest, Message(Request(url), body) + rest);
    HeadFirstLine(a, StartLine(Response), HeaderLines(|body|, View(a)[HeadLen(Response, |body|)..]), Request(url));
    HeadFirstLine(b, StartLine(Request(url)), HeaderLines(|body|, View(b)[HeadLen(Request(url), |body|)..]), Response);
    RequestWords(url);
    ResponseWords();
  }

  /* ---------- Header lines ---------- */

  predicate SepAt(s: string, n: nat) {
    n + 1 < |s| && s[n] == ':' && s[n + 1] == ' '
  }

  /** The first ": " of a line, or its end. */
  predicate FirstSep(s: string, n: nat) {
    (if n == |s| then true else SepAt(s, n)) && forall j | 0 <= j < n :: !SepAt(s, j)
  }

  lemma {:induction false} FindSepIs(s: string)
    ensures FirstSep(s, FindSep(s))
  {
    if |s| >= 2 && !(s[0] == ':' && s[1] == ' ') {
      FindSepIs(s[1..]);
      var n := FindSep(s[1..]);
      forall j | 0 <= j < n + 1 ensures !SepAt(s, j) {
        assert j > 0 ==> !SepAt(s[1..], j - 1);
      }
    }
  }

  /** A header is its name up to the first ": " and its value from there to the next. */
  predicate IsHeader(line: string, name: string, value: string) {
    && |name| < |line| && FirstSep(line, |name|) && line[..|name|] == name
    && var tail := line[|name| + 2..];
       |value| <= |tail| && FirstSep(tail, |value|) && tail[..|value|] == value
  }

  lemma SameSep(s: string, a: nat, b: nat)
    requires a <= |s| && b <= |s| && FirstSep(s, a) && FirstSep(s, b)
    ensures a == b
  {
    assert a < b ==> !SepAt(s, a);
    assert b < a ==> !SepAt(s, b);
  }

  lemma HeaderIs(line: string, name: string, value: string)
    ensures IsHeader(line, name, value) <==> Fields(line) == (name, Some(value))
  {
    var n := FindSep(line);
    FindSepIs(line);
    if n < |line| {
      FindSepIs(line[n + 2..]);
    }
    if IsHeader(line, name, value) {
      SameSep(line, n, |name|);
      SameSep(line[n + 2..], FindSep(line[n + 2..]), |value|);
    }
  }

  ghost predicate GivesLength(line: string) {
    exists value: string :: IsHeader(line, "Content-Length", value)
  }

  /** Only two headers are known: a content length, which counts, and the content type application/json, which
      does not. */
  lemma HeaderTaken(line: string, len: Option<nat>)
    ensures forall value: string | IsHeader(line, "Content-Length", value) ::
              HeaderLine(line, len) == if ParseUsize(value).Some? then Ok(ParseUsize(value)) else Err(ParseError)
    ensures IsHeader(line, "Content-Type", "application/json") ==> HeaderLine(line, len) == Ok(len)
    ensures !IsHeader(line, "Content-Type", "application/json") && !GivesLength(line) ==> HeaderLine(line, len) == Err(ParseError)
  {
    HeaderIs(line, "Content-Type", "application/json");
    assert "Content-Length" != "Content-Type" by {
      assert |"Content-Length"| != |"Content-Type"|;
    }
    if Fields(line).1.Some? {
      HeaderIs(line, "Content-Length", Fields(line).1.value);
    }
    forall value: string | IsHeader(line, "Content-Length", value) ensures Fields(line) == ("Content-Length", Some(value)) {
      HeaderIs(line, "Content-Length", value);
    }
  }

  /** An optional plus sign, then one digit or more, of a value below 2^64. */
  predicate IsNumber(s: string, body: string) {
    && (s == body || s == "+" + body) && body != ""
    && Digits(body).Some? && Digits(body).value < 0x1_0000_0000_0000_0000
  }

  /** Numbers are taken, for what their digits say, and nothing else is. */
  lemma NumberTaken(s: string)
    ensures ParseUsize(s).Some? <==> exists body: string :: IsNumber(s, body)
    ensures forall body: string | IsNumber(s, body) :: ParseUsize(s) == Digits(body)
  {
    if ParseUsize(s).Some? {
      assert IsNumber(s, if |s| > 1 && s[0] == '+' then s[1..] else s);
    }
    forall body: string | IsNumber(s, body) ensures ParseUsize(s) == Digits(body) && ParseUsize(s).Some? {
      NumberParsed(s, body);
    }
  }

  lemma NumberParsed(s: string, body: string)
    requires IsNumber(s, body)
    ensures ParseUsize(s) == Digits(body)
  {
    DigitsAll(body);
    if s == body {
      assert s[0] != '+';
    } else {
      assert s[0] == '+' && s[1..] == body;
    }
  }

  lemma {:induction false} DigitsAll(s: string)
    ensures Digits(s).Some? <==> forall i | 0 <= i < |s| :: '0' <= s[i] <= '9'
  {
    if s != "" {
      DigitsAll(s[..|s| - 1]);
    }
  }

  /** The digits before count ten times as much. */
  lemma DigitsNext(s: string, c: char)
    requires Digits(s).Some? && '0' <= c <= '9'
    ensures Digits(s + [c]) == Some(10 * Digits(s).value + (c as int - 48))
  {
    assert (s + [c])[..|s|] == s;
  }

  /** Trimming takes white space away at both ends and nothing else. */
  lemma {:induction false} TrimEndIs(s: string)
    ensures exists b: string :: Gap(b) && s == TrimEnd(s) + b
    ensures TrimEnd(s) != "" ==> !IsSpace(TrimEnd(s)[|TrimEnd(s)| - 1])
  {
    if s != "" && IsSpace(s[|s| - 1]) {
      var t := s[..|s| - 1];
      TrimEndIs(t);
      var b: string :| Gap(b) && t == TrimEnd(t) + b;
      assert s == TrimEnd(s) + (b + [s[|s| - 1]]);
      assert Gap(b + [s[|s| - 1]]);
    } else {
      assert Gap("") && s == TrimEnd(s) + "";
    }
  }

  lemma {:induction false} TrimStartIs(s: string)
    ensures exists a: string :: Gap(a) && s == a + TrimStart(s)
    ensures TrimStart(s) != "" ==> !IsSpace(TrimStart(s)[0])
  {
    if s != "" && IsSpace(s[0]) {
      TrimStartIs(s[1..]);
      var a: string :| Gap(a) && s[1..] == a + TrimStart(s[1..]);
      assert s == ([s[0]] + a) + TrimStart(s);
      assert Gap([s[0]] + a);
    } else {
      assert Gap("") && s == "" + TrimStart(s);
    }
  }

  lemma TrimIs(s: string)
    ensures exists a: string, b: string :: Gap(a) && Gap(b) && s == a + Trim(s) + b
    ensures Trim(s) != "" ==> !IsSpace(Trim(s)[0]) && !IsSpace(Trim(s)[|Trim(s)| - 1])
  {
    var t := TrimStart(s);
    TrimStartIs(s);
    TrimEndIs(t);
    var a: string :| Gap(a) && s == a + t;
    var b: string :| Gap(b) && t == TrimEnd(t) + b;
    assert s == a + Trim(s) + b;
    assert Trim(s) != "" ==> Trim(s)[0] == t[0];
  }

  /* ---------- Header sections ---------- */

  /** Lines as they go on the wire, then an empty one. */
  function Section(lines: seq<string>, rest: Bytes): Bytes
    requires forall i | 0 <= i < |lines| :: Plain(lines[i])
  {
    if lines == [] then Wire("") + rest else Wire(lines[0]) + Section(lines[1..], rest)
  }

  /** The content length that counts: that of the last line that gives one. */
  function LastLength(lines: seq<string>, len: Option<nat>): Result<Option<nat>, Error> {
    if lines == [] then Ok(len)
    else
      var next := HeaderLine(Trim(Line(lines[0])), len);
      if next.Err? then next else LastLength(lines[1..], next.value)
  }

  /** A section of any lines is read line by line: the first that is not known refuses it, the last content
      length counts, none at all is an error, and more than 65536 is too much. */
  lemma {:induction false} SectionRead(lines: seq<string>, rest: Bytes, len: Option<nat>)
    requires forall i | 0 <= i < |lines| :: Plain(lines[i]) && Trim(Line(lines[i])) != ""
    ensures Headers(Section(lines, rest), len) ==
            match LastLength(lines, len)
            case Err(e) => Err(e)
            case Ok(None) => Err(ParseError)
            case Ok(Some(n)) => if n > 65536 then Err(MsgLen) else Ok((rest, n))
  {
    if lines == [] {
      ReadWritten("", rest);
      TrimEmptyLine();
      assert Line("") == "\r\n";
    } else {
      ReadWritten(lines[0], Section(lines[1..], rest));
      if HeaderLine(Trim(Line(lines[0])), len).Ok? {
        SectionRead(lines[1..], rest, HeaderLine(Trim(Line(lines[0])), len).value);
      }
    }
  }

  /* ---------- The bytes of a message ---------- */

  lemma AsciiJoin(a: string, b: string)
    requires IsAscii(a) && IsAscii(b)
    ensures IsAscii(a + b) && Ascii(a + b) == Ascii(a) + Ascii(b)
  {
  }

  function HeadText(k: Kind, n: nat): string {
    (if k.Request? then "POST " + k.url + " HTTP/1.1\r\n" else "200 OK\r\n")
    + ("Content-Type: application/json\r\n" + ("Content-Length: " + Decimal(n) + "\r\n" + "\r\n"))
  }

  /** What is sent, byte by byte. */
  lemma MessageBytes(k: Kind, body: Bytes)
    requires GoodKind(k)
    ensures IsAscii(HeadText(k, |body|)) && Message(k, body) == Ascii(HeadText(k, |body|)) + body
  {
    var n := |body|;
    PlainStart(k);
    PlainHeaders(n);
    PlainLine(StartLine(k));
    PlainLine(TypeLine());
    PlainLine(LengthLine(n));
    assert Line("") == "\r\n";
    AsciiJoin(Line(LengthLine(n)), Line(""));
    AsciiJoin(Line(TypeLine()), Line(LengthLine(n)) + Line(""));
    AsciiJoin(Line(StartLine(k)), Line(TypeLine()) + (Line(LengthLine(n)) + Line("")));
    TextIs(k, n);
  }

  lemma TextIs(k: Kind, n: nat)
    ensures HeadText(k, n) == Line(StartLine(k)) + (Line(TypeLine()) + (Line(LengthLine(n)) + Line("")))
  {
    assert Line("") == "\r\n";
    assert Line(TypeLine()) == "Content-Type: application/json\r\n" by {
      assert Field("Content-Type", "application/json") == "Content-Type: application/json";
    }
    assert Line(LengthLine(n)) == "Content-Length: " + Decimal(n) + "\r\n" by {
      assert "Content-Length" + ": " == "Content-Length: ";
    }
    match k
    case Request(url) => assert Line(StartLine(k)) == "POST " + url + " HTTP/1.1\r\n" by {
      assert " HTTP/1.1" + "\r\n" == " HTTP/1.1\r\n";
    }
    case Response => assert Line(StartLine(k)) == "200 OK\r\n";
  }

  /** The limits: of what is sent with a head of at most 1024 bytes, bodies of up to 65536 bytes are received
      and longer ones are refused for their length. */
  lemma BodyLimit(k: Kind, body: Bytes, rest: Bytes)
    requires GoodKind(k) && |body| < U64_SIZE && HeadLen(k, |body|) <= 1024
    ensures Receive(Message(k, body) + rest, k) == if |body| <= 65536 then Ok(body) else Err(MsgLen)
  {
    if |body| <= 65536 {
      RoundTrip(k, body, rest);
    } else {
      OversizeRefused(k, body, rest);
    }
  }

  /** What is received: a body comes with a head that declares its length, and its bytes follow the head; a
      body that is cut short is an input error. */
  lemma ReceivedIff(data: Bytes, k: Kind, body: Bytes)
    ensures Receive(data, k) == Ok(body) <==>
              && Head(data, k).Ok? && Head(data, k).value.1 == |body|
              && body <= data[Head(data, k).value.0..]
    ensures Receive(data, k) == Err(IoError) <==>
              || Head(data, k) == Err(IoError)
              || (Head(data, k).Ok? && |data| < Head(data, k).value.0 + Head(data, k).value.1)
  {
    var head := Head(data, k);
    if head.Ok? {
      BodyIs(data[head.value.0..], head.value.1, body);
    }
  }

  lemma BodyIs(pending: Bytes, len: nat, body: Bytes)
    ensures BodyOf(pending, len) == Ok(body) <==> len == |body| && body <= pending
    ensures BodyOf(pending, len) == Err(IoError) <==> |pending| < len
  {
    if len == |body| && body <= pending {
      assert pending[..len] == body;
    }
  }

  lemma CutHead(k: Kind, body: Bytes, n: nat)
    requires GoodKind(k) && |body| <= 65536 && HeadLen(k, |body|) <= 1024
    requires HeadLen(k, |body|) <= n <= HeadLen(k, |body|) + |body|
    ensures n <= |Message(k, body)| && Head(Message(k, body)[..n], k) == Ok((HeadLen(k, |body|), |body|))
  {
    var h := HeadLen(k, |body|);
    PlainStart(k);
    PlainHeaders(|body|);
    MessageShape(k, body, []);
    assert Message(k, body) + [] == Message(k, body);
    var data := Message(k, body)[..n];
    var v := View(data);
    StartsWith(MessageHead(k, |body|), v, data, Message(k, body), n);
    Nested(Wire(StartLine(k)), Wire(TypeLine()), Wire(LengthLine(|body|)), Wire(""), v[h..]);
    HeadRead(k, |body|, data, v[h..]);
  }

  lemma StartsWith(head: Bytes, v: Bytes, data: Bytes, m: Bytes, n: nat)
    requires |head| <= 1024 && |head| <= n <= |m| && m[..|head|] == head && data == m[..n] && v == View(data)
    ensures v == head + v[|head|..]
  {
    assert v[..|head|] == head;
    assert v == v[..|head|] + v[|head|..];
  }

  /** A message cut within its body is an input error. */
  lemma CutBodyRefused(k: Kind, body: Bytes, n: nat)
    requires GoodKind(k) && |body| <= 65536 && HeadLen(k, |body|) <= 1024
    requires HeadLen(k, |body|) <= n < HeadLen(k, |body|) + |body|
    ensures n <= |Message(k, body)| && Receive(Message(k, body)[..n], k) == Err(IoError)
  {
    CutHead(k, body, n);
    ReceivedIff(Message(k, body)[..n], k, body);
  }

  /** Lines that are no text are input errors, in the first line and among the headers. */
  lemma NoTextRefused(data: Bytes, k: Kind, v: Bytes, len: Option<nat>)
    ensures Decode(View(data)[..LineLen(View(data))]).None? ==> Receive(data, k) == Err(IoError)
    ensures Decode(v[..LineLen(v)]).None? ==> Headers(v, len) == Err(IoError)
  {
  }

  /** And a first line that goes on beyond 1024 bytes is refused. */
  lemma LongLineRefused(data: Bytes, k: Kind)
    requires |data| >= 1024 && forall i | 0 <= i < 1024 :: data[i] != 10
    ensures Receive(data, k).Err?
  {
    var v := View(data);
    assert v == data[..1024];
    NoLineEnd(v);
    assert v[|v|..] == [];
    assert Trim("") == "";
    assert Headers([], None) == Err(ParseError);
  }

  lemma {:induction false} NoLineEnd(v: Bytes)
    requires forall i | 0 <= i < |v| :: v[i] != 10
    ensures LineLen(v) == |v|
  {
    if v != [] {
      NoLineEnd(v[1..]);
    }
  }
}
