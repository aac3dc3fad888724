/**
 The text side of the RPC framing: UTF-8 lines, white space, header fields and decimal numbers,
 with the printing they undo.
 */
module HeaderText {
  import opened Common

  /* ---------- UTF-8 ---------- */

  predicate Continues(b: byte) {
    0x80 <= b < 0xC0
  }

  /** The first scalar value of well-formed UTF-8 text with its length, or None. */
  function FirstChar(bs: Bytes): (r: Option<(char, nat)>)
    requires bs != []
    ensures r.Some? ==> 1 <= r.value.1 <= |bs|
  {
    var b0 := bs[0] as int;
    if b0 < 0x80 then Some((b0 as char, 1))
    else if 0xC2 <= b0 < 0xE0 && |bs| >= 2 && Continues(bs[1]) then
      Some((((b0 - 0xC0) * 0x40 + (bs[1] as int - 0x80)) as char, 2))
    else if 0xE0 <= b0 < 0xF0 && |bs| >= 3 && Continues(bs[1]) && Continues(bs[2]) then
      var n := (b0 - 0xE0) * 0x1000 + (bs[1] as int - 0x80) * 0x40 + (bs[2] as int - 0x80);
      if n < 0x800 || 0xD800 <= n < 0xE000 then None else Some((n as char, 3))
    else if 0xF0 <= b0 < 0xF5 && |bs| >= 4 && Continues(bs[1]) && Continues(bs[2]) && Continues(bs[3]) then
      var n := (b0 - 0xF0) * 0x40000 + (bs[1] as int - 0x80) * 0x1000 + (bs[2] as int - 0x80) * 0x40 + (bs[3] as int - 0x80);
      if n < 0x10000 || n >= 0x110000 then None else Some((n as char, 4))
    else None
  }

  function Decode(bs: Bytes): Option<string> {
    if bs == [] then Some("")
    else
      match FirstChar(bs)
      case None => None
      case Some((c, n)) =>
        match Decode(bs[n..])
        case None => None
        case Some(s) => Some([c] + s)
  }

  predicate IsAscii(s: string) {
    forall i | 0 <= i < |s| :: s[i] < 128 as char
  }

  function Ascii(s: string): (r: Bytes)
    requires IsAscii(s)
    ensures |r| == |s| && forall i | 0 <= i < |s| :: r[i] as int == s[i] as int
  {
    seq(|s|, i requires 0 <= i < |s| => (s[i] as int) as byte)
  }

  lemma {:induction false} DecodeAscii(s: string)
    requires IsAscii(s)
    ensures Decode(Ascii(s)) == Some(s)
  {
    if s != "" {
      DecodeAscii(s[1..]);
      assert Ascii(s)[1..] == Ascii(s[1..]);
      assert [s[0]] + s[1..] == s;
    }
  }

  /* ---------- White space ---------- */

  /** The Unicode property White_Space. */
  predicate IsSpace(c: char) {
    var n := c as int;
    || 0x09 <= n <= 0x0D || n == 0x20 || n == 0x85 || n == 0xA0 || n == 0x1680
    || 0x2000 <= n <= 0x200A || n == 0x2028 || n == 0x2029 || n == 0x202F || n == 0x205F || n == 0x3000
  }

  function TrimStart(s: string): string {
    if s != "" && IsSpace(s[0]) then TrimStart(s[1..]) else s
  }

  function TrimEnd(s: string): string {
    if s != "" && IsSpace(s[|s| - 1]) then TrimEnd(s[..|s| - 1]) else s
  }

  function Trim(s: string): string {
    TrimEnd(TrimStart(s))
  }

  function WordLen(s: string): (n: nat)
    ensures n <= |s|
    ensures forall i | 0 <= i < n :: !IsSpace(s[i])
    ensures n < |s| ==> IsSpace(s[n])
  {
    if s == "" || IsSpace(s[0]) then 0 else 1 + WordLen(s[1..])
  }

  /** The maximal runs of characters other than white space. */
  function Words(s: string): seq<string>
    decreases |s|
  {
    if s == "" then []
    else if IsSpace(s[0]) then Words(s[1..])
    else [s[..WordLen(s)]] + Words(s[WordLen(s)..])
  }

  predicate IsWord(w: string) {
    w != "" && forall i | 0 <= i < |w| :: !IsSpace(w[i])
  }

  lemma WordsCons(w: string, rest: string)
    requires IsWord(w) && (rest == "" || IsSpace(rest[0]))
    ensures Words(w + rest) == [w] + Words(rest)
  {
    var s := w + rest;
    var n := WordLen(s);
    assert forall i | 0 <= i < |w| :: s[i] == w[i];
    assert rest != "" ==> s[|w|] == rest[0];
    assert n == |w|;
    assert s[..n] == w && s[n..] == rest;
  }

  lemma WordsSkip(c: char, rest: string)
    requires IsSpace(c)
    ensures Words([c] + rest) == Words(rest)
  {
    assert ([c] + rest)[1..] == rest;
  }

  /** Trimming takes a line's CR LF away and nothing else. */
  lemma TrimLine(s: string)
    requires s != "" && !IsSpace(s[0]) && !IsSpace(s[|s| - 1])
    ensures Trim(s + "\r\n") == s
  {
    var t := s + "\r\n";
    assert t[0] == s[0];
    assert t[..|t| - 1] == s + "\r";
    assert (s + "\r")[..|s|] == s;
    assert TrimEnd(s) == s;
    assert TrimEnd(s + "\r") == s;
  }

  lemma TrimEmptyLine()
    ensures Trim("\r\n") == ""
  {
    assert "\r\n"[1..] == "\n";
    assert "\n"[1..] == "";
    assert TrimStart("\n") == "";
    assert TrimStart("\r\n") == "";
  }

  /* ---------- Header fields ---------- */

  /** Where the first ": " starts, or the length. */
  function FindSep(s: string): (n: nat)
    ensures n <= |s|
    ensures n < |s| ==> n + 2 <= |s|
  {
    if |s| < 2 then |s|
    else if s[0] == ':' && s[1] == ' ' then 0
    else 1 + FindSep(s[1..])
  }

  /** The first two pieces of a line split at ": ". */
  function Fields(s: string): (string, Option<string>) {
    var n := FindSep(s);
    if n == |s| then (s, None)
    else
      var rest := s[n + 2..];
      (s[..n], Some(rest[..FindSep(rest)]))
  }

  predicate NoColon(s: string) {
    forall i | 0 <= i < |s| :: s[i] != ':'
  }

  lemma {:induction false} FindSepNone(s: string)
    requires NoColon(s)
    ensures FindSep(s) == |s|
  {
    if |s| >= 2 {
      FindSepNone(s[1..]);
    }
  }

  lemma {:induction false} FindSepAfter(name: string, value: string)
    requires NoColon(name)
    ensures FindSep(name + ": " + value) == |name|
  {
    var s := name + ": " + value;
    if name == "" {
      assert s[0] == ':' && s[1] == ' ';
    } else {
      assert s[0] == name[0];
      assert s[1..] == name[1..] + ": " + value;
      FindSepAfter(name[1..], value);
    }
  }

  lemma FieldsOf(name: string, value: string)
    requires NoColon(name) && NoColon(value)
    ensures Fields(name + ": " + value) == (name, Some(value))
  {
    var s := name + ": " + value;
    FindSepAfter(name, value);
    FindSepNone(value);
    assert s[..|name|] == name;
    assert s[|name| + 2..] == value;
    assert value[..|value|] == value;
  }

  /* ---------- Decimal numbers ---------- */

  predicate IsDigit(c: char) {
    '0' <= c <= '9'
  }

  function Digits(s: string): Option<nat> {
    if s == "" then Some(0)
    else
      var c := s[|s| - 1];
      match Digits(s[..|s| - 1])
      case None => None
      case Some(n) => if IsDigit(c) then Some(10 * n + (c as int - '0' as int)) else None
  }

  /** Parsing an unsigned machine word: an optional plus sign, then digits that fit. */
  function ParseUsize(s: string): Option<nat> {
    var body := if |s| > 1 && s[0] == '+' then s[1..] else s;
    if body == "" || Digits(body).None? || Digits(body).value >= U64_SIZE then None else Digits(body)
  }

  function Digit(n: nat): char
    requires n < 10
  {
    ('0' as int + n) as char
  }

  function Decimal(n: nat): (s: string)
    ensures s != "" && forall i | 0 <= i < |s| :: IsDigit(s[i])
  {
    if n < 10 then [Digit(n)] else Decimal(n / 10) + [Digit(n % 10)]
  }

  lemma {:induction false} DigitsDecimal(n: nat)
    ensures Digits(Decimal(n)) == Some(n)
  {
    var s := Decimal(n);
    if n < 10 {
      assert s[..|s| - 1] == "";
    } else {
      assert s[..|s| - 1] == Decimal(n / 10);
      DigitsDecimal(n / 10);
    }
  }

  lemma ParseDecimal(n: nat)
    requires n < U64_SIZE
    ensures ParseUsize(Decimal(n)) == Some(n)
  {
    DigitsDecimal(n);
    assert IsDigit(Decimal(n)[0]);
  }

  lemma DecimalShort(n: nat)
    requires n < 100_000
    ensures |Decimal(n)| <= 5
  {
    assert n / 10 < 10_000 && n / 10 / 10 < 1000 && n / 10 / 10 / 10 < 100 && n / 10 / 10 / 10 / 10 < 10;
    assert |Decimal(n / 10 / 10 / 10 / 10)| == 1;
    assert |Decimal(n / 10 / 10 / 10)| <= 2;
    assert |Decimal(n / 10 / 10)| <= 3;
    assert |Decimal(n / 10)| <= 4;
  }
}
