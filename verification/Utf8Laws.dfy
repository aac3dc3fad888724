/**
 Decoding is the inverse of UTF-8 encoding (RFC 3629): it takes exactly the encodings of texts.
 */
module Utf8Laws {
  import opened Common
  import opened HeaderText

  /** The encoding of one scalar value, by its range. */
  function Utf8(c: char): (r: Bytes)
    ensures 1 <= |r| <= 4
  {
    var n := c as int;
    if n < 0x80 then [n as byte]
    else if n < 0x800 then [(0xC0 + n / 0x40) as byte, (0x80 + n % 0x40) as byte]
    else if n < 0x10000 then [(0xE0 + n / 0x1000) as byte, (0x80 + n / 0x40 % 0x40) as byte, (0x80 + n % 0x40) as byte]
    else [(0xF0 + n / 0x40000) as byte, (0x80 + n / 0x1000 % 0x40) as byte, (0x80 + n / 0x40 % 0x40) as byte,
          (0x80 + n % 0x40) as byte]
  }

  function Encode(s: string): Bytes {
    if s == "" then [] else Utf8(s[0]) + Encode(s[1..])
  }

  /** Six bits at a time. */
  lemma Two(x: int, y: int)
    requires 0 <= x && 0 <= y < 0x40
    ensures (x * 0x40 + y) / 0x40 == x && (x * 0x40 + y) % 0x40 == y
  {
  }

  lemma Three(x: int, y: int, z: int)
    requires 0 <= x && 0 <= y < 0x40 && 0 <= z < 0x40
    ensures var n := x * 0x1000 + y * 0x40 + z;
            n / 0x1000 == x && n / 0x40 % 0x40 == y && n % 0x40 == z
  {
    Two(x * 0x40 + y, z);
    Two(x, y);
  }

  lemma Four(w: int, x: int, y: int, z: int)
    requires 0 <= w && 0 <= x < 0x40 && 0 <= y < 0x40 && 0 <= z < 0x40
    ensures var n := w * 0x40000 + x * 0x1000 + y * 0x40 + z;
            n / 0x40000 == w && n / 0x1000 % 0x40 == x && n / 0x40 % 0x40 == y && n % 0x40 == z
  {
    Three(w * 0x40 + x, y, z);
    Two(w, x);
  }

  lemma FirstOf(c: char, rest: Bytes)
    ensures FirstChar(Utf8(c) + rest) == Some((c, |Utf8(c)|))
  {
    var n := c as int;
    assert n < 0xD800 || 0xE000 <= n < 0x11_0000;
    if n < 0x800 {
      FirstShort(c, rest);
    } else if n < 0x10000 {
      FirstThree(c, rest);
    } else {
      FirstFour(c, rest);
    }
  }

  lemma FirstShort(c: char, rest: Bytes)
    requires c as int < 0x800
    ensures FirstChar(Utf8(c) + rest) == Some((c, |Utf8(c)|))
  {
  }

  lemma FirstThree(c: char, rest: Bytes)
    requires 0x800 <= c as int < 0x10000
    ensures FirstChar(Utf8(c) + rest) == Some((c, |Utf8(c)|))
  {
    var n := c as int;
    var bs := Utf8(c) + rest;
    assert bs[0] as int - 0xE0 == n / 0x1000 && bs[1] as int - 0x80 == n / 0x40 % 0x40 && bs[2] as int - 0x80 == n % 0x40;
    assert n == n / 0x1000 * 0x1000 + n / 0x40 % 0x40 * 0x40 + n % 0x40;
  }

  lemma SplitFour(n: int)
    requires n >= 0
    ensures n == n / 0x40000 * 0x40000 + n / 0x1000 % 0x40 * 0x1000 + n / 0x40 % 0x40 * 0x40 + n % 0x40
  {
    var m := n / 0x40;
    var k := m / 0x40;
    assert n == m * 0x40 + n % 0x40 && m == k * 0x40 + m % 0x40 && k == k / 0x40 * 0x40 + k % 0x40;
    assert n / 0x1000 == k && n / 0x40000 == k / 0x40;
  }

  lemma FourBytes(bs: Bytes, n: int, w: int, x: int, y: int, z: int)
    requires |bs| >= 4 && 0 <= w < 5 && 0 <= x < 0x40 && 0 <= y < 0x40 && 0 <= z < 0x40
    requires bs[0] as int == 0xF0 + w && bs[1] as int == 0x80 + x && bs[2] as int == 0x80 + y && bs[3] as int == 0x80 + z
    requires n == w * 0x40000 + x * 0x1000 + y * 0x40 + z && 0x10000 <= n < 0x110000
    ensures FirstChar(bs) == Some((n as char, 4))
  {
  }

  lemma FirstFour(c: char, rest: Bytes)
    requires 0x10000 <= c as int
    ensures FirstChar(Utf8(c) + rest) == Some((c, |Utf8(c)|))
  {
    var n := c as int;
    SplitFour(n);
    FourBytes(Utf8(c) + rest, n, n / 0x40000, n / 0x1000 % 0x40, n / 0x40 % 0x40, n % 0x40);
  }

  lemma FirstIs(bs: Bytes)
    requires bs != [] && FirstChar(bs).Some?
    ensures var (c, n) := FirstChar(bs).value; bs[..n] == Utf8(c)
  {
    var (c, n) := FirstChar(bs).value;
    var b0 := bs[0] as int;
    if n == 2 {
      IsTwo(c, bs, b0 - 0xC0, bs[1] as int - 0x80);
    } else if n == 3 {
      IsThree(c, bs, b0 - 0xE0, bs[1] as int - 0x80, bs[2] as int - 0x80);
    } else if n == 4 {
      IsFour(c, bs, b0 - 0xF0, bs[1] as int - 0x80, bs[2] as int - 0x80, bs[3] as int - 0x80);
    }
  }

  lemma IsTwo(c: char, bs: Bytes, x: int, y: int)
    requires |bs| >= 2 && 2 <= x < 0x20 && 0 <= y < 0x40 && bs[0] as int == 0xC0 + x && bs[1] as int == 0x80 + y
    requires c as int == x * 0x40 + y
    ensures bs[..2] == Utf8(c)
  {
    Two(x, y);
  }

  lemma IsThree(c: char, bs: Bytes, x: int, y: int, z: int)
    requires |bs| >= 3 && 0 <= x < 0x10 && 0 <= y < 0x40 && 0 <= z < 0x40
    requires bs[0] as int == 0xE0 + x && bs[1] as int == 0x80 + y && bs[2] as int == 0x80 + z
    requires c as int == x * 0x1000 + y * 0x40 + z >= 0x800
    ensures bs[..3] == Utf8(c)
  {
    Three(x, y, z);
  }

  lemma IsFour(c: char, bs: Bytes, w: int, x: int, y: int, z: int)
    requires |bs| >= 4 && 0 <= w < 5 && 0 <= x < 0x40 && 0 <= y < 0x40 && 0 <= z < 0x40
    requires bs[0] as int == 0xF0 + w && bs[1] as int == 0x80 + x && bs[2] as int == 0x80 + y && bs[3] as int == 0x80 + z
    requires c as int == w * 0x40000 + x * 0x1000 + y * 0x40 + z >= 0x10000
    ensures bs[..4] == Utf8(c)
  {
    Four(w, x, y, z);
  }

  lemma {:induction false} DecodeEncode(s: string)
    ensures Decode(Encode(s)) == Some(s)
  {
    if s != "" {
      var bs := Encode(s);
      FirstOf(s[0], Encode(s[1..]));
      assert bs[|Utf8(s[0])|..] == Encode(s[1..]);
      DecodeEncode(s[1..]);
      assert [s[0]] + s[1..] == s;
    }
  }

  lemma DecodeFirst(bs: Bytes)
    requires bs != [] && Decode(bs).Some?
    ensures FirstChar(bs).Some?
    ensures var (c, n) := FirstChar(bs).value; Decode(bs[n..]).Some? && Decode(bs).value == [c] + Decode(bs[n..]).value
  {
  }

  lemma EncodeStep(bs: Bytes, n: nat, c: char, t: string)
    requires n <= |bs| && bs[..n] == Utf8(c) && Encode(t) == bs[n..]
    ensures Encode([c] + t) == bs
  {
    assert ([c] + t)[1..] == t;
    assert bs == bs[..n] + bs[n..];
  }

  lemma {:induction false} EncodeDecode(bs: Bytes, s: string)
    requires Decode(bs) == Some(s)
    ensures Encode(s) == bs
  {
    if bs != [] {
      DecodeFirst(bs);
      FirstIs(bs);
      var first := FirstChar(bs).value;
      var t := Decode(bs[first.1..]).value;
      EncodeDecode(bs[first.1..], t);
      EncodeStep(bs, first.1, first.0, t);
    }
  }

  /** Bytes decode to a text exactly when they are its encoding. */
  lemma DecodeIff(bs: Bytes, s: string)
    ensures Decode(bs) == Some(s) <==> bs == Encode(s)
  {
    DecodeEncode(s);
    if Decode(bs) == Some(s) {
      EncodeDecode(bs, s);
    }
  }
}
