/**
 Unsigned big-endian numbers.
 */
module BigEndian {
  import opened Common

  function Pow256(k: nat): (p: nat)
    ensures p > 0
  {
    if k == 0 then 1 else 256 * Pow256(k - 1)
  }

  function Value(bs: Bytes): nat {
    if bs == [] then 0 else 256 * Value(bs[..|bs| - 1]) + bs[|bs| - 1] as nat
  }

  /** The fewest bytes that hold a number. */
  function NumBytes(n: nat): nat {
    if n == 0 then 0 else 1 + NumBytes(n / 256)
  }

  /** The low `k` bytes of a number. */
  function Padded(n: nat, k: nat): (r: Bytes)
    ensures |r| == k
  {
    if k == 0 then [] else Padded(n / 256, k - 1) + [(n % 256) as byte]
  }

  /** The first byte counts most. */
  lemma {:induction false} ValueHead(b: byte, rest: Bytes)
    ensures Value([b] + rest) == b as nat * Pow256(|rest|) + Value(rest)
  {
    var bs := [b] + rest;
    if rest == [] {
      assert bs[..0] == [];
    } else {
      var n := |rest| - 1;
      assert bs[..|bs| - 1] == [b] + rest[..n];
      ValueHead(b, rest[..n]);
    }
  }

  lemma {:induction false} NumBytesBound(n: nat, k: nat)
    ensures NumBytes(n) <= k <==> n < Pow256(k)
  {
    if n > 0 && k > 0 {
      NumBytesBound(n / 256, k - 1);
    }
  }

  lemma {:induction false} ValuePadded(n: nat, k: nat)
    requires n < Pow256(k)
    ensures Value(Padded(n, k)) == n
  {
    if k > 0 {
      ValuePadded(n / 256, k - 1);
      assert Padded(n, k)[..k - 1] == Padded(n / 256, k - 1);
    }
  }

  lemma {:induction false} PaddedValue(bs: Bytes)
    ensures Value(bs) < Pow256(|bs|) && Padded(Value(bs), |bs|) == bs
  {
    if bs != [] {
      PaddedValue(bs[..|bs| - 1]);
      assert bs == bs[..|bs| - 1] + [bs[|bs| - 1]];
    }
  }

  /** A number takes all its bytes exactly when the first one is not zero. */
  lemma {:induction false} FullWidth(bs: Bytes)
    requires bs != []
    ensures NumBytes(Value(bs)) <= |bs|
    ensures NumBytes(Value(bs)) == |bs| <==> bs[0] != 0
  {
    var k := |bs| - 1;
    PaddedValue(bs);
    NumBytesBound(Value(bs), |bs|);
    NumBytesBound(Value(bs), k);
    if k > 0 {
      FullWidth(bs[..k]);
      NumBytesBound(Value(bs[..k]), k - 1);
      assert Value(bs) / 256 == Value(bs[..k]);
    } else {
      assert bs[..0] == [];
    }
  }

  /** The shortest form: no leading zero. */
  lemma ShortestForm(n: nat)
    ensures Value(Padded(n, NumBytes(n))) == n
    ensures n > 0 ==> Padded(n, NumBytes(n))[0] != 0
  {
    NumBytesBound(n, NumBytes(n));
    ValuePadded(n, NumBytes(n));
    if n > 0 {
      FullWidth(Padded(n, NumBytes(n)));
    }
  }

  /** A leading zero does not count. */
  lemma {:induction false} ValueLeadingZero(bs: Bytes)
    ensures Value([0] + bs) == Value(bs)
  {
    var z: Bytes := [0] + bs;
    if bs != [] {
      assert z[..|z| - 1] == [0] + bs[..|bs| - 1];
      ValueLeadingZero(bs[..|bs| - 1]);
    } else {
      assert z[..0] == [];
    }
  }
}
