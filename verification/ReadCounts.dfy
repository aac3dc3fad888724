/**
 How many bytes the buffered reader pulls, as a function of the sizes in which the stream hands its
 bytes out. Only counts matter here, not the bytes.
 */
module ReadCounts {
  import opened Common

  const BUF_CAPACITY: nat := 8192

  /** The i-th read hands out at most `sizes(i) + 1` bytes. */
  type Schedule = nat -> nat

  /** Bytes held by the reader, bytes it may still pull, bytes left on the stream, reads made. */
  datatype Count = Count(have: nat, limit: nat, left: nat, made: nat)

  /** What one read of at most `max` bytes hands out. */
  function Piece(sizes: Schedule, i: nat, max: nat, left: nat): nat {
    Min(Min(max, left), sizes(i) + 1)
  }

  /** One read of the limited stream; at the limit the stream is not touched. */
  function Pulled(sizes: Schedule, c: Count, max: nat): (r: Count)
    ensures r.have + r.left == c.have + c.left && r.have + r.limit == c.have + c.limit
    ensures c.limit > 0 && c.left > 0 && max > 0 ==> r.left < c.left
  {
    if c.limit == 0 then c
    else
      var p := Piece(sizes, c.made, Min(max, c.limit), c.left);
      Count(c.have + p, c.limit - p, c.left - p, c.made + 1)
  }

  /** How much to ask for when `need` bytes are wanted in all: a large rest goes past the buffer. */
  function Ask(c: Count, need: nat, direct: bool): (r: nat)
    ensures r > 0
  {
    if direct && need >= c.have + BUF_CAPACITY then need - c.have else BUF_CAPACITY
  }

  /** The buffer is refilled by 8192 bytes, unless as much or more is wanted at once. */
  lemma AskIs(c: Count, need: nat)
    ensures Ask(c, need, false) == 8192
    ensures Ask(c, need, true) == if need < c.have + 8192 then 8192 else need - c.have
  {
  }

  /** Read on until `need` bytes are held, or no more can be had. */
  function Gather(sizes: Schedule, c: Count, need: nat, direct: bool): (r: Count)
    ensures r.have + r.left == c.have + c.left && r.have + r.limit == c.have + c.limit
    ensures c.have <= r.have
    ensures need <= c.have + c.limit && need <= c.have + c.left ==> need <= r.have
    decreases c.left
  {
    if need <= c.have || c.limit == 0 || c.left == 0 then c
    else Gather(sizes, Pulled(sizes, c, Ask(c, need, direct)), need, direct)
  }

  /** The same with `k` bytes more held. */
  function More(c: Count, k: nat): Count {
    c.(have := c.have + k)
  }

  function Less(c: Count, k: nat): Count
    requires k <= c.have
  {
    c.(have := c.have - k)
  }

  /* ---------- Reading in steps ---------- */

  /** What is held already does not matter to reading lines. */
  lemma {:induction false} GatherShift(sizes: Schedule, c: Count, k: nat, need: nat)
    ensures Gather(sizes, More(c, k), need + k, false) == More(Gather(sizes, c, need, false), k)
    decreases c.left
  {
    if !(need <= c.have || c.limit == 0 || c.left == 0) {
      GatherShift(sizes, Pulled(sizes, c, BUF_CAPACITY), k, need);
      assert Pulled(sizes, More(c, k), BUF_CAPACITY) == More(Pulled(sizes, c, BUF_CAPACITY), k);
    }
  }

  lemma {:induction false} GatherTwice(sizes: Schedule, c: Count, a: nat, b: nat)
    requires a <= b
    ensures Gather(sizes, Gather(sizes, c, a, false), b, false) == Gather(sizes, c, b, false)
    decreases c.left
  {
    if !(a <= c.have || c.limit == 0 || c.left == 0) {
      GatherTwice(sizes, Pulled(sizes, c, BUF_CAPACITY), a, b);
    }
  }

  lemma GatherDone(sizes: Schedule, c: Count, need: nat, direct: bool)
    requires need <= c.have
    ensures Gather(sizes, c, need, direct) == c
  {
  }

  lemma GatherOn(sizes: Schedule, c: Count, d: Count, need: nat, direct: bool)
    requires c.have < need && c.limit > 0 && c.left > 0
    requires Pulled(sizes, c, Ask(c, need, direct)) == d
    ensures Gather(sizes, c, need, direct) == Gather(sizes, d, need, direct)
  {
  }

  lemma PulledMore(sizes: Schedule, c: Count, max: nat, k: nat)
    ensures Pulled(sizes, More(c, k), max) == More(Pulled(sizes, c, max), k)
  {
  }

  /** One read, with `k` bytes consumed before it. */
  lemma GatherStep(sizes: Schedule, c: Count, k: nat, need: nat, direct: bool)
    requires c.have == 0 && k < need && c.limit > 0 && c.left > 0
    ensures var d := Pulled(sizes, c, Ask(c, need - k, direct));
            Gather(sizes, More(c, k), need, direct) == Gather(sizes, More(d, k), need, direct)
  {
    var max := Ask(c, need - k, direct);
    assert Ask(More(c, k), need, direct) == max;
    PulledMore(sizes, c, max, k);
    GatherOn(sizes, More(c, k), More(Pulled(sizes, c, max), k), need, direct);
  }

  /** `c` is what is left of reading `n` bytes of lines from `base` on, those bytes consumed. */
  predicate Follows(sizes: Schedule, base: Count, c: Count, n: nat) {
    More(c, n) == Gather(sizes, base, n, false)
  }

  /** Reading `a` bytes and then `b` is reading `a + b`. */
  lemma FollowsThen(sizes: Schedule, c: Count, c1: Count, c2: Count, a: nat, b: nat)
    requires Follows(sizes, c, c1, a) && Follows(sizes, c1, c2, b)
    ensures Follows(sizes, c, c2, a + b)
  {
    GatherTwice(sizes, c, a, a + b);
    GatherShift(sizes, c1, a, b);
    assert More(More(c2, b), a) == More(c2, a + b);
  }

  /* ---------- One message ---------- */

  /** The counts after the head of a message: first the header limit applies. */
  function AfterHead(sizes: Schedule, i: nat, left: nat, limit: nat, head: nat): (r: Count)
    requires head <= limit && head <= left
  {
    Less(Gather(sizes, Count(0, limit, left, i), head, false), head)
  }

  /** How much is pulled for a message of which `head` and `len` are the lengths: after the head the limit
      is set to the whole body length, whatever is held already. */
  function PulledFor(sizes: Schedule, i: nat, left: nat, limit: nat, head: nat, len: nat): (r: nat)
    requires head <= limit && head + len <= left
    ensures head + len <= r <= left && r <= limit + len
  {
    var c := AfterHead(sizes, i, left, limit, head);
    left - Gather(sizes, c.(limit := len), len, true).left
  }

  /** The counts of the two stages of a receive. */
  lemma PulledInStages(sizes: Schedule, i: nat, left: nat, limit: nat, head: nat, len: nat, c1: Count, c2: Count)
    requires head <= limit && head + len <= left
    requires Follows(sizes, Count(0, limit, left, i), c1, head)
    requires More(c2, len) == Gather(sizes, c1.(limit := len), len, true)
    ensures PulledFor(sizes, i, left, limit, head, len) == left - c2.left
  {
    assert Less(More(c1, head), head) == c1;
  }

  /** Message lengths with which no schedule makes the reader pull beyond the message. */
  predicate Exact(limit: nat, head: nat, len: nat) {
    head == limit || (head + 1 == limit && len == 1)
  }

  lemma ExactIsSafe(sizes: Schedule, i: nat, left: nat, limit: nat, head: nat, len: nat)
    requires 0 < head <= limit && head + len <= left && Exact(limit, head, len)
    ensures PulledFor(sizes, i, left, limit, head, len) == head + len
  {
    var c := AfterHead(sizes, i, left, limit, head);
    if head < limit && c.have == 0 {
      var c' := c.(limit := 1);
      assert Gather(sizes, c', 1, true) == Gather(sizes, Pulled(sizes, c', BUF_CAPACITY), 1, true);
    }
  }

  /** Sizes with which the reader pulls one byte too many: everything up to it at once, or, when the body
      goes beyond the header limit, its first byte with the head and the rest so that a short read is
      left for which the buffer is filled. */
  function Greedy(i: nat, limit: nat, head: nat, len: nat): Schedule {
    if head + len < limit then _ => head + len
    else if len <= BUF_CAPACITY then j => if j == i then head else len
    else j => if j == i then head else if j == i + 1 then len - 3 else 1
  }

  lemma GatherOne(sizes: Schedule, c: Count, need: nat, direct: bool)
    requires need > c.have && c.limit > 0 && c.left > 0
    requires Pulled(sizes, c, Ask(c, need, direct)).have >= need
    ensures Gather(sizes, c, need, direct) == Pulled(sizes, c, Ask(c, need, direct))
  {
  }

  lemma GreedyHead(i: nat, left: nat, limit: nat, head: nat, len: nat)
    requires 0 < head < limit <= BUF_CAPACITY && head + len < left && !Exact(limit, head, len)
    ensures var c := AfterHead(Greedy(i, limit, head, len), i, left, limit, head);
            && c.made == i + 1
            && c.have == (if head + len < limit then len + 1 else 1)
            && c.left == left - head - c.have
  {
    GatherOne(Greedy(i, limit, head, len), Count(0, limit, left, i), head, false);
  }

  /** The limits leave room for exactly these lengths; with all others some sizes pull too much. */
  lemma GreedyPullsMore(i: nat, left: nat, limit: nat, head: nat, len: nat)
    requires 0 < head <= limit <= BUF_CAPACITY && head + len < left && !Exact(limit, head, len)
    ensures PulledFor(Greedy(i, limit, head, len), i, left, limit, head, len) == head + len + 1
  {
    GreedyHead(i, left, limit, head, len);
    var sizes := Greedy(i, limit, head, len);
    var c := AfterHead(sizes, i, left, limit, head).(limit := len);
    if head + len >= limit {
      if len <= BUF_CAPACITY {
        GatherOne(sizes, c, len, true);
      } else {
        var c1 := Pulled(sizes, c, len - 1);
        assert c1 == Count(len - 1, 2, left - head - len + 1, i + 2);
        GatherOne(sizes, c1, len, true);
      }
    }
  }

  /** A first read that hands out all it may takes what follows a short message along. */
  lemma AtOnce(sizes: Schedule, i: nat, left: nat, limit: nat, head: nat, len: nat)
    requires 0 < head && head + len < limit <= BUF_CAPACITY && head + len < left && sizes(i) + 1 >= limit
    ensures PulledFor(sizes, i, left, limit, head, len) == Min(limit, left)
  {
    GatherOne(sizes, Count(0, limit, left, i), head, false);
  }

  /** No schedule makes the reader pull beyond the message exactly for those lengths. */
  lemma NeverTooMuchIff(left: nat, limit: nat, head: nat, len: nat)
    requires 0 < head <= limit <= BUF_CAPACITY && head + len < left
    ensures (forall sizes: Schedule, i: nat :: PulledFor(sizes, i, left, limit, head, len) == head + len)
            <==> Exact(limit, head, len)
  {
    if Exact(limit, head, len) {
      forall sizes: Schedule, i: nat ensures PulledFor(sizes, i, left, limit, head, len) == head + len {
        ExactIsSafe(sizes, i, left, limit, head, len);
      }
    } else {
      GreedyPullsMore(0, left, limit, head, len);
    }
  }
}
