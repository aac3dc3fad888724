/**
 The transport over a byte stream that hands out its bytes in pieces of any size. Receiving is proved
 to compute `Framing.Receive` of the incoming bytes whatever the pieces are.
 */
module Transport {
  import opened Common
  import opened HeaderText
  import opened Framing
  import opened ReadCounts

  const API_URL: string := "/rpc/v1"

  /** A connected stream. Its bytes come in pieces of any sizes, as a schedule says. */
  class ByteStream {
    /** The sizes in which reads hand out bytes. */
    const sizes: Schedule
    /** What the peer has still to deliver before it closes its side. */
    var data: Bytes
    /** What was written to the peer. */
    var out: Bytes
    /** How many bytes were read so far, and in how many reads. */
    var pulled: nat
    var made: nat
    /** Some read found nothing to deliver: on a connection kept open it would have waited. */
    var starved: bool

    constructor (incoming: Bytes, sizes: Schedule)
      ensures this.sizes == sizes && data == incoming && out == [] && pulled == 0 && made == 0 && !starved
    {
      this.sizes := sizes;
      data, out, pulled, made, starved := incoming, [], 0, 0, false;
    }

    /** One read of at most `max` bytes: a non-empty piece of what is left. */
    method Read(max: nat) returns (piece: Bytes)
      requires max > 0
      modifies this
      ensures |piece| == Piece(sizes, old(made), max, |old(data)|) && made == old(made) + 1
      ensures |piece| <= max && out == old(out)
      ensures old(data) == piece + data && pulled == old(pulled) + |piece|
      ensures piece == [] <==> old(data) == []
      ensures starved == (old(starved) || old(data) == [])
    {
      starved := starved || data == [];
      var n := Piece(sizes, made, max, |data|);
      piece := data[..n];
      data := data[n..];
      pulled := pulled + n;
      made := made + 1;
    }

    /** A complete write. */
    method Write(bytes: Bytes)
      modifies this`out
      ensures out == old(out) + bytes
    {
      out := out + bytes;
    }
  }

  function Upto(bs: Bytes, n: nat): (r: Bytes)
    ensures |r| == if n <= |bs| then n else |bs|
    ensures r <= bs
  {
    if n <= |bs| then bs[..n] else bs
  }

  lemma UptoAppend(a: Bytes, b: Bytes, n: nat)
    requires |a| <= n
    ensures Upto(a + b, n) == a + Upto(b, n - |a|)
  {
    if n < |a + b| {
      assert (a + b)[..n] == a + b[..n - |a|];
    }
  }

  lemma SplitAt(a: Bytes, n: nat, b: Bytes)
    requires n <= |a|
    ensures a[..n] + (a[n..] + b) == a + b
    ensures n == |a| ==> a[n..] + b == b
  {
  }

  lemma Regroup(a: Bytes, b: Bytes, c: Bytes)
    ensures (a + b) + c == a + (b + c)
  {
  }

  lemma Prefix(a: Bytes, b: Bytes)
    ensures |a + b| == |a| + |b| && (a + b)[..|a|] == a
  {
  }

  lemma Suffix(a: Bytes, b: Bytes)
    ensures |a + b| == |a| + |b| && (a + b)[|a|..] == b
  {
  }

  predicate EndsLine(l: Bytes) {
    l != [] && l[|l| - 1] == LF
  }

  /** A buffered reader over a stream limited to a number of bytes. */
  class LimitedReader {
    const stream: ByteStream
    /** Bytes pulled from the stream and not yet consumed. */
    var buf: Bytes
    /** How many more bytes may be pulled. */
    var limit: nat

    /** What a consumer can get: the buffer, then the stream up to the limit. */
    ghost function Visible(): Bytes
      reads this, stream
    {
      buf + Upto(stream.data, limit)
    }

    /** Everything not consumed. */
    ghost function Pending(): Bytes
      reads this, stream
    {
      buf + stream.data
    }

    /** The total that will ever be pulled under the present limit. */
    ghost function Budget(): nat
      reads this, stream
    {
      stream.pulled + limit
    }

    /** The bytes the stream had before anything was read. */
    ghost function Supply(): nat
      reads this, stream
    {
      stream.pulled + |stream.data|
    }

    /** The counts that decide what is pulled. */
    ghost function Counts(): Count
      reads this, stream
    {
      Count(|buf|, limit, |stream.data|, stream.made)
    }

    /** Where the lines read so far began, how many bytes they took, and whether each was finished. */
    ghost var base: Count
    ghost var taken: nat
    ghost var clean: bool

    /** After finished lines the counts are those of reading all their bytes. */
    ghost predicate Tracked()
      reads this, stream
    {
      clean ==> Follows(stream.sizes, base, Counts(), taken)
    }

    constructor (s: ByteStream, l: nat)
      ensures stream == s && buf == [] && limit == l
      ensures base == Counts() && taken == 0 && clean && Tracked()
    {
      stream, buf, limit := s, [], l;
      base, taken, clean := Count(0, l, |s.data|, s.made), 0, true;
    }

    /** One read of the limited stream; at the limit the stream is not touched. */
    method Pull(max: nat) returns (piece: Bytes)
      requires max > 0 && buf == []
      modifies this`limit, stream
      ensures stream.out == old(stream.out) && Budget() == old(Budget()) && Supply() == old(Supply()) && limit <= old(limit)
      ensures piece + stream.data == old(stream.data) && piece + Visible() == old(Visible())
      ensures |piece| <= max && (piece == [] <==> old(Visible()) == [])
      ensures More(Counts(), |piece|) == Pulled(stream.sizes, old(Counts()), max)
      ensures stream.starved ==> old(stream.starved) || old(Visible()) == []
    {
      if limit == 0 {
        return [];
      }
      piece := stream.Read(if max < limit then max else limit);
      UptoAppend(piece, stream.data, limit);
      limit := limit - |piece|;
    }

    /** The counts after a refill. */
    ghost function Filled(c: Count): Count {
      if c.have == 0 then Pulled(stream.sizes, c, BUF_CAPACITY) else c
    }

    /** Refill the buffer once it is used up. */
    method Fill()
      modifies this`buf, this`limit, stream
      ensures stream.out == old(stream.out) && Budget() == old(Budget()) && Supply() == old(Supply())
      ensures Visible() == old(Visible()) && Pending() == old(Pending())
      ensures buf == [] <==> Visible() == []
      ensures Counts() == Filled(old(Counts()))
      ensures stream.starved ==> old(stream.starved) || Visible() == []
    {
      if buf == [] {
        buf := Pull(BUF_CAPACITY);
      }
    }

    /** One turn of reading a line: the part of it that the buffer holds. */
    method LinePiece() returns (piece: Bytes, done: bool)
      modifies this`buf, this`limit, stream
      ensures stream.out == old(stream.out) && Budget() == old(Budget()) && Supply() == old(Supply())
      ensures piece + Visible() == old(Visible()) && piece + Pending() == old(Pending())
      ensures done ==> |piece| == LineLen(old(Visible()))
      ensures !done ==> piece != [] && !EndsLine(piece) && LineLen(old(Visible())) == |piece| + LineLen(Visible())
      ensures More(Counts(), |piece|) == Filled(old(Counts())) && (!done ==> buf == [])
      ensures stream.starved ==> old(stream.starved) || (done && piece == [])
    {
      Fill();
      ghost var ahead := Upto(stream.data, limit);
      LineInPieces(buf, ahead);
      var n := LineLen(buf);
      done := n == 0 || buf[n - 1] == LF;
      piece := buf[..n];
      SplitAt(buf, n, ahead);
      SplitAt(buf, n, stream.data);
      buf := buf[n..];
    }

    /** One turn of reading a line, given what was read of it. */
    method ExtendLine(line: Bytes, ghost n: nat) returns (more: Bytes, done: bool)
      requires !EndsLine(line)
      modifies this`buf, this`limit, stream
      ensures stream.out == old(stream.out) && Budget() == old(Budget()) && Supply() == old(Supply())
      ensures more + Visible() == line + old(Visible()) && more + Pending() == line + old(Pending())
      ensures |line| + LineLen(old(Visible())) == |more| + if done then 0 else LineLen(Visible())
      ensures !done ==> !EndsLine(more) && |Visible()| < |old(Visible())|
      ensures old(Visible()) == [] ==> done && more == line
      ensures |line| < n && old(Visible()) != [] ==>
                Gather(stream.sizes, More(Counts(), |more|), n, false) == Gather(stream.sizes, More(old(Counts()), |line|), n, false)
      ensures stream.starved ==> old(stream.starved) || (done && !EndsLine(more))
    {
      ghost var c := Counts();
      if |line| < n && buf == [] && Visible() != [] {
        GatherStep(stream.sizes, c, |line|, n, false);
      }
      var piece;
      piece, done := LinePiece();
      Regroup(line, piece, Visible());
      Regroup(line, piece, Pending());
      more := line + piece;
      assert More(Counts(), |more|) == More(Filled(c), |line|);
    }

    /** Bytes up to and including a line feed, or up to the end. */
    method ReadLine() returns (line: Bytes)
      modifies this`buf, this`limit, stream
      ensures stream.out == old(stream.out) && Budget() == old(Budget()) && Supply() == old(Supply())
      ensures line + Visible() == old(Visible()) && line + Pending() == old(Pending())
      ensures |line| == LineLen(old(Visible()))
      ensures EndsLine(line) ==> Follows(stream.sizes, old(Counts()), Counts(), |line|)
      ensures stream.starved ==> old(stream.starved) || !EndsLine(line)
    {
      line := [];
      var done := false;
      ghost var n := LineLen(Visible());
      while !done
        invariant stream.out == old(stream.out) && Budget() == old(Budget()) && Supply() == old(Supply())
        invariant line + Visible() == old(Visible()) && line + Pending() == old(Pending())
        invariant LineLen(old(Visible())) == |line| + if done then 0 else LineLen(Visible())
        invariant !done ==> !EndsLine(line)
        invariant (done && !EndsLine(line)) ||
          Gather(stream.sizes, More(Counts(), |line|), n, false) == Gather(stream.sizes, old(Counts()), n, false)
        invariant stream.starved ==> old(stream.starved) || (done && !EndsLine(line))
        decreases !done, |Visible()|
      {
        line, done := ExtendLine(line, n);
      }
    }

    /** Read a line and keep track of the counts. */
    method NextLine() returns (line: Bytes)
      requires Tracked()
      modifies this, stream
      ensures stream.out == old(stream.out) && Budget() == old(Budget()) && Supply() == old(Supply())
      ensures line + Visible() == old(Visible()) && line + Pending() == old(Pending())
      ensures |line| == LineLen(old(Visible()))
      ensures stream.starved ==> old(stream.starved) || !EndsLine(line)
      ensures Tracked() && base == old(base) && taken == old(taken) + |line| && clean == (old(clean) && EndsLine(line))
    {
      ghost var c1 := Counts();
      line := ReadLine();
      if clean && EndsLine(line) {
        FollowsThen(stream.sizes, base, c1, Counts(), taken, |line|);
      }
      taken, clean := taken + |line|, clean && EndsLine(line);
    }

    /** The counts after a request for `max` bytes. */
    ghost function Requested(c: Count, max: nat): Count {
      if c.have == 0 then Pulled(stream.sizes, c, if max >= BUF_CAPACITY then max else BUF_CAPACITY) else c
    }

    /** One read by way of the buffer. A large request on an empty buffer goes past it. */
    method Take(max: nat) returns (piece: Bytes)
      requires max > 0
      modifies this`buf, this`limit, stream
      ensures stream.out == old(stream.out) && Budget() == old(Budget()) && Supply() == old(Supply())
      ensures piece + Visible() == old(Visible()) && piece + Pending() == old(Pending())
      ensures |piece| <= max && (piece == [] <==> old(Visible()) == [])
      ensures More(Counts(), |piece|) == Requested(old(Counts()), max)
      ensures stream.starved ==> old(stream.starved) || old(Visible()) == []
    {
      if buf == [] && max >= BUF_CAPACITY {
        piece := Pull(max);
      } else {
        Fill();
        piece := Upto(buf, max);
        SplitAt(buf, |piece|, Upto(stream.data, limit));
        SplitAt(buf, |piece|, stream.data);
        buf := buf[|piece|..];
      }
    }

    /** The counts once `total` bytes are read, of which `at` are consumed already. */
    ghost function Aim(at: nat, total: nat): Count
      reads this, stream
    {
      Gather(stream.sizes, More(Counts(), at), total, true)
    }

    /** One read towards `total` bytes, of which `at` are there. */
    method TakeNext(at: nat, total: nat) returns (piece: Bytes)
      requires at < total
      modifies this`buf, this`limit, stream
      ensures stream.out == old(stream.out) && Budget() == old(Budget()) && Supply() == old(Supply())
      ensures piece + Visible() == old(Visible()) && piece + Pending() == old(Pending())
      ensures |piece| <= total - at && (piece == [] <==> old(Visible()) == [])
      ensures piece != [] ==> Aim(at + |piece|, total) == old(Aim(at, total))
      ensures stream.starved ==> old(stream.starved) || old(Visible()) == []
    {
      ghost var c := Counts();
      if buf == [] && Visible() != [] {
        GatherStep(stream.sizes, c, at, total, true);
      }
      piece := Take(total - at);
      assert More(Counts(), at + |piece|) == More(Requested(c, total - at), at);
    }

    /** Fill the destination, or fail at the end of what can be read. */
    method ReadExact(dst: array<byte>) returns (ok: bool)
      modifies this`buf, this`limit, stream, dst
      ensures stream.out == old(stream.out) && Budget() == old(Budget()) && Supply() == old(Supply())
      ensures ok <==> dst.Length <= |old(Visible())|
      ensures ok ==> dst[..] == old(Visible())[..dst.Length] && dst[..] + Pending() == old(Pending())
      ensures ok ==> More(Counts(), dst.Length) == Gather(stream.sizes, old(Counts()), dst.Length, true)
      ensures stream.starved ==> old(stream.starved) || !ok
    {
      var at := 0;
      ghost var got, visible, pending: Bytes := [], Visible(), Pending();
      ghost var aim := Aim(0, dst.Length);
      while at < dst.Length
        invariant at <= dst.Length && stream.out == old(stream.out) && Budget() == old(Budget()) && Supply() == old(Supply())
        invariant |got| == at && dst[..at] == got && got + Visible() == visible && got + Pending() == pending
        invariant Aim(at, dst.Length) == aim
        invariant stream.starved ==> old(stream.starved)
        decreases dst.Length - at
      {
        var next;
        next, got := TakeInto(dst, at, got, aim);
        if next == at {
          return false;
        }
        at := next;
      }
      GatherDone(stream.sizes, More(Counts(), dst.Length), dst.Length, true);
      Prefix(got, Visible());
      assert dst[..] == dst[..at];
      ok := true;
    }

    /** One read, after `got`. */
    method TakeAfter(ghost got: Bytes, at: nat, total: nat) returns (piece: Bytes, ghost now: Bytes)
      requires at < total && |got| == at
      modifies this`buf, this`limit, stream
      ensures stream.out == old(stream.out) && Budget() == old(Budget()) && Supply() == old(Supply())
      ensures |piece| <= total - at && (|piece| == 0 <==> old(Visible()) == []) && (|piece| == 0 ==> Visible() == [])
      ensures now == got + piece && |now| == at + |piece|
      ensures now + Visible() == got + old(Visible()) && now + Pending() == got + old(Pending())
      ensures |piece| > 0 ==> Aim(at + |piece|, total) == old(Aim(at, total))
      ensures stream.starved ==> old(stream.starved) || |piece| == 0
    {
      piece := TakeNext(at, total);
      now := got + piece;
      Regroup(got, piece, Visible());
      Regroup(got, piece, Pending());
    }

    /** Add one read to what the destination holds. */
    method TakeInto(dst: array<byte>, at: nat, ghost got: Bytes, ghost aim: Count) returns (next: nat, ghost now: Bytes)
      requires at < dst.Length && dst[..at] == got && Aim(at, dst.Length) == aim
      modifies this`buf, this`limit, stream, dst
      ensures stream.out == old(stream.out) && Budget() == old(Budget()) && Supply() == old(Supply())
      ensures at <= next <= dst.Length && |now| == next && dst[..next] == now
      ensures now + Visible() == got + old(Visible()) && now + Pending() == got + old(Pending())
      ensures if next == at then Visible() == [] else Aim(next, dst.Length) == aim
      ensures stream.starved ==> old(stream.starved) || next == at
    {
      var piece;
      piece, now := TakeAfter(got, at, dst.Length);
      next := at + |piece|;
      Put(dst, at, piece, got);
    }
  }

  method Put(dst: array<byte>, at: nat, piece: Bytes, ghost got: Bytes)
    requires at + |piece| <= dst.Length && dst[..at] == got
    modifies dst
    ensures dst[..at + |piece|] == got + piece
  {
    forall i | 0 <= i < |piece| {
      dst[at + i] := piece[i];
    }
    assert dst[..at + |piece|] == dst[..at] + dst[at..at + |piece|];
  }

  /** A line feed in the first piece ends the line there; without one the line goes on. */
  lemma {:induction false} LineInPieces(a: Bytes, b: Bytes)
    ensures LineLen(a) > 0 && a[LineLen(a) - 1] == LF ==> LineLen(a + b) == LineLen(a)
    ensures LineLen(a) == 0 || a[LineLen(a) - 1] != LF ==> LineLen(a) == |a| && LineLen(a + b) == |a| + LineLen(b)
  {
    if a == [] {
      assert a + b == b;
    } else if a[0] != LF {
      assert (a + b)[1..] == a[1..] + b;
      LineInPieces(a[1..], b);
    }
  }

  /** What one line means for the header section. */
  lemma HeadersUnfold(raw: Bytes, rest: Bytes, len: Option<nat>)
    requires |raw| == LineLen(raw + rest)
    ensures var text := Decode(raw);
            var all := Headers(raw + rest, len);
            if text.None? then all == Err(IoError)
            else if Trim(text.value) == "" then
              all == if CheckLen(len).Ok? then Ok((rest, CheckLen(len).value)) else Err(CheckLen(len).error)
            else
              var next := HeaderLine(Trim(text.value), len);
              if next.Err? then all == Err(next.error) else raw != [] && all == Headers(rest, next.value)
    ensures HeadersEnd(raw + rest) ==>
              EndsLine(raw) && Decode(raw).Some? && (Trim(Decode(raw).value) == "" || HeadersEnd(rest))
  {
    var v := raw + rest;
    assert v[..|raw|] == raw && v[|raw|..] == rest;
    assert raw == [] ==> Decode(raw) == Some("") && Trim("") == "";
  }

  /** One turn of the header loop: the content length so far, or the end of the headers. */
  datatype Turn = Next(len: Option<nat>) | Last(r: Result<nat, Error>)

  /** What a line makes of the headers. */
  function TurnOf(text: Option<string>, len: Option<nat>): Turn {
    if text.None? then Last(Err(IoError))
    else if Trim(text.value) == "" then Last(CheckLen(len))
    else
      var next := HeaderLine(Trim(text.value), len);
      if next.Err? then Last(Err(next.error)) else Next(next.value)
  }

  method ReadHeader(reader: LimitedReader, len: Option<nat>) returns (turn: Turn, ghost raw: Bytes)
    requires reader.Tracked()
    modifies reader, reader.stream
    ensures reader.stream.out == old(reader.stream.out) && reader.Budget() == old(reader.Budget()) && reader.Supply() == old(reader.Supply())
    ensures raw + reader.Visible() == old(reader.Visible()) && raw + reader.Pending() == old(reader.Pending())
    ensures |raw| == LineLen(old(reader.Visible())) && turn == TurnOf(Decode(raw), len)
    ensures reader.stream.starved ==> old(reader.stream.starved) || !EndsLine(raw)
    ensures reader.Tracked() && reader.base == old(reader.base)
    ensures reader.taken == old(reader.taken) + |raw| && reader.clean == (old(reader.clean) && EndsLine(raw))
  {
    var line := reader.NextLine();
    raw := line;
    var text := Decode(line);
    if text.None? {
      return Last(Err(IoError)), raw;
    }
    var trimmed := Trim(text.value);
    if trimmed == "" {
      return Last(CheckLen(len)), raw;
    }
    var next := HeaderLine(trimmed, len);
    turn := if next.Err? then Last(Err(next.error)) else Next(next.value);
  }

  /** A turn, as the header function sees it. */
  lemma TurnMeans(raw: Bytes, rest: Bytes, len: Option<nat>)
    requires |raw| == LineLen(raw + rest)
    ensures var turn := TurnOf(Decode(raw), len);
            if turn.Next? then raw != [] && Headers(raw + rest, len) == Headers(rest, turn.len)
            else if turn.r.Err? then Headers(raw + rest, len) == Err(turn.r.error)
            else Headers(raw + rest, len) == Ok((rest, turn.r.value))
    ensures HeadersEnd(raw + rest) ==> EndsLine(raw) && (TurnOf(Decode(raw), len).Next? ==> HeadersEnd(rest))
  {
    HeadersUnfold(raw, rest, len);
  }

  /** One turn of the header loop, after `head`. */
  method HeaderTurn(reader: LimitedReader, len: Option<nat>, ghost head: Bytes) returns (turn: Turn, ghost now: Bytes)
    requires reader.Tracked()
    modifies reader, reader.stream
    ensures reader.stream.out == old(reader.stream.out) && reader.Budget() == old(reader.Budget()) && reader.Supply() == old(reader.Supply())
    ensures now + reader.Visible() == head + old(reader.Visible()) && now + reader.Pending() == head + old(reader.Pending())
    ensures var all := Headers(old(reader.Visible()), len);
            if turn.Next? then |now| > |head| && all == Headers(reader.Visible(), turn.len)
            else if turn.r.Err? then all == Err(turn.r.error)
            else all == Ok((reader.Visible(), turn.r.value))
    ensures reader.Tracked() && reader.base == old(reader.base) && reader.taken + |head| == old(reader.taken) + |now|
    ensures HeadersEnd(old(reader.Visible())) ==>
              && (reader.stream.starved ==> old(reader.stream.starved))
              && reader.clean == old(reader.clean) && (turn.Next? ==> HeadersEnd(reader.Visible()))
  {
    ghost var raw;
    turn, raw := ReadHeader(reader, len);
    TurnMeans(raw, reader.Visible(), len);
    Regroup(head, raw, reader.Visible());
    Regroup(head, raw, reader.Pending());
    now := head + raw;
  }

  /** The header loop. */
  method ReadHeaders(reader: LimitedReader) returns (r: Result<nat, Error>, ghost head: Bytes)
    requires reader.Tracked()
    modifies reader, reader.stream
    ensures reader.stream.out == old(reader.stream.out) && reader.Budget() == old(reader.Budget()) && reader.Supply() == old(reader.Supply())
    ensures Headers(old(reader.Visible()), None) == if r.Err? then Err(r.error) else Ok((reader.Visible(), r.value))
    ensures head + reader.Visible() == old(reader.Visible()) && head + reader.Pending() == old(reader.Pending())
    ensures reader.Tracked() && reader.base == old(reader.base) && reader.taken == old(reader.taken) + |head|
    ensures HeadersEnd(old(reader.Visible())) ==>
              (reader.stream.starved ==> old(reader.stream.starved)) && reader.clean == old(reader.clean)
  {
    var len: Option<nat> := None;
    head := [];
    ghost var all, ends := Headers(reader.Visible(), None), HeadersEnd(reader.Visible());
    while true
      invariant reader.stream.out == old(reader.stream.out) && reader.Budget() == old(reader.Budget()) && reader.Supply() == old(reader.Supply())
      invariant head + reader.Visible() == old(reader.Visible()) && head + reader.Pending() == old(reader.Pending())
      invariant Headers(reader.Visible(), len) == all && (ends ==> HeadersEnd(reader.Visible()))
      invariant ends && reader.stream.starved ==> old(reader.stream.starved)
      invariant reader.Tracked() && reader.base == old(reader.base) && reader.taken == old(reader.taken) + |head|
      invariant ends ==> reader.clean == old(reader.clean)
      decreases |reader.Visible()|
    {
      var turn;
      turn, head := HeaderTurn(reader, len, head);
      match turn {
        case Last(result) => return result, head;
        case Next(next) => len := next;
      }
    }
  }

  /** The first line of the input and the lines after it. */
  lemma HeadUnfold(data: Bytes, raw: Bytes, rest: Bytes, k: Kind)
    requires View(data) == raw + rest && |raw| == LineLen(raw + rest)
    ensures Head(data, k) == AfterStart(Judge(raw, k), |raw| + |rest|, Headers(rest, None))
    ensures HeadComplete(data) ==> EndsLine(raw) && HeadersEnd(rest)
  {
    var v := View(data);
    assert v[..|raw|] == raw && v[|raw|..] == rest;
  }

  /** The first line and its judgement. */
  method ReadStart(reader: LimitedReader, k: Kind) returns (bad: Option<Error>, ghost raw: Bytes)
    requires reader.buf == [] && reader.limit == MAX_HDR_LEN && reader.Tracked() && reader.clean
    modifies reader, reader.stream
    ensures reader.stream.out == old(reader.stream.out) && reader.Budget() == old(reader.Budget()) && reader.Supply() == old(reader.Supply())
    ensures raw + reader.Pending() == old(reader.stream.data) && raw + reader.Visible() == View(old(reader.stream.data))
    ensures |raw| == LineLen(View(old(reader.stream.data))) && bad == Judge(raw, k)
    ensures reader.Tracked() && reader.base == old(reader.base) && reader.taken == old(reader.taken) + |raw|
    ensures EndsLine(raw) ==> (reader.stream.starved ==> old(reader.stream.starved)) && reader.clean
  {
    assert reader.Visible() == View(reader.stream.data);
    var line := reader.NextLine();
    raw := line;
    var text := Decode(line);
    bad := if text.None? then Some(IoError) else CheckStart(k, text.value);
  }

  /** The first line and the headers. */
  method ReadHead(reader: LimitedReader, k: Kind) returns (r: Result<nat, Error>)
    requires reader.buf == [] && reader.limit == MAX_HDR_LEN
    requires reader.Tracked() && reader.taken == 0 && reader.clean
    modifies reader, reader.stream
    ensures reader.stream.out == old(reader.stream.out) && reader.Budget() == old(reader.Budget()) && reader.Supply() == old(reader.Supply())
    ensures var h := Head(old(reader.stream.data), k);
            if h.Err? then r == Err(h.error)
            else r == Ok(h.value.1) && reader.Pending() == old(reader.stream.data)[h.value.0..]
    ensures HeadComplete(old(reader.stream.data)) && reader.stream.starved ==> old(reader.stream.starved)
    ensures reader.Tracked() && reader.base == old(reader.base)
    ensures HeadComplete(old(reader.stream.data)) && r.Ok? ==>
              reader.clean && reader.taken == Head(old(reader.stream.data), k).value.0
  {
    ghost var data, complete := reader.stream.data, HeadComplete(reader.stream.data);
    var bad, raw := ReadStart(reader, k);
    ghost var rest := reader.Visible();
    HeadUnfold(data, raw, rest, k);
    if bad.Some? {
      return Err(bad.value);
    }
    ghost var head;
    r, head := ReadHeaders(reader);
    Regroup(raw, head, reader.Pending());
    Suffix(raw + head, reader.Pending());
  }

  /** The body: the reader may now pull as much as the headers declared, whatever it has buffered. */
  method ReadBody(reader: LimitedReader, len: nat) returns (r: Result<Bytes, Error>)
    modifies reader, reader.stream
    ensures r == BodyOf(old(reader.Pending()), len)
    ensures r.Ok? ==> r.value + reader.Pending() == old(reader.Pending())
    ensures reader.stream.out == old(reader.stream.out) && reader.Budget() == old(reader.stream.pulled) + len
    ensures reader.Supply() == old(reader.Supply())
    ensures r.Ok? ==>
              More(reader.Counts(), len) == Gather(reader.stream.sizes, old(reader.Counts()).(limit := len), len, true)
    ensures r.Ok? && reader.stream.starved ==> old(reader.stream.starved)
  {
    reader.limit := len;
    ghost var visible, pending := reader.Visible(), reader.Pending();
    assert len <= |pending| ==> len <= |visible| && visible[..len] == pending[..len];
    var body := new byte[len];
    var ok := reader.ReadExact(body);
    return if ok then Ok(body[..]) else Err(IoError);
  }

  /** The end of the message, as the headers tell it. */
  function MessageEnd(data: Bytes, k: Kind): nat {
    var h := Head(data, k);
    if h.Ok? then h.value.0 + h.value.1 else 0
  }

  /** How much receiving a message that is wholly there pulls, as the sizes of the pieces decide. */
  function Pulls(sizes: Schedule, i: nat, data: Bytes, k: Kind): nat {
    var h := Head(data, k);
    if h.Ok? && h.value.0 + h.value.1 <= |data|
    then PulledFor(sizes, i, |data|, MAX_HDR_LEN, h.value.0, h.value.1) else 0
  }

  /** Receive one message. Whatever the stream's pieces are, the result is what `Receive` makes of the
      incoming bytes; at most the header limit plus the declared length is pulled; and no read waits
      for bytes beyond a message that is wholly there. What is left is what was not pulled: bytes after
      the message that came with its last piece are gone. */
  method Recv(stream: ByteStream, k: Kind) returns (r: Result<Bytes, Error>)
    modifies stream
    ensures r == Receive(old(stream.data), k)
    ensures stream.out == old(stream.out)
    ensures var h := Head(old(stream.data), k);
            stream.pulled <= old(stream.pulled) + MAX_HDR_LEN + if h.Ok? then h.value.1 else 0
    ensures HeadComplete(old(stream.data)) && r.Ok? && stream.starved ==> old(stream.starved)
    ensures r.Ok? ==> MessageEnd(old(stream.data), k) <= stream.pulled - old(stream.pulled) <= |old(stream.data)|
                      && stream.data == old(stream.data)[stream.pulled - old(stream.pulled)..]
    ensures r.Ok? && HeadComplete(old(stream.data)) ==>
              stream.pulled - old(stream.pulled) == Pulls(stream.sizes, old(stream.made), old(stream.data), k)
  {
    var reader := new LimitedReader(stream, MAX_HDR_LEN);
    ghost var data, made := stream.data, stream.made;
    var head := ReadHead(reader, k);
    if head.Err? {
      return Err(head.error);
    }
    ghost var start := Head(data, k).value.0;
    r := RecvBody(reader, head.value, data, start, made, HeadComplete(data));
    assert HeadComplete(data) && r.Ok? ==>
      Pulls(stream.sizes, made, data, k) == PulledFor(stream.sizes, made, |data|, MAX_HDR_LEN, start, head.value);
  }

  /** The second half of a receive, given what the first half consumed. */
  method RecvBody(reader: LimitedReader, len: nat, ghost data: Bytes, ghost start: nat, ghost made: nat, ghost complete: bool)
    returns (r: Result<Bytes, Error>)
    requires start <= |data| && start <= MAX_HDR_LEN && reader.Pending() == data[start..]
    requires complete ==> Follows(reader.stream.sizes, Count(0, MAX_HDR_LEN, |data|, made), reader.Counts(), start)
    modifies reader, reader.stream
    ensures r == BodyOf(data[start..], len)
    ensures reader.stream.out == old(reader.stream.out) && reader.Supply() == old(reader.Supply())
    ensures reader.stream.pulled <= old(reader.stream.pulled) + len
    ensures r.Ok? && reader.stream.starved ==> old(reader.stream.starved)
    ensures r.Ok? ==> start + len + |reader.stream.data| <= |data| && reader.stream.data == data[|data| - |reader.stream.data|..]
    ensures r.Ok? && complete ==>
              PulledFor(reader.stream.sizes, made, |data|, MAX_HDR_LEN, start, len) == |data| - |reader.stream.data|
  {
    ghost var c1 := reader.Counts();
    r := ReadBody(reader, len);
    if r.Ok? {
      SuffixLeft(data, start, r.value, reader.buf, reader.stream.data);
      if complete {
        PulledInStages(reader.stream.sizes, made, |data|, MAX_HDR_LEN, start, len, c1, reader.Counts());
      }
    }
  }

  lemma SuffixLeft(all: Bytes, start: nat, body: Bytes, buf: Bytes, left: Bytes)
    requires start <= |all| && all[start..] == body + (buf + left)
    ensures start + |body| + |buf| + |left| == |all|
    ensures left == all[|all| - |left|..]
  {
    var tail := all[start..];
    assert tail[|body| + |buf|..] == left;
    assert tail[|body| + |buf|..] == all[start + |body| + |buf|..];
  }

  /** Send one message, in two complete writes. */
  method Send(stream: ByteStream, k: Kind, body: Bytes)
    requires GoodKind(k)
    modifies stream`out
    ensures stream.out == old(stream.out) + Message(k, body)
  {
    stream.Write(MessageHead(k, |body|));
    stream.Write(body);
  }

  /** What one side wrote becomes what the other has to read. */
  method Carry(from: ByteStream, to: ByteStream)
    requires from != to
    modifies from`out, to`data
    ensures from.out == [] && to.data == old(to.data) + old(from.out)
  {
    to.data := to.data + from.out;
    from.out := [];
  }

  method Post(from: ByteStream, to: ByteStream, k: Kind, body: Bytes)
    requires GoodKind(k) && from != to && from.out == [] && to.data == []
    modifies from`out, to`data
    ensures from.out == [] && to.data == Message(k, body)
  {
    Send(from, k, body);
    assert from.out == Message(k, body);
    Carry(from, to);
  }

  /** The messages of the RPC API. */
  predicate ApiKind(k: Kind) {
    k.Request? ==> k.url == API_URL
  }

  lemma ApiFits(k: Kind, n: nat)
    requires ApiKind(k) && n <= MAX_BODY_LEN
    ensures GoodKind(k) && HeadLen(k, n) <= MAX_HDR_LEN
  {
    HeadFits(k, n);
  }

  lemma MessageFacts(k: Kind, body: Bytes)
    requires GoodKind(k) && |body| <= MAX_BODY_LEN && HeadLen(k, |body|) <= MAX_HDR_LEN
    ensures var data := Message(k, body);
            && Receive(data, k) == Ok(body) && HeadComplete(data)
            && MessageEnd(data, k) == |data| && Head(data, k).value.1 == |body|
  {
    assert Message(k, body) + [] == Message(k, body);
    RoundTrip(k, body, []);
    MessageComplete(k, body, []);
    MessageShape(k, body, []);
  }

  /** One leg of the conversation: the body arrives whole, no read waits for more, and nothing of the
      message is left behind for the next one. */
  method Deliver(from: ByteStream, to: ByteStream, k: Kind, body: Bytes) returns (r: Result<Bytes, Error>)
    requires from != to && from.out == [] && to.data == [] && !to.starved
    requires ApiKind(k) && |body| <= MAX_BODY_LEN
    modifies from`out, to
    ensures r == Ok(body)
    ensures from.out == [] && to.data == [] && !to.starved && to.out == old(to.out)
    ensures to.pulled <= old(to.pulled) + MAX_HDR_LEN + |body|
  {
    ApiFits(k, |body|);
    MessageFacts(k, body);
    Post(from, to, k, body);
    r := Recv(to, k);
  }

  /** A request and its response, as often as the peers like: after each exchange both streams are as
      clean as before it, so the next one is received as well. */
  method Converse(client: ByteStream, server: ByteStream, calls: seq<(Bytes, Bytes)>)
    returns (heard: seq<Result<Bytes, Error>>, answers: seq<Result<Bytes, Error>>)
    requires client != server
    requires client.out == [] && client.data == [] && !client.starved
    requires server.out == [] && server.data == [] && !server.starved
    requires forall i | 0 <= i < |calls| :: |calls[i].0| <= MAX_BODY_LEN && |calls[i].1| <= MAX_BODY_LEN
    modifies client, server
    ensures |heard| == |calls| && forall i | 0 <= i < |calls| :: heard[i] == Ok(calls[i].0)
    ensures |answers| == |calls| && forall i | 0 <= i < |calls| :: answers[i] == Ok(calls[i].1)
    ensures !client.starved && !server.starved
  {
    heard, answers := [], [];
    for n := 0 to |calls|
      invariant client.out == [] && client.data == [] && !client.starved
      invariant server.out == [] && server.data == [] && !server.starved
      invariant |heard| == n && forall i | 0 <= i < n :: heard[i] == Ok(calls[i].0)
      invariant |answers| == n && forall i | 0 <= i < n :: answers[i] == Ok(calls[i].1)
    {
      var h := Deliver(client, server, Request(API_URL), calls[n].0);
      var a := Deliver(server, client, Response, calls[n].1);
      heard, answers := heard + [h], answers + [a];
    }
  }
}
