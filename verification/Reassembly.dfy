/**
  What the stream parser computes, as one pure pass over a whole byte string, and the law that
  makes it a stream parser: the way the bytes were cut into chunks leaves no trace.
 */
module Reassembly {
  import opened Bytes
  import opened Checksum
  import opened Protocol

  /** What the parser can tell from the bytes at its current offset. */
  datatype Verdict = NeedMore | Unknown | Damaged(size: nat) | Accepted(size: nat)

  function Scan(s: seq<byte>): Verdict {
    if |s| < HEADER_SIZE then NeedMore
    else
      var n := MsgTotalSize(TypeOf(s));
      if n == 0 then Unknown
      else if |s| < n then NeedMore
      else if ChecksumOk(s[..n]) then Accepted(n)
      else Damaged(n)
  }

  /** The parser's fields besides its buffer, in their C++ widths. */
  datatype Counters = Counters(lastSeq: u32, parsed: u64, gaps: u64, bad: u64)

  const Fresh := Counters(0, 0, 0, 0)

  /** Sequence accounting for one accepted message, in 32-bit and 64-bit arithmetic. */
  function Accept(c: Counters, seqNo: u32): Counters {
    var expected := (c.lastSeq as nat + 1) % TWO_32;
    var jump := (seqNo as nat + TWO_32 - c.lastSeq - 1) % TWO_32;
    Counters(seqNo,
             (c.parsed as nat + 1) % TWO_64,
             if c.lastSeq > 0 && seqNo != expected && seqNo > expected then (c.gaps as nat + jump) % TWO_64 else c.gaps,
             c.bad)
  }

  function Reject(c: Counters): Counters {
    c.(bad := (c.bad as nat + 1) % TWO_64)
  }

  /** A callback invocation with the frame it is handed. */
  datatype Delivery = OnTrade(frame: seq<byte>) | OnQuote(frame: seq<byte>) | OnHeartbeat(frame: seq<byte>)

  function Dispatch(f: seq<byte>): (d: Delivery)
    requires |f| >= 2
    ensures d.frame == f
  {
    if TypeOf(f) == MSG_TRADE then OnTrade(f)
    else if TypeOf(f) == MSG_QUOTE then OnQuote(f)
    else OnHeartbeat(f)
  }

  /** Counters, callbacks so far and bytes not yet consumed. */
  datatype Stream = Stream(counters: Counters, out: seq<Delivery>, rest: seq<byte>)

  function Parse(c: Counters, s: seq<byte>): Stream
    decreases |s|
  {
    match Scan(s)
    case NeedMore => Stream(c, [], s)
    case Unknown => Parse(c, s[1..])
    case Damaged(n) => Parse(Reject(c), s[n..])
    case Accepted(n) => After([Dispatch(s[..n])], Parse(Accept(c, SeqOf(s)), s[n..]))
  }

  function After(out: seq<Delivery>, r: Stream): Stream {
    r.(out := out + r.out)
  }

  /** Parse unfolded by one verdict, at offset k of s. */
  lemma ParseStep(c: Counters, s: seq<byte>, k: nat)
    requires k <= |s|
    ensures match Scan(s[k..])
            case NeedMore => true
            case Unknown => k + 1 <= |s| && Parse(c, s[k..]) == Parse(c, s[k + 1..])
            case Damaged(n) => 0 < n && k + n <= |s| && Parse(c, s[k..]) == Parse(Reject(c), s[k + n..])
            case Accepted(n) =>
              && HEADER_SIZE <= n && k + n <= |s|
              && var f := s[k..k + n];
                 Parse(c, s[k..]) == After([Dispatch(f)], Parse(Accept(c, SeqOf(f)), s[k + n..]))
  {
    hide ChecksumOk;
    var here := s[k..];
    var v := Scan(here);
    if v != NeedMore {
      var n := if v == Unknown then 1 else v.size;
      assert here[n..] == s[k + n..] && here[..n] == s[k..k + n];
      if v.Accepted? {
        assert here[2..6] == s[k..k + n][2..6];
      }
    }
  }

  // ----- one pass over a concatenation is a pass over the front, then over its residue and the back

  lemma ScanStable(s: seq<byte>, t: seq<byte>)
    requires Scan(s) != NeedMore
    ensures Scan(s + t) == Scan(s)
  {
    var n := MsgTotalSize(TypeOf(s));
    if n != 0 {
      assert (s + t)[..n] == s[..n];
    }
  }

  lemma NothingYet(c: Counters, s: seq<byte>)
    requires Scan(s) == NeedMore
    ensures Parse(c, s) == Stream(c, [], s)
  {
  }

  lemma {:induction false} ParseSplit(c: Counters, s: seq<byte>, t: seq<byte>)
    ensures var r := Parse(c, s);
            Parse(c, s + t) == After(r.out, Parse(r.counters, r.rest + t))
    decreases |s|
  {
    hide Scan, Parse, Accept, Reject, Dispatch, SeqOf;
    var u := s + t;
    assert s[0..] == s && u[0..] == u;
    ParseStep(c, s, 0);
    if Scan(s) == NeedMore {
      NothingYet(c, s);
      AfterNothing(Parse(c, u));
    } else {
      ScanStable(s, t);
      ParseStep(c, u, 0);
      var n := if Scan(s) == Unknown then 1 else Scan(s).size;
      assert u[n..] == s[n..] + t && u[0..n] == s[0..n];
      match Scan(s)
      case Unknown => ParseSplit(c, s[1..], t);
      case Damaged(_) => ParseSplit(Reject(c), s[n..], t);
      case Accepted(_) =>
        var c', d := Accept(c, SeqOf(s[0..n])), Dispatch(s[0..n]);
        var r := Parse(c', s[n..]);
        ParseSplit(c', s[n..], t);
        AfterAfter([d], r.out, Parse(r.counters, r.rest + t));
    }
  }

  lemma AfterAfter(a: seq<Delivery>, b: seq<Delivery>, r: Stream)
    ensures After(a, After(b, r)) == After(a + b, r)
  {
    assert a + (b + r.out) == a + b + r.out;
  }

  lemma AfterNothing(r: Stream)
    ensures After([], r) == r
  {
    assert [] + r.out == r.out;
  }

  /** The residue is a suffix that cannot yet be decided, so it is shorter than the longest message. */
  lemma {:induction false} ParseResidue(c: Counters, s: seq<byte>)
    ensures var rest := Parse(c, s).rest;
            && Scan(rest) == NeedMore && |rest| < MAX_MSG_SIZE
            && |rest| <= |s| && rest == s[|s| - |rest|..]
    decreases |s|
  {
    hide ChecksumOk;
    var v := Scan(s);
    match v
    case NeedMore =>
    case Unknown => ParseResidue(c, s[1..]);
    case Damaged(n) => ParseResidue(Reject(c), s[n..]);
    case Accepted(n) => ParseResidue(Accept(c, SeqOf(s)), s[n..]);
  }

  // ----- feed, with its fixed buffer

  const PARSE_BUF_SIZE: nat := 131072

  /** The part of data that still fits behind a residue of the given length. */
  function Fitting(used: nat, data: seq<byte>): (d: seq<byte>)
    requires used <= PARSE_BUF_SIZE
    ensures d <= data
  {
    if used + |data| > PARSE_BUF_SIZE then data[..PARSE_BUF_SIZE - used] else data
  }

  /** One call of feed on a parser in state p. */
  function Feed(p: Stream, data: seq<byte>): (r: Stream)
    requires |p.rest| <= PARSE_BUF_SIZE
    ensures |r.rest| < MAX_MSG_SIZE
  {
    var s := p.rest + Fitting(|p.rest|, data);
    ParseResidue(p.counters, s);
    After(p.out, Parse(p.counters, s))
  }

  function FeedAll(p: Stream, chunks: seq<seq<byte>>): (r: Stream)
    requires |p.rest| < MAX_MSG_SIZE
    ensures |r.rest| < MAX_MSG_SIZE
    decreases |chunks|
  {
    if chunks == [] then p else FeedAll(Feed(p, chunks[0]), chunks[1..])
  }

  function Flatten(chunks: seq<seq<byte>>): seq<byte> {
    if chunks == [] then [] else chunks[0] + Flatten(chunks[1..])
  }

  /** What the parser takes in when fed these chunks: of each the part that fits at that moment. */
  function Retained(p: Stream, chunks: seq<seq<byte>>): seq<byte>
    requires |p.rest| < MAX_MSG_SIZE
    decreases |chunks|
  {
    if chunks == [] then [] else Fitting(|p.rest|, chunks[0]) + Retained(Feed(p, chunks[0]), chunks[1..])
  }

  /** No chunk overflows the buffer at the moment it is fed. */
  predicate Fits(p: Stream, chunks: seq<seq<byte>>)
    requires |p.rest| < MAX_MSG_SIZE
    decreases |chunks|
  {
    chunks != [] ==> |p.rest| + |chunks[0]| <= PARSE_BUF_SIZE && Fits(Feed(p, chunks[0]), chunks[1..])
  }

  /** The largest chunk that no reachable parser state can overflow on. */
  const SAFE_CHUNK: nat := 131029

  ghost predicate Safe(chunks: seq<seq<byte>>) {
    forall i :: 0 <= i < |chunks| ==> |chunks[i]| <= SAFE_CHUNK
  }

  lemma FeedIs(p: Stream, data: seq<byte>)
    requires |p.rest| < MAX_MSG_SIZE
    ensures Feed(p, data) == After(p.out, Parse(p.counters, p.rest + Fitting(|p.rest|, data)))
    ensures Scan(Feed(p, data).rest) == NeedMore
  {
    ParseResidue(p.counters, p.rest + Fitting(|p.rest|, data));
  }

  /** A residue is left alone until more bytes arrive. */
  lemma ParseOfResidue(p: Stream)
    requires Scan(p.rest) == NeedMore
    ensures After(p.out, Parse(p.counters, p.rest)) == p
    ensures |p.rest| < MAX_MSG_SIZE
  {
    assert p.out + [] == p.out;
  }

  /** Whatever the cut, feeding the chunks is parsing at once what was retained of them. */
  lemma {:induction false} FeedAllIsParse(p: Stream, chunks: seq<seq<byte>>)
    requires Scan(p.rest) == NeedMore && |p.rest| < MAX_MSG_SIZE
    ensures FeedAll(p, chunks) == After(p.out, Parse(p.counters, p.rest + Retained(p, chunks)))
    decreases |chunks|
  {
    hide Scan, Parse, Feed, Fitting;
    if chunks == [] {
      assert p.rest + [] == p.rest;
      ParseOfResidue(p);
    } else {
      var head, tail := Fitting(|p.rest|, chunks[0]), Retained(Feed(p, chunks[0]), chunks[1..]);
      var r := Parse(p.counters, p.rest + head);
      FeedIs(p, chunks[0]);
      FeedAllIsParse(Feed(p, chunks[0]), chunks[1..]);
      ParseSplit(p.counters, p.rest + head, tail);
      assert p.rest + head + tail == p.rest + Retained(p, chunks);
      AfterAfter(p.out, r.out, Parse(r.counters, r.rest + tail));
    }
  }

  /** Everything is retained exactly when no chunk overflows. */
  lemma {:induction false} AllRetained(p: Stream, chunks: seq<seq<byte>>)
    requires |p.rest| < MAX_MSG_SIZE
    ensures |Retained(p, chunks)| <= |Flatten(chunks)|
    ensures Retained(p, chunks) == Flatten(chunks) <==> Fits(p, chunks)
    decreases |chunks|
  {
    hide Feed;
    if chunks != [] {
      var tail := Feed(p, chunks[0]);
      AllRetained(tail, chunks[1..]);
      if Retained(p, chunks) == Flatten(chunks) {
        assert |Fitting(|p.rest|, chunks[0])| == |chunks[0]|;
        assert Retained(tail, chunks[1..]) == Retained(p, chunks)[|chunks[0]|..];
        assert Flatten(chunks[1..]) == Flatten(chunks)[|chunks[0]|..];
      }
    }
  }

  /** Chunks of at most SAFE_CHUNK bytes never overflow. */
  lemma {:induction false} SafeFits(p: Stream, chunks: seq<seq<byte>>)
    requires |p.rest| < MAX_MSG_SIZE && Safe(chunks)
    ensures Fits(p, chunks)
    decreases |chunks|
  {
    hide Feed;
    if chunks != [] { SafeFits(Feed(p, chunks[0]), chunks[1..]); }
  }

  const Start := Stream(Fresh, [], [])

  lemma FromStart(chunks: seq<seq<byte>>)
    ensures FeedAll(Start, chunks) == Parse(Fresh, Retained(Start, chunks))
  {
    FeedAllIsParse(Start, chunks);
    var s := Retained(Start, chunks);
    assert [] + s == s;
    AfterNothing(Parse(Fresh, s));
  }

  /** Every fragmentation that does not overflow gives the deliveries, counters and residue of one pass over the
      whole stream. */
  lemma ChunkingInvariance(chunks: seq<seq<byte>>)
    requires Fits(Start, chunks)
    ensures FeedAll(Start, chunks) == Parse(Fresh, Flatten(chunks))
  {
    FromStart(chunks);
    AllRetained(Start, chunks);
  }

  lemma FittingIs(used: nat, data: seq<byte>)
    requires used <= PARSE_BUF_SIZE
    ensures var room := PARSE_BUF_SIZE - used;
            Fitting(used, data) == if |data| > room then data[..room] else data
  {
  }

  /** Overflow costs the end of the chunk and nothing else: parsing on from the state it leaves, the lost bytes would
      complete the parse of everything. */
  lemma OverflowLosesTail(p: Stream, data: seq<byte>)
    requires |p.rest| < MAX_MSG_SIZE
    ensures var room := PARSE_BUF_SIZE - |p.rest|;
            var lost := if |data| > room then data[room..] else [];
            var r := Feed(p, data);
            After(p.out, Parse(p.counters, p.rest + data)) == After(r.out, Parse(r.counters, r.rest + lost))
  {
    hide Parse, Scan, Fitting;
    FittingIs(|p.rest|, data);
    var kept := Fitting(|p.rest|, data);
    var lost := data[|kept|..];
    var q := Parse(p.counters, p.rest + kept);
    ParseSplit(p.counters, p.rest + kept, lost);
    assert p.rest + kept + lost == p.rest + data;
    AfterAfter(p.out, q.out, Parse(q.counters, q.rest + lost));
  }

  /** A chunk of at most SAFE_CHUNK bytes never overflows a parser that has been fed before. */
  lemma SafeChunkFits(p: Stream, before: seq<byte>, data: seq<byte>)
    requires |p.rest| <= PARSE_BUF_SIZE && |data| <= SAFE_CHUNK
    ensures Fitting(|Feed(p, before).rest|, data) == data
  {
  }

  /** The bound is tight: all but the last byte of a quote stays behind, and one byte too many is then lost. */
  lemma SafeChunkIsTight(m: Message, data: seq<byte>)
    requires m.Quote? && |data| == SAFE_CHUNK + 1
    ensures var p := Feed(Start, Encode(m)[..MAX_MSG_SIZE - 1]);
            p.rest == Encode(m)[..MAX_MSG_SIZE - 1] && Fitting(|p.rest|, data) != data
  {
    EncodeIsFrame(m);
    var s := Encode(m)[..MAX_MSG_SIZE - 1];
    assert Scan(s) == NeedMore;
    assert [] + s == s;
  }
}
