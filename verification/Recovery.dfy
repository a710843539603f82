/**
  What a receiver gets out of an imperfect stream: gap accounting, the round trip of an encoded
  stream, resynchronisation after garbage, and survival of damaged messages.
 */
module Recovery {
  import opened Bytes
  import opened Checksum
  import opened Protocol
  import opened Reassembly

  // ----- sequence accounting

  /** The counters after accepting messages with these sequence numbers in turn. */
  function AcceptAll(c: Counters, seqs: seq<u32>): Counters
    decreases |seqs|
  {
    if seqs == [] then c else AcceptAll(Accept(c, seqs[0]), seqs[1..])
  }

  ghost predicate IncreasingFrom(prev: nat, seqs: seq<u32>)
    decreases |seqs|
  {
    seqs != [] ==> prev < seqs[0] && IncreasingFrom(seqs[0], seqs[1..])
  }

  ghost predicate AllPositive(seqs: seq<u32>) {
    forall i :: 0 <= i < |seqs| ==> seqs[i] > 0
  }

  /** What one accepted number does to the gap count, the 32-bit wrap at the top of the numbers included: nothing for a
      first number, a repeated, an older or the next one; otherwise the numbers missed. */
  lemma AcceptGaps(c: Counters, seqNo: u32)
    ensures Accept(c, seqNo).parsed == (c.parsed as nat + 1) % TWO_64 && Accept(c, seqNo).lastSeq == seqNo
    ensures c.lastSeq == 0 ==> Accept(c, seqNo).gaps == c.gaps
    ensures 0 < c.lastSeq < TWO_32 - 1 && seqNo <= c.lastSeq + 1 ==> Accept(c, seqNo).gaps == c.gaps
    ensures 0 < c.lastSeq && seqNo > c.lastSeq + 1 ==>
              Accept(c, seqNo).gaps == (c.gaps as nat + (seqNo - c.lastSeq - 1)) % TWO_64
    ensures c.lastSeq == TWO_32 - 1 ==> Accept(c, seqNo).gaps == (c.gaps as nat + seqNo) % TWO_64
  {
  }

  lemma AcceptSets(c: Counters, seqNo: u32)
    ensures Accept(c, seqNo).lastSeq == seqNo && Accept(c, seqNo).bad == c.bad
  {
  }

  /** One acceptance, clear of 64-bit wrap. */
  lemma AcceptStep(c: Counters, seqNo: u32)
    requires c.lastSeq > 0 && seqNo > 0
    requires c.parsed + 1 < TWO_64 && c.gaps + TWO_32 < TWO_64
    ensures var r := Accept(c, seqNo);
            && r.lastSeq == seqNo && r.parsed == c.parsed + 1 && c.gaps <= r.gaps <= c.gaps + TWO_32 - 1
            && (seqNo > c.lastSeq ==> r.gaps == c.gaps + (seqNo - c.lastSeq - 1))
  {
  }

  /** Messages received plus messages missed never fall short of the distance covered, and exceed it unless the
      numbers rise. */
  lemma {:induction false} GapBalance(c: Counters, seqs: seq<u32>)
    requires c.lastSeq > 0 && AllPositive(seqs)
    requires c.parsed + c.gaps + |seqs| * TWO_32 < TWO_64
    ensures var r := AcceptAll(c, seqs);
            && r.parsed == c.parsed + |seqs|
            && r.gaps - c.gaps <= |seqs| * TWO_32
            && r.gaps + r.parsed - c.gaps - c.parsed >= r.lastSeq - c.lastSeq
            && (r.gaps + r.parsed - c.gaps - c.parsed == r.lastSeq - c.lastSeq <==> IncreasingFrom(c.lastSeq, seqs))
    decreases |seqs|
  {
    hide Accept;
    if seqs != [] {
      AcceptStep(c, seqs[0]);
      GapBalance(Accept(c, seqs[0]), seqs[1..]);
    }
  }

  /** From a fresh parser, received plus missed spans first to last exactly when the numbers strictly increase. */
  lemma GapConservation(seqs: seq<u32>)
    requires seqs != [] && AllPositive(seqs) && |seqs| < TWO_32
    ensures var r := AcceptAll(Fresh, seqs);
            && r.parsed == |seqs| && r.lastSeq == seqs[|seqs| - 1]
            && (r.gaps + r.parsed == r.lastSeq - seqs[0] + 1 <==> IncreasingFrom(0, seqs))
  {
    GapBalance(Accept(Fresh, seqs[0]), seqs[1..]);
    AcceptAllLast(Fresh, seqs);
  }

  lemma {:induction false} AcceptAllLast(c: Counters, seqs: seq<u32>)
    requires seqs != []
    ensures AcceptAll(c, seqs).lastSeq == seqs[|seqs| - 1]
    decreases |seqs|
  {
    hide Accept;
    AcceptSets(c, seqs[0]);
    if |seqs| > 1 { AcceptAllLast(Accept(c, seqs[0]), seqs[1..]); }
  }

  /** The sequence numbers of the delivered frames. */
  function Seqs(out: seq<Delivery>): (s: seq<u32>)
    requires forall i :: 0 <= i < |out| ==> |out[i].frame| >= HEADER_SIZE
    ensures |s| == |out|
  {
    if out == [] then [] else [SeqOf(out[0].frame)] + Seqs(out[1..])
  }

  lemma AcceptedIsFrame(s: seq<byte>, k: nat)
    requires k <= |s| && Scan(s[k..]).Accepted?
    ensures var n := Scan(s[k..]).size; k + n <= |s| && IsFrame(s[k..k + n])
  {
    hide ChecksumOk;
    var n := Scan(s[k..]).size;
    assert s[k..][..n] == s[k..k + n];
  }

  /** Only whole, valid frames reach a callback, each the callback of the type its first two bytes give. */
  predicate GoodDelivery(d: Delivery) {
    && IsFrame(d.frame)
    && (d.OnTrade? <==> d.frame[0] == 1 && d.frame[1] == 0)
    && (d.OnQuote? <==> d.frame[0] == 2 && d.frame[1] == 0)
    && (d.OnHeartbeat? <==> d.frame[0] == 3 && d.frame[1] == 0)
  }

  lemma DispatchIsGood(f: seq<byte>)
    requires IsFrame(f)
    ensures GoodDelivery(Dispatch(f)) && Dispatch(f).frame == f
  {
    hide ChecksumOk;
    var lo: nat, hi: nat := f[0], f[1];
    assert TypeOf(f) == lo + 0x100 * hi;
  }

  ghost predicate WellDelivered(out: seq<Delivery>) {
    forall i :: 0 <= i < |out| ==> GoodDelivery(out[i])
  }

  /** The delivered frames, and nothing else but bad checksums, drive the accounting. */
  lemma {:induction false} DeliveriesDriveCounters(c: Counters, s: seq<byte>)
    ensures var r := Parse(c, s);
            WellDelivered(r.out) && AcceptAll(c, Seqs(r.out)) == r.counters.(bad := c.bad)
    decreases |s|
  {
    hide ChecksumOk, Parse, Scan, Accept, Dispatch, SeqOf;
    assert s[0..] == s;
    ParseStep(c, s, 0);
    match Scan(s)
    case NeedMore => NothingYet(c, s);
    case Unknown => DeliveriesDriveCounters(c, s[1..]);
    case Damaged(n) =>
      DeliveriesDriveCounters(Reject(c), s[n..]);
      assert Reject(c) == c.(bad := Reject(c).bad);
      BadIsIdle(c, Reject(c).bad, Seqs(Parse(Reject(c), s[n..]).out));
    case Accepted(n) =>
      var f := s[0..n];
      AcceptedIsFrame(s, 0);
      var r := Parse(Accept(c, SeqOf(f)), s[n..]);
      DeliveriesDriveCounters(Accept(c, SeqOf(f)), s[n..]);
      AcceptSets(c, SeqOf(f));
      DispatchIsGood(f);
      assert ([Dispatch(f)] + r.out)[1..] == r.out;
  }

  lemma {:induction false} BadIsIdle(c: Counters, bad: u64, seqs: seq<u32>)
    ensures AcceptAll(c.(bad := bad), seqs) == AcceptAll(c, seqs).(bad := bad)
    ensures AcceptAll(c, seqs).bad == c.bad
    decreases |seqs|
  {
    if seqs != [] { BadIsIdle(Accept(c, seqs[0]), bad, seqs[1..]); }
  }

  /** Gap conservation for any feeds of any bytes, overflowing or not: seq_gaps + total_parsed against the delivered
      numbers. */
  lemma StreamGapConservation(chunks: seq<seq<byte>>)
    ensures var r := FeedAll(Start, chunks);
            && WellDelivered(r.out)
            && var seqs := Seqs(r.out);
               seqs != [] && AllPositive(seqs) && |seqs| < TWO_32 ==>
                 && r.counters.lastSeq == seqs[|seqs| - 1]
                 && var counted := r.counters.gaps + r.counters.parsed;
                    counted == r.counters.lastSeq - seqs[0] + 1 <==> IncreasingFrom(0, seqs)
  {
    FromStart(chunks);
    var r := FeedAll(Start, chunks);
    DeliveriesDriveCounters(Fresh, Retained(Start, chunks));
    var seqs := Seqs(r.out);
    if seqs != [] && AllPositive(seqs) && |seqs| < TWO_32 { GapConservation(seqs); }
  }

  /** Rising 32-bit numbers are positive and cannot be too many. */
  lemma {:induction false} RisingIsBounded(prev: nat, seqs: seq<u32>)
    requires IncreasingFrom(prev, seqs)
    ensures forall i :: 0 <= i < |seqs| ==> seqs[i] > prev
    ensures seqs != [] ==> prev + |seqs| <= seqs[|seqs| - 1]
    decreases |seqs|
  {
    if seqs != [] { RisingIsBounded(seqs[0], seqs[1..]); }
  }

  /** For any feeds of any bytes: if the delivered numbers strictly rise, received plus missed spans first to last. */
  lemma RisingGapConservation(chunks: seq<seq<byte>>)
    ensures var r := FeedAll(Start, chunks);
            && WellDelivered(r.out)
            && var seqs := Seqs(r.out);
               seqs != [] && IncreasingFrom(0, seqs) ==>
                 && r.counters.lastSeq == seqs[|seqs| - 1]
                 && r.counters.gaps + r.counters.parsed == r.counters.lastSeq - seqs[0] + 1
  {
    hide FeedAll;
    StreamGapConservation(chunks);
    var seqs := Seqs(FeedAll(Start, chunks).out);
    if seqs != [] && IncreasingFrom(0, seqs) { RisingIsBounded(0, seqs); }
  }

  // ----- streams of messages, some damaged, with garbage in between

  /** A message as it arrives: behind some garbage, and with its bytes possibly changed. */
  datatype Segment = Segment(garbage: seq<byte>, m: Message, wire: seq<byte>)

  predicate KnownType(lo: byte, hi: byte) {
    var l: nat, h: nat := lo, hi;
    MsgTotalSize(l + 0x100 * h) != 0
  }

  /** No two adjacent bytes read as a known message type. */
  ghost predicate Meaningless(g: seq<byte>) {
    forall i :: 0 <= i < |g| - 1 ==> !KnownType(g[i], g[i + 1])
  }

  predicate Intact(x: Segment) {
    x.wire == Encode(x.m)
  }

  /** Same length and type field as sent, but the checksum no longer fits. */
  predicate Spoiled(x: Segment) {
    && |x.wire| == |Encode(x.m)|
    && x.wire[0] == TypeCode(x.m) && x.wire[1] == 0
    && !ChecksumOk(x.wire)
  }

  ghost predicate Arrives(xs: seq<Segment>) {
    forall i :: 0 <= i < |xs| ==> Meaningless(xs[i].garbage) && (Intact(xs[i]) || Spoiled(xs[i]))
  }

  function Wire(xs: seq<Segment>): seq<byte> {
    if xs == [] then [] else xs[0].garbage + (xs[0].wire + Wire(xs[1..]))
  }

  function Kept(xs: seq<Segment>): seq<Message> {
    if xs == [] then [] else (if Intact(xs[0]) then [xs[0].m] else []) + Kept(xs[1..])
  }

  function Deliveries(ms: seq<Message>): (out: seq<Delivery>)
    ensures |out| == |ms|
  {
    if ms == [] then [] else [Dispatch(Encode(ms[0]))] + Deliveries(ms[1..])
  }

  function CountersOver(c: Counters, xs: seq<Segment>): Counters
    decreases |xs|
  {
    if xs == [] then c
    else CountersOver(if Intact(xs[0]) then Accept(c, xs[0].m.seqNo) else Reject(c), xs[1..])
  }

  lemma WireHead(x: Segment)
    requires Intact(x) || Spoiled(x)
    ensures |x.wire| == MsgTotalSize(TypeCode(x.m)) && TypeOf(x.wire) == TypeCode(x.m)
    ensures x.wire[0] == TypeCode(x.m) && x.wire[1] == 0
    ensures ChecksumOk(x.wire) == Intact(x)
    ensures Intact(x) ==> SeqOf(x.wire) == x.m.seqNo
  {
    hide Encode, ChecksumOk;
    EncodeIsFrame(x.m);
  }

  lemma ScanSegment(x: Segment, t: seq<byte>)
    requires Intact(x) || Spoiled(x)
    ensures Scan(x.wire + t) == if Intact(x) then Accepted(|x.wire|) else Damaged(|x.wire|)
  {
    hide ChecksumOk, Intact, Spoiled;
    WireHead(x);
    assert x.wire[..|x.wire|] == x.wire;
    assert TypeOf(x.wire + t) == TypeOf(x.wire);
    ScanStable(x.wire, t);
  }

  /** Garbage in front of a message is skipped byte by byte; the pair across the boundary is never a known type. */
  lemma {:induction false} GarbageSkipped(c: Counters, g: seq<byte>, x: Segment, t: seq<byte>)
    requires Meaningless(g) && (Intact(x) || Spoiled(x))
    ensures Parse(c, g + (x.wire + t)) == Parse(c, x.wire + t)
    decreases |g|
  {
    hide ChecksumOk, Intact, Spoiled;
    WireHead(x);
    var s := g + (x.wire + t);
    if g == [] {
      assert s == x.wire + t;
    } else {
      assert s[1] == if |g| > 1 then g[1] else x.wire[0];
      assert !KnownType(s[0], s[1]);
      assert Scan(s) == Unknown;
      assert s[1..] == g[1..] + (x.wire + t);
      GarbageSkipped(c, g[1..], x, t);
    }
  }

  /** Garbage alone delivers nothing and counts nothing. */
  lemma {:induction false} GarbageAlone(c: Counters, g: seq<byte>)
    requires Meaningless(g)
    ensures Parse(c, g).out == [] && Parse(c, g).counters == c
    decreases |g|
  {
    if |g| >= HEADER_SIZE {
      assert !KnownType(g[0], g[1]);
      assert Scan(g) == Unknown;
      GarbageAlone(c, g[1..]);
    }
  }

  /** Intact messages are delivered in order, spoiled ones only counted, and nothing is left over. */
  lemma {:induction false} ParseSegments(c: Counters, xs: seq<Segment>)
    requires Arrives(xs)
    ensures Parse(c, Wire(xs)) == Stream(CountersOver(c, xs), Deliveries(Kept(xs)), [])
    decreases |xs|
  {
    hide ChecksumOk, Intact, Spoiled, Scan, Encode;
    if xs == [] {
      EmptyParse(c);
    } else {
      var x, t := xs[0], Wire(xs[1..]);
      GarbageSkipped(c, x.garbage, x, t);
      ScanSegment(x, t);
      var s := x.wire + t;
      assert s[0..] == s;
      ParseStep(c, s, 0);
      assert s[|x.wire|..] == t && s[0..|x.wire|] == x.wire;
      WireHead(x);
      var c' := if Intact(x) then Accept(c, x.m.seqNo) else Reject(c);
      ParseSegments(c', xs[1..]);
      IntactBytes(x);
      assert ([x.m] + Kept(xs[1..]))[1..] == Kept(xs[1..]);
      assert [] + Kept(xs[1..]) == Kept(xs[1..]);
    }
  }

  lemma IntactBytes(x: Segment)
    ensures Intact(x) ==> x.wire == Encode(x.m)
  {
  }

  lemma EmptyParse(c: Counters)
    ensures Parse(c, []) == Stream(c, [], [])
  {
  }

  /** A stream of undamaged messages, garbage or not, comes out whole under every chunking. */
  lemma Resynchronisation(xs: seq<Segment>, chunks: seq<seq<byte>>)
    requires Arrives(xs) && (forall i :: 0 <= i < |xs| ==> Intact(xs[i]))
    requires Fits(Start, chunks) && Flatten(chunks) == Wire(xs)
    ensures var r := FeedAll(Start, chunks);
            && |r.out| == |xs| && r.rest == [] && r.counters.bad == 0
            && forall i :: 0 <= i < |xs| ==> IsFrame(r.out[i].frame) && Decode(r.out[i].frame) == xs[i].m
  {
    ChunkingInvariance(chunks);
    ParseSegments(Fresh, xs);
    AllKept(Fresh, xs);
    forall i | 0 <= i < |xs| ensures Deliveries(Kept(xs))[i] == Dispatch(Encode(xs[i].m)) {
      DeliveriesAt(Kept(xs), i);
    }
    forall i | 0 <= i < |xs| ensures IsFrame(Encode(xs[i].m)) && Decode(Encode(xs[i].m)) == xs[i].m {
      DecodeEncode(xs[i].m);
    }
  }

  lemma {:induction false} AllKept(c: Counters, xs: seq<Segment>)
    requires forall i :: 0 <= i < |xs| ==> Intact(xs[i])
    ensures |Kept(xs)| == |xs| && forall i :: 0 <= i < |xs| ==> Kept(xs)[i] == xs[i].m
    ensures CountersOver(c, xs).bad == c.bad
    decreases |xs|
  {
    hide Intact;
    if xs != [] { AllKept(Accept(c, xs[0].m.seqNo), xs[1..]); }
  }

  lemma {:induction false} DeliveriesAt(ms: seq<Message>, i: nat)
    requires i < |ms|
    ensures Deliveries(ms)[i] == Dispatch(Encode(ms[i]))
  {
    hide Encode, Dispatch;
    if i > 0 { DeliveriesAt(ms[1..], i - 1); }
  }

  /** Encoded messages are delivered to the callback of their kind. */
  lemma DeliveriesByKind(ms: seq<Message>, i: nat)
    requires i < |ms|
    ensures var d := Deliveries(ms)[i];
            && d.frame == Encode(ms[i])
            && (d.OnTrade? <==> ms[i].Trade?) && (d.OnQuote? <==> ms[i].Quote?)
            && (d.OnHeartbeat? <==> ms[i].Heartbeat?)
  {
    DeliveriesAt(ms, i);
    EncodeIsFrame(ms[i]);
    DispatchIsGood(Encode(ms[i]));
    hide Encode, Deliveries, Dispatch, IsFrame;
  }

  /** A burst of up to 32 bits that spares the type field always spoils a message, never replaces it. */
  lemma BurstSpoils(x: Segment, from: nat)
    requires |x.wire| == |Encode(x.m)| && x.wire != Encode(x.m)
    requires SameOutsideBurst(Encode(x.m), x.wire, from)
    requires x.wire[..2] == Encode(x.m)[..2]
    ensures Spoiled(x)
  {
    EncodeIsFrame(x.m);
    BurstRejected(Encode(x.m), x.wire, from);
    assert x.wire[0] == x.wire[..2][0] && x.wire[1] == x.wire[..2][1];
  }

  // ----- consecutive numbers of which only some arrive

  function Count(flags: seq<bool>, v: bool): (n: nat)
    ensures n <= |flags|
  {
    if flags == [] then 0 else (if flags[0] == v then 1 else 0) + Count(flags[1..], v)
  }

  /** The flagged ones among the numbers first, first + 1, ... */
  function Numbers(first: nat, flags: seq<bool>): seq<u32>
    requires first + |flags| <= TWO_32
    decreases |flags|
  {
    if flags == [] then [] else (if flags[0] then [first] else []) + Numbers(first + 1, flags[1..])
  }

  /** Positions f and l are the first and the last flagged. */
  ghost predicate Spans(flags: seq<bool>, f: nat, l: nat) {
    && f <= l < |flags| && flags[f] && flags[l]
    && forall i :: 0 <= i < |flags| && (i < f || i > l) ==> !flags[i]
  }

  lemma {:induction false} CountAppend(a: seq<bool>, b: seq<bool>, v: bool)
    ensures Count(a + b, v) == Count(a, v) + Count(b, v)
    decreases |a|
  {
    if a == [] {
      assert a + b == b;
    } else {
      assert (a + b)[1..] == a[1..] + b;
      CountAppend(a[1..], b, v);
    }
  }

  lemma {:induction false} CountBoth(a: seq<bool>)
    ensures Count(a, true) + Count(a, false) == |a|
  {
    if a != [] { CountBoth(a[1..]); }
  }

  lemma {:induction false} CountNone(a: seq<bool>, v: bool)
    requires forall i :: 0 <= i < |a| ==> a[i] != v
    ensures Count(a, v) == 0
  {
    if a != [] { CountNone(a[1..], v); }
  }

  lemma {:induction false} NumbersRise(first: nat, flags: seq<bool>, prev: nat)
    requires first + |flags| <= TWO_32 && prev < first
    ensures IncreasingFrom(prev, Numbers(first, flags)) && AllPositive(Numbers(first, flags))
    ensures |Numbers(first, flags)| == Count(flags, true)
    decreases |flags|
  {
    if flags != [] {
      var rest := Numbers(first + 1, flags[1..]);
      if flags[0] {
        NumbersRise(first + 1, flags[1..], first);
        assert Numbers(first, flags)[1..] == rest;
      } else {
        NumbersRise(first + 1, flags[1..], prev);
        assert Numbers(first, flags) == rest;
      }
    }
  }

  lemma {:induction false} NumbersEnds(first: nat, flags: seq<bool>, f: nat, l: nat)
    requires first + |flags| <= TWO_32 && Spans(flags, f, l)
    ensures var s := Numbers(first, flags); s != [] && s[0] == first + f && s[|s| - 1] == first + l
    decreases |flags|
  {
    var tail := flags[1..];
    var rest := Numbers(first + 1, tail);
    if !flags[0] {
      assert Spans(tail, f - 1, l - 1);
      NumbersEnds(first + 1, tail, f - 1, l - 1);
      assert Numbers(first, flags) == rest;
    } else if l == 0 {
      CountNone(tail, true);
      NumbersRise(first + 1, tail, first);
    } else {
      assert exists i :: 0 <= i < |tail| && tail[i] by { assert tail[l - 1]; }
      var g := FirstFlag(tail);
      assert Spans(tail, g, l - 1);
      NumbersEnds(first + 1, tail, g, l - 1);
    }
  }

  lemma {:induction false} FirstFlag(flags: seq<bool>) returns (g: nat)
    requires exists i :: 0 <= i < |flags| && flags[i]
    ensures g < |flags| && flags[g] && forall i :: 0 <= i < g ==> !flags[i]
  {
    g := 0;
    while !flags[g]
      invariant 0 <= g < |flags| && forall i :: 0 <= i < g ==> !flags[i]
      invariant exists i :: g <= i < |flags| && flags[i]
      decreases |flags| - g
    {
      g := g + 1;
    }
  }

  /** Of consecutive numbers, the gaps counted are those missing strictly between the first and last that arrive. */
  lemma ConsecutiveGaps(first: nat, flags: seq<bool>, f: nat, l: nat)
    requires 1 <= first && first + |flags| <= TWO_32 && Spans(flags, f, l)
    ensures var r := AcceptAll(Fresh, Numbers(first, flags));
            && r.parsed == Count(flags, true)
            && r.gaps == Count(flags[f..l + 1], false)
            && r.lastSeq == first + l
  {
    var s := Numbers(first, flags);
    NumbersRise(first, flags, 0);
    NumbersEnds(first, flags, f, l);
    GapConservation(s);
    var mid := flags[f..l + 1];
    assert flags == flags[..f] + (mid + flags[l + 1..]);
    CountAppend(flags[..f], mid + flags[l + 1..], true);
    CountAppend(mid, flags[l + 1..], true);
    CountNone(flags[..f], true);
    CountNone(flags[l + 1..], true);
    CountBoth(mid);
  }

  lemma NothingArrives(first: nat, flags: seq<bool>)
    requires 1 <= first && first + |flags| <= TWO_32 && Count(flags, true) == 0
    ensures Numbers(first, flags) == []
  {
    NumbersRise(first, flags, 0);
  }

  // ----- surviving damage

  function Flags(xs: seq<Segment>): (flags: seq<bool>)
    ensures |flags| == |xs|
  {
    if xs == [] then [] else [Intact(xs[0])] + Flags(xs[1..])
  }

  ghost predicate Consecutive(first: nat, xs: seq<Segment>) {
    forall i :: 0 <= i < |xs| ==> xs[i].m.seqNo == first + i
  }

  lemma CountedOnce(bad: u64, n: nat)
    ensures ((bad + 1) % TWO_64 + n) % TWO_64 == (bad + (n + 1)) % TWO_64
  {
  }

  /** The numbers and the bad-checksum count, unfolded by one message. */
  lemma OneMoreFlag(c: Counters, first: nat, flags: seq<bool>)
    requires flags != [] && first + |flags| <= TWO_32
    ensures var tail := Numbers(first + 1, flags[1..]);
            AcceptAll(c, Numbers(first, flags)) == AcceptAll(if flags[0] then Accept(c, first) else c, tail)
    ensures Count(flags, false) == (if flags[0] then 0 else 1) + Count(flags[1..], false)
  {
    hide Accept;
    var tail := Numbers(first + 1, flags[1..]);
    if flags[0] {
      assert ([first] + tail)[1..] == tail;
    } else {
      assert Numbers(first, flags) == tail;
    }
  }

  lemma {:induction false} CountersOverFlags(c: Counters, first: nat, xs: seq<Segment>)
    requires first + |xs| <= TWO_32 && Consecutive(first, xs)
    ensures CountersOver(c, xs)
         == AcceptAll(c, Numbers(first, Flags(xs))).(bad := (c.bad as nat + Count(Flags(xs), false)) % TWO_64)
    decreases |xs|
  {
    hide Intact, Accept, Numbers, AcceptAll, Count;
    if xs == [] {
      NothingCounted(c, first);
    } else {
      var tail, flags := xs[1..], Flags(xs);
      var rest := Numbers(first + 1, Flags(tail));
      assert flags[1..] == Flags(tail);
      OneMoreFlag(c, first, flags);
      if flags[0] {
        CountersOverFlags(Accept(c, first), first + 1, tail);
        AcceptSets(c, first);
      } else {
        CountersOverFlags(Reject(c), first + 1, tail);
        CountedOnce(c.bad, Count(Flags(tail), false));
        BadIsIdle(c, Reject(c).bad, rest);
        assert Reject(c) == c.(bad := Reject(c).bad);
      }
    }
  }

  lemma NothingCounted(c: Counters, first: nat)
    requires first <= TWO_32
    ensures AcceptAll(c, Numbers(first, [])) == c && Count([], false) == 0
  {
  }

  /** Consecutive messages, any of them spoiled, garbage anywhere between, in any chunks: the intact ones are
      delivered in order, the spoiled ones counted as bad, and the gaps are those between the first and last intact. */
  lemma CorruptionRecovery(first: nat, xs: seq<Segment>, chunks: seq<seq<byte>>, f: nat, l: nat)
    requires 1 <= first && first + |xs| <= TWO_32 && Consecutive(first, xs)
    requires Arrives(xs) && Fits(Start, chunks) && Flatten(chunks) == Wire(xs)
    requires Spans(Flags(xs), f, l)
    ensures var r := FeedAll(Start, chunks);
            && r.out == Deliveries(Kept(xs)) && r.rest == []
            && r.counters.parsed == Count(Flags(xs), true)
            && r.counters.bad == Count(Flags(xs), false)
            && r.counters.gaps == Count(Flags(xs)[f..l + 1], false)
            && r.counters.lastSeq == first + l
  {
    hide Parse, FeedAll, AcceptAll, Numbers, CountersOver, Deliveries, Kept, Flags, Wire, Count, Intact, Spoiled;
    ChunkingInvariance(chunks);
    ParseSegments(Fresh, xs);
    CountersOverFlags(Fresh, first, xs);
    ConsecutiveGaps(first, Flags(xs), f, l);
  }

  /** When every message is spoiled, nothing is delivered and nothing but bad checksums is counted. */
  lemma NothingIntact(first: nat, xs: seq<Segment>, chunks: seq<seq<byte>>)
    requires 1 <= first && first + |xs| <= TWO_32 && Consecutive(first, xs)
    requires Arrives(xs) && Fits(Start, chunks) && Flatten(chunks) == Wire(xs)
    requires Count(Flags(xs), true) == 0
    ensures FeedAll(Start, chunks).counters == Fresh.(bad := |xs|)
    ensures FeedAll(Start, chunks).out == []
  {
    hide Parse, FeedAll, AcceptAll, Numbers, CountersOver, Deliveries, Kept, Flags, Wire, Count, Intact, Spoiled;
    ChunkingInvariance(chunks);
    ParseSegments(Fresh, xs);
    CountersOverFlags(Fresh, first, xs);
    NothingArrives(first, Flags(xs));
    NoAcceptance(Fresh);
    CountBoth(Flags(xs));
    KeptCount(xs);
  }

  lemma NoAcceptance(c: Counters)
    ensures AcceptAll(c, []) == c
  {
  }

  lemma {:induction false} KeptCount(xs: seq<Segment>)
    ensures |Kept(xs)| == Count(Flags(xs), true)
  {
    hide Intact;
    if xs != [] {
      KeptCount(xs[1..]);
      assert Flags(xs)[1..] == Flags(xs[1..]);
    }
  }
}
