/**
  The whole path of a message: simulator, byte stream in any chunks, parser, cache and histogram.
 */
module EndToEnd {
  import opened Bytes
  import opened Checksum
  import opened Protocol
  import opened Reassembly
  import opened Recovery
  import opened Cache
  import opened StreamParser
  import opened Simulator
  import opened FeedHandler

  predicate IsSent(x: Fate) {
    x.Offered? && x.taken >= |Encode(x.m)|
  }

  /** The send stopped in the middle of the message. */
  predicate IsPartial(x: Fate) {
    x.Offered? && 0 < x.taken < |Encode(x.m)|
  }

  /** Whatever stopped in mid-message stopped after one byte. */
  ghost predicate OnlyStubs(log: seq<Fate>) {
    forall i :: 0 <= i < |log| && IsPartial(log[i]) ==> log[i].taken == 1
  }

  ghost predicate SomeSent(log: seq<Fate>) {
    exists j :: 0 <= j < |log| && IsSent(log[j])
  }

  /** The first send to stop after more than one byte was the end of it all: no message was sent whole after it, and
      the fragments that were do not even make up its length. */
  ghost predicate CutForGood(log: seq<Fate>, i: nat) {
    && i < |log| && OnlyStubs(log[..i]) && IsPartial(log[i]) && log[i].taken >= 2
    && !SomeSent(log[i + 1..]) && log[i].taken + |Carried(log[i + 1..])| < |Encode(log[i].m)|
  }

  /** Short sends that spoil nothing: single bytes anywhere, and a longer one that cuts the connection off for good. */
  ghost predicate Harmless(log: seq<Fate>) {
    OnlyStubs(log) || exists i: nat :: CutForGood(log, i)
  }

  /** Every send that stopped in mid-message was followed by one that did not. */
  ghost predicate FollowedUp(log: seq<Fate>) {
    forall i :: 0 <= i < |log| && IsPartial(log[i]) ==> exists j :: i < j < |log| && IsSent(log[j])
  }

  function SentIn(log: seq<Fate>): seq<Message> {
    if log == [] then [] else (if IsSent(log[0]) then [log[0].m] else []) + SentIn(log[1..])
  }

  function Arrivals(log: seq<Fate>): (flags: seq<bool>)
    ensures |flags| == |log|
    ensures forall i :: 0 <= i < |log| ==> flags[i] == IsSent(log[i])
  {
    if log == [] then [] else [IsSent(log[0])] + Arrivals(log[1..])
  }

  function SkipsIn(log: seq<Fate>): nat {
    if log == [] then 0 else (if log[0].Skipped? then 1 else 0) + SkipsIn(log[1..])
  }

  /** Messages not sent whole. */
  function DropsIn(log: seq<Fate>): nat {
    if log == [] then 0 else (if log[0].Offered? && !IsSent(log[0]) then 1 else 0) + DropsIn(log[1..])
  }

  // ----- the stream as a list of segments

  /** The messages sent whole, each behind the stray bytes since the last one; before the first there are already g. */
  function Segments(log: seq<Fate>, g: seq<byte>): seq<Segment>
    decreases |log|
  {
    if log == [] then []
    else if IsSent(log[0]) then [Segment(g, log[0].m, Encode(log[0].m))] + Segments(log[1..], [])
    else Segments(log[1..], g + BytesOf(log[0]))
  }

  /** The stray bytes after the last message sent whole. */
  function Pending(log: seq<Fate>, g: seq<byte>): seq<byte>
    decreases |log|
  {
    if log == [] then g else Pending(log[1..], if IsSent(log[0]) then [] else g + BytesOf(log[0]))
  }

  function SeqNos(ms: seq<Message>): seq<u32> {
    if ms == [] then [] else [ms[0].seqNo] + SeqNos(ms[1..])
  }

  lemma SentBytes(x: Fate)
    requires IsSent(x)
    ensures BytesOf(x) == Encode(x.m)
  {
    hide Encode;
  }

  lemma {:induction false} StreamOfSegments(log: seq<Fate>, g: seq<byte>)
    ensures Wire(Segments(log, g)) + Pending(log, g) == g + Carried(log)
    decreases |log|
  {
    hide BytesOf, Encode;
    if log == [] {
      assert [] + g == g + [];
    } else if IsSent(log[0]) {
      SentBytes(log[0]);
      StreamOfSegments(log[1..], []);
      var xs, tail, e := Segments(log, g), Segments(log[1..], []), Encode(log[0].m);
      assert xs[1..] == tail;
      assert Wire(tail) + Pending(log[1..], []) == Carried(log[1..]);
      assert g + (e + Wire(tail)) + Pending(log[1..], []) == g + (e + (Wire(tail) + Pending(log[1..], [])));
    } else {
      StreamOfSegments(log[1..], g + BytesOf(log[0]));
      assert g + BytesOf(log[0]) + Carried(log[1..]) == g + (BytesOf(log[0]) + Carried(log[1..]));
    }
  }

  lemma {:induction false} SegmentsKeepSent(c: Counters, log: seq<Fate>, g: seq<byte>)
    ensures forall i :: 0 <= i < |Segments(log, g)| ==> Intact(Segments(log, g)[i])
    ensures Kept(Segments(log, g)) == SentIn(log)
    ensures CountersOver(c, Segments(log, g)) == AcceptAll(c, SeqNos(SentIn(log)))
    decreases |log|
  {
    hide Encode, Accept, BytesOf;
    if log != [] {
      var tail := log[1..];
      if IsSent(log[0]) {
        SegmentsKeepSent(Accept(c, log[0].m.seqNo), tail, []);
        assert Segments(log, g)[1..] == Segments(tail, []);
        assert SentIn(log)[1..] == SentIn(tail) && SeqNos(SentIn(log))[1..] == SeqNos(SentIn(tail));
      } else {
        SegmentsKeepSent(c, tail, g + BytesOf(log[0]));
        assert SentIn(log) == SentIn(tail);
      }
    }
  }

  // ----- single stray bytes

  /** First bytes of messages: no two of them in a row read as a type. */
  ghost predicate Stubs(g: seq<byte>) {
    forall i :: 0 <= i < |g| ==> 1 <= g[i] <= 3
  }

  lemma BytesNotSent(x: Fate)
    requires !IsSent(x) && (IsPartial(x) ==> x.taken == 1)
    ensures Stubs(BytesOf(x))
    ensures BytesOf(x) == [] <==> !IsPartial(x)
  {
    if IsPartial(x) {
      EncodeIsFrame(x.m);
      hide Encode;
      assert BytesOf(x) == [Encode(x.m)[0]];
    }
  }

  lemma StubsMeanNothing(g: seq<byte>)
    requires Stubs(g)
    ensures Meaningless(g)
  {
  }

  lemma {:induction false} SegmentsArrive(log: seq<Fate>, g: seq<byte>)
    requires OnlyStubs(log) && Stubs(g)
    ensures Arrives(Segments(log, g)) && Stubs(Pending(log, g))
    decreases |log|
  {
    hide Encode, IsSent, IsPartial, BytesOf;
    if log != [] {
      var tail := log[1..];
      assert OnlyStubs(tail);
      if IsSent(log[0]) {
        SegmentsArrive(tail, []);
        StubsMeanNothing(g);
      } else {
        BytesNotSent(log[0]);
        SegmentsArrive(tail, g + BytesOf(log[0]));
      }
    }
  }

  lemma TailSent(log: seq<Fate>)
    requires log != []
    ensures SomeSent(log) <==> IsSent(log[0]) || SomeSent(log[1..])
  {
    hide IsSent;
    if SomeSent(log[1..]) {
      var j :| 0 <= j < |log| - 1 && IsSent(log[1..][j]);
      assert IsSent(log[j + 1]);
    }
    if SomeSent(log) && !IsSent(log[0]) {
      var j :| 0 <= j < |log| && IsSent(log[j]);
      assert IsSent(log[1..][j - 1]);
    }
  }

  lemma TailFollowed(log: seq<Fate>)
    requires log != []
    ensures FollowedUp(log) <==> FollowedUp(log[1..]) && (IsPartial(log[0]) ==> SomeSent(log[1..]))
  {
    hide Encode;
    var tail := log[1..];
    if FollowedUp(log) {
      forall i | 0 <= i < |tail| && IsPartial(tail[i])
        ensures exists j :: i < j < |tail| && IsSent(tail[j])
      {
        assert IsPartial(log[i + 1]);
        var j :| i + 1 < j < |log| && IsSent(log[j]);
        assert IsSent(tail[j - 1]);
      }
      if IsPartial(log[0]) {
        var j :| 0 < j < |log| && IsSent(log[j]);
        assert IsSent(tail[j - 1]);
      }
    }
    if FollowedUp(tail) && (IsPartial(log[0]) ==> SomeSent(tail)) {
      forall i | 0 <= i < |log| && IsPartial(log[i])
        ensures exists j :: i < j < |log| && IsSent(log[j])
      {
        var j: nat;
        if i == 0 {
          j :| 0 <= j < |tail| && IsSent(tail[j]);
        } else {
          assert IsPartial(tail[i - 1]);
          j :| i - 1 < j < |tail| && IsSent(tail[j]);
        }
        assert IsSent(log[j + 1]);
      }
    }
  }

  lemma SentIsNotPartial(x: Fate)
    ensures !(IsSent(x) && IsPartial(x))
  {
  }

  /** No stray single byte is left at the end exactly when a message sent whole followed each. */
  lemma {:induction false} NonePendingIff(log: seq<Fate>, g: seq<byte>)
    requires OnlyStubs(log)
    ensures Pending(log, g) == [] <==> FollowedUp(log) && (g == [] || SomeSent(log))
    decreases |log|
  {
    hide IsSent, IsPartial, BytesOf, FollowedUp, SomeSent;
    if log == [] {
      NothingSent();
    } else {
      var tail := log[1..];
      assert OnlyStubs(tail);
      TailSent(log);
      TailFollowed(log);
      if IsSent(log[0]) {
        SentIsNotPartial(log[0]);
        NonePendingIff(tail, []);
      } else {
        BytesNotSent(log[0]);
        NonePendingIff(tail, g + BytesOf(log[0]));
      }
    }
  }

  lemma NothingSent()
    ensures FollowedUp([]) && !SomeSent([])
  {
  }

  lemma {:induction false} CarriedAppend(a: seq<Fate>, b: seq<Fate>)
    ensures Carried(a + b) == Carried(a) + Carried(b)
    decreases |a|
  {
    hide BytesOf;
    if a == [] {
      assert a + b == b;
    } else {
      assert (a + b)[1..] == a[1..] + b && (a + b)[0] == a[0];
      CarriedAppend(a[1..], b);
      var head := BytesOf(a[0]);
      assert head + Carried(a[1..]) + Carried(b) == head + (Carried(a[1..]) + Carried(b));
    }
  }

  lemma {:induction false} SentAppend(a: seq<Fate>, b: seq<Fate>)
    ensures SentIn(a + b) == SentIn(a) + SentIn(b)
    decreases |a|
  {
    hide Encode;
    if a == [] {
      assert a + b == b;
    } else {
      var head := if IsSent(a[0]) then [a[0].m] else [];
      assert (a + b)[1..] == a[1..] + b && (a + b)[0] == a[0];
      SentAppend(a[1..], b);
      assert head + SentIn(a[1..]) + SentIn(b) == head + (SentIn(a[1..]) + SentIn(b));
    }
  }

  lemma SplitAt(log: seq<Fate>, i: nat)
    requires i < |log| && IsPartial(log[i])
    ensures var tail := Carried(log[i + 1..]);
            Carried(log) == Carried(log[..i]) + (Encode(log[i].m)[..log[i].taken] + tail)
    ensures SentIn(log) == SentIn(log[..i]) + SentIn(log[i + 1..])
  {
    hide Encode;
    var rest := log[i..];
    assert log == log[..i] + rest && rest[1..] == log[i + 1..];
    CarriedAppend(log[..i], rest);
    SentAppend(log[..i], rest);
    assert SentIn(rest) == SentIn(log[i + 1..]);
  }

  lemma CutType(m: Message, k: nat, tail: seq<byte>)
    requires 2 <= k < |Encode(m)|
    ensures var s := Encode(m)[..k] + tail;
            && |s| >= 2 && s[0] == TypeCode(m) && s[1] == 0 && MsgTotalSize(TypeOf(s)) == |Encode(m)|
  {
    EncodeIsFrame(m);
  }

  // ----- what a harmless end of a stream does

  /** These bytes change no counter and deliver nothing. */
  ghost predicate Idle(s: seq<byte>) {
    forall c :: Parse(c, s).counters == c && Parse(c, s).out == []
  }

  lemma {:induction false} StubsIdle(c: Counters, g: seq<byte>, u: seq<byte>)
    requires Stubs(g) && u != [] && 1 <= u[0] <= 3 && Scan(u) == NeedMore
    ensures Parse(c, g + u).counters == c && Parse(c, g + u).out == []
    decreases |g|
  {
    hide Parse;
    var s := g + u;
    if g == [] {
      assert s == u;
      NothingYet(c, u);
    } else {
      assert s[0] == g[0] && 1 <= s[1] <= 3;
      assert s[0..] == s && s[1..] == g[1..] + u;
      ParseStep(c, s, 0);
      if |s| < HEADER_SIZE {
        NothingYet(c, s);
      } else {
        assert Scan(s) == Unknown;
        StubsIdle(c, g[1..], u);
      }
    }
  }

  lemma StubsAloneIdle(g: seq<byte>)
    requires Stubs(g)
    ensures Idle(g)
  {
    StubsMeanNothing(g);
    forall c ensures Parse(c, g).counters == c && Parse(c, g).out == [] {
      GarbageAlone(c, g);
    }
  }

  lemma UnfinishedIdle(g: seq<byte>, m: Message, k: nat, tail: seq<byte>)
    requires Stubs(g) && 2 <= k && k + |tail| < |Encode(m)|
    ensures Idle(g + (Encode(m)[..k] + tail))
  {
    hide Encode, Parse;
    var u := Encode(m)[..k] + tail;
    EncodeIsFrame(m);
    CutType(m, k, tail);
    assert Scan(u) == NeedMore;
    forall c ensures Parse(c, g + u).counters == c && Parse(c, g + u).out == [] {
      StubsIdle(c, g, u);
    }
  }

  lemma {:induction false} NoneSent(log: seq<Fate>)
    ensures SentIn(log) == [] <==> !SomeSent(log)
  {
    hide Encode;
    if log != [] {
      NoneSent(log[1..]);
      TailSent(log);
    }
  }

  lemma FrontOfStream(pre: seq<Fate>, s: seq<byte>)
    ensures Carried(pre) + s == Wire(Segments(pre, [])) + (Pending(pre, []) + s)
  {
    hide Segments, Pending, Carried, Wire;
    StreamOfSegments(pre, []);
    var w, g, t := Wire(Segments(pre, [])), Pending(pre, []), Carried(pre);
    assert [] + t == t;
    assert w + g + s == w + (g + s);
  }

  /** A harmless stream is the messages sent whole, behind stray single bytes, and an idle rest. */
  lemma HarmlessStream(log: seq<Fate>) returns (pre: seq<Fate>, rest: seq<byte>)
    requires Harmless(log)
    ensures OnlyStubs(pre) && SentIn(pre) == SentIn(log)
    ensures Carried(log) == Wire(Segments(pre, [])) + rest && Idle(rest)
  {
    hide Encode, Segments, Pending, Carried, Wire, SentIn, Idle, Stubs, SomeSent;
    assert Stubs([]) by { NoStubs(); }
    if OnlyStubs(log) {
      pre, rest := log, Pending(log, []);
      FrontOfStream(log, []);
      assert Carried(log) + [] == Carried(log) && rest + [] == rest;
      SegmentsArrive(log, []);
      StubsAloneIdle(rest);
    } else {
      var i: nat :| CutForGood(log, i);
      pre := log[..i];
      var tail := Carried(log[i + 1..]);
      var u := Encode(log[i].m)[..log[i].taken] + tail;
      rest := Pending(pre, []) + u;
      SplitAt(log, i);
      NoneSent(log[i + 1..]);
      assert SentIn(pre) + [] == SentIn(pre);
      FrontOfStream(pre, u);
      SegmentsArrive(pre, []);
      UnfinishedIdle(Pending(pre, []), log[i].m, log[i].taken, tail);
    }
  }

  lemma NoStubs()
    ensures Stubs([])
  {
  }

  /** So parsing it delivers what was sent and accepts its numbers. */
  lemma ParseHarmless(log: seq<Fate>)
    requires Harmless(log)
    ensures var r := Parse(Fresh, Carried(log));
            r.out == Deliveries(SentIn(log)) && r.counters == AcceptAll(Fresh, SeqNos(SentIn(log)))
  {
    hide Parse, Deliveries, Segments, Carried, Wire, SentIn, CountersOver, AcceptAll, SeqNos, Harmless, OnlyStubs;
    var pre, rest := HarmlessStream(log);
    var xs := Segments(pre, []);
    NoStubs();
    SegmentsArrive(pre, []);
    SegmentsKeepSent(Fresh, pre, []);
    ParseSegments(Fresh, xs);
    ParseSplit(Fresh, Wire(xs), rest);
    assert [] + rest == rest;
    var out := Deliveries(SentIn(log));
    assert out + [] == out;
  }

  // ----- the numbers of the messages sent

  ghost predicate Numbered(first: nat, log: seq<Fate>) {
    forall i :: 0 <= i < |log| && log[i].Offered? ==> log[i].m.seqNo == first + i
  }

  lemma CoherentIsNumbered(c: Conn, symbols: nat)
    requires symbols > 0 && Coherent(c, symbols) && Reach(c) <= TWO_32
    ensures Numbered(c.first, c.log)
  {
    hide Coherent;
    forall i | 0 <= i < |c.log| && c.log[i].Offered? ensures c.log[i].m.seqNo == c.first + i {
      CoherentSymbol(c, i, symbols);
      NoWrapAt(c.first + i);
    }
  }

  lemma NoWrapAt(n: nat)
    requires n < TWO_32
    ensures n % TWO_32 == n
  {
  }

  lemma OneMoreSent(first: nat, log: seq<Fate>)
    requires log != [] && first + |log| <= TWO_32
    ensures var tail := log[1..];
            if IsSent(log[0]) then
              && SeqNos(SentIn(log)) == [log[0].m.seqNo] + SeqNos(SentIn(tail))
              && |SentIn(log)| == |SentIn(tail)| + 1
              && Numbers(first, Arrivals(log)) == [first] + Numbers(first + 1, Arrivals(tail))
              && Count(Arrivals(log), true) == Count(Arrivals(tail), true) + 1
            else
              && SentIn(log) == SentIn(tail)
              && Numbers(first, Arrivals(log)) == Numbers(first + 1, Arrivals(tail))
              && Count(Arrivals(log), true) == Count(Arrivals(tail), true)
  {
    hide Encode;
    assert Arrivals(log)[1..] == Arrivals(log[1..]);
    if IsSent(log[0]) { assert SentIn(log)[1..] == SentIn(log[1..]); }
  }

  lemma {:induction false} NumbersSent(first: nat, log: seq<Fate>)
    requires first + |log| <= TWO_32 && Numbered(first, log)
    ensures SeqNos(SentIn(log)) == Numbers(first, Arrivals(log))
    ensures |SentIn(log)| == Count(Arrivals(log), true)
    decreases |log|
  {
    if log != [] {
      hide Encode, SeqNos, SentIn, Numbers, Arrivals, Count, IsSent;
      OneMoreSent(first, log);
      if IsSent(log[0]) { SentIsOffered(log[0]); }
      NumbersSent(first + 1, log[1..]);
    }
  }

  lemma SentIsOffered(x: Fate)
    requires IsSent(x)
    ensures x.Offered?
  {
  }

  /** What does not arrive was skipped or not sent whole. */
  lemma {:induction false} MissingAreLosses(log: seq<Fate>)
    ensures Count(Arrivals(log), false) == SkipsIn(log) + DropsIn(log)
  {
    hide Encode;
    if log != [] {
      assert Arrivals(log)[1..] == Arrivals(log[1..]);
      MissingAreLosses(log[1..]);
    }
  }

  // ----- accounting

  /** The client has exactly what was sent, and its gap counter the numbers skipped or not sent whole between
      its first and last message. */
  ghost predicate Accounted(c: Conn, r: Stream) {
    && r.out == Deliveries(SentIn(c.log))
    && r.counters.parsed == |SentIn(c.log)| && r.counters.bad == 0
    && (SentIn(c.log) == [] ==> r.counters == Fresh)
    && forall f: nat, l: nat :: Spans(Arrivals(c.log), f, l) ==>
         var between := c.log[f..l + 1];
         r.counters.gaps == SkipsIn(between) + DropsIn(between) && r.counters.lastSeq == c.first + l
  }

  lemma GapsBetween(c: Conn, f: nat, l: nat)
    requires c.first >= 1 && Reach(c) <= TWO_32 && Spans(Arrivals(c.log), f, l)
    ensures var r, between := AcceptAll(Fresh, Numbers(c.first, Arrivals(c.log))), c.log[f..l + 1];
            r.gaps == SkipsIn(between) + DropsIn(between) && r.lastSeq == c.first + l
  {
    hide AcceptAll, Numbers, Count, IsSent;
    ConsecutiveGaps(c.first, Arrivals(c.log), f, l);
    assert Arrivals(c.log)[f..l + 1] == Arrivals(c.log[f..l + 1]);
    MissingAreLosses(c.log[f..l + 1]);
  }

  lemma CountersOfSent(c: Conn)
    requires c.first >= 1 && Reach(c) <= TWO_32 && Numbered(c.first, c.log)
    ensures var r := AcceptAll(Fresh, SeqNos(SentIn(c.log)));
            && r.parsed == |SentIn(c.log)| && r.bad == 0 && (SentIn(c.log) == [] ==> r == Fresh)
            && forall f: nat, l: nat :: Spans(Arrivals(c.log), f, l) ==>
                 var between := c.log[f..l + 1];
                 r.gaps == SkipsIn(between) + DropsIn(between) && r.lastSeq == c.first + l
  {
    hide Accept, Numbers, Count, IsSent, SentIn;
    var ms, flags := SentIn(c.log), Arrivals(c.log);
    NumbersSent(c.first, c.log);
    BadIsIdle(Fresh, 0, SeqNos(ms));
    if ms != [] {
      NumbersRise(c.first, flags, 0);
      GapConservation(SeqNos(ms));
      SeqNosLength(ms);
    }
    forall f: nat, l: nat | Spans(flags, f, l)
      ensures var r, between := AcceptAll(Fresh, SeqNos(ms)), c.log[f..l + 1];
              r.gaps == SkipsIn(between) + DropsIn(between) && r.lastSeq == c.first + l
    {
      GapsBetween(c, f, l);
    }
  }

  lemma {:induction false} SeqNosLength(ms: seq<Message>)
    ensures |SeqNos(ms)| == |ms|
  {
    if ms != [] { SeqNosLength(ms[1..]); }
  }

  /** Any coherent connection without wrap and without harmful short sends, in any chunks: all is accounted for. */
  lemma ConnectionAccounting(c: Conn, symbols: nat, chunks: seq<seq<byte>>)
    requires symbols > 0 && Coherent(c, symbols) && Reach(c) <= TWO_32 && Harmless(c.log)
    requires Fits(Start, chunks) && Flatten(chunks) == Carried(c.log)
    ensures Accounted(c, FeedAll(Start, chunks))
  {
    hide Parse, FeedAll, AcceptAll, Deliveries, Carried, Flatten, SentIn, Arrivals, Harmless, Coherent;
    ChunkingInvariance(chunks);
    ParseHarmless(c.log);
    CoherentIsNumbered(c, symbols);
    FirstIsPositive(c, symbols);
    CountersOfSent(c);
  }

  lemma FirstIsPositive(c: Conn, symbols: nat)
    requires symbols > 0 && Coherent(c, symbols)
    ensures c.first >= 1
  {
  }

  /** For every run of the simulator that stays clear of wrap, and each of its connections. */
  lemma SystemAccounting(symbols: nat, xs: seq<Pass>, start: real, fd: Fd, chunks: seq<seq<byte>>)
    requires symbols > 0
    requires var s := Passes(Begin(NewSim, start), symbols, xs).sim;
             && s.next <= TWO_32 && fd in s.conns
             && Harmless(s.conns[fd].log) && Flatten(chunks) == Carried(s.conns[fd].log)
    requires Fits(Start, chunks)
    ensures Accounted(Passes(Begin(NewSim, start), symbols, xs).sim.conns[fd], FeedAll(Start, chunks))
  {
    hide Passes, Accounted, Coherent, FeedAll, Carried, Harmless;
    RunKeeps(Begin(NewSim, start), symbols, xs);
    ConnectionAccounting(Passes(Begin(NewSim, start), symbols, xs).sim.conns[fd], symbols, chunks);
  }

  /** At bounded rates, a run is clear of wrap for as long as (2 * bound + 1) * time stays below 2^32. */
  lemma TimedAccounting(symbols: nat, xs: seq<Pass>, start: real, bound: nat, fd: Fd, chunks: seq<seq<byte>>)
    requires symbols > 0 && Monotone(start, xs)
    requires forall i :: 0 <= i < |xs| ==> xs[i].rate <= bound
    requires (2 * bound + 1) as real * (EndTime(start, xs) - start) < TWO_32 as real
    requires var s := Passes(Begin(NewSim, start), symbols, xs).sim;
             fd in s.conns && Harmless(s.conns[fd].log) && Flatten(chunks) == Carried(s.conns[fd].log)
    requires Fits(Start, chunks)
    ensures Accounted(Passes(Begin(NewSim, start), symbols, xs).sim.conns[fd], FeedAll(Start, chunks))
  {
    hide Passes, Accounted, FeedAll, Carried, Harmless;
    NoWrap(symbols, xs, start, bound);
    SystemAccounting(symbols, xs, start, fd, chunks);
  }

  lemma {:induction false} AllSent(log: seq<Fate>)
    requires forall i :: 0 <= i < |log| ==> IsSent(log[i])
    ensures SkipsIn(log) == 0 && DropsIn(log) == 0 && |SentIn(log)| == |log| && OnlyStubs(log)
  {
    hide Encode;
    if log != [] {
      AllSent(log[1..]);
    }
  }

  /** With faults off, a client whose socket takes every message whole has received every number and counts no gap. */
  lemma FaultFreeHasNoGaps(symbols: nat, xs: seq<Pass>, start: real, fd: Fd, chunks: seq<seq<byte>>)
    requires symbols > 0 && forall i :: 0 <= i < |xs| ==> !xs[i].fault
    requires var s := Passes(Begin(NewSim, start), symbols, xs).sim;
             && s.next <= TWO_32 && fd in s.conns && Flatten(chunks) == Carried(s.conns[fd].log)
             && forall i :: 0 <= i < |s.conns[fd].log| && s.conns[fd].log[i].Offered? ==> IsSent(s.conns[fd].log[i])
    requires Fits(Start, chunks)
    ensures var r, c := FeedAll(Start, chunks).counters, Passes(Begin(NewSim, start), symbols, xs).sim.conns[fd];
            r.gaps == 0 && r.bad == 0 && r.parsed == |c.log|
  {
    hide Passes, Carried, FeedAll, IsSent, Flatten, SentIn, Deliveries, SkipsIn, DropsIn, Coherent;
    var c := Passes(Begin(NewSim, start), symbols, xs).sim.conns[fd];
    FaultPattern(symbols, xs, start, false);
    forall i | 0 <= i < |c.log| ensures IsSent(c.log[i]) {
      assert FaultFits(c.log[i], false);
    }
    AllSent(c.log);
    SystemAccounting(symbols, xs, start, fd, chunks);
    if c.log != [] {
      assert Spans(Arrivals(c.log), 0, |c.log| - 1);
      assert c.log[0..|c.log|] == c.log;
    }
  }

  // ----- the client at the end of a connection

  lemma {:induction false} SentFrom(log: seq<Fate>, j: nat)
    requires j < |SentIn(log)|
    ensures exists i :: 0 <= i < |log| && log[i].Offered? && log[i].m == SentIn(log)[j]
  {
    hide Encode;
    var tail, here := log[1..], if IsSent(log[0]) then 1 else 0;
    if j >= here {
      SentFrom(tail, j - here);
      var i :| 0 <= i < |tail| && tail[i].Offered? && tail[i].m == SentIn(tail)[j - here];
      assert log[i + 1] == tail[i];
    } else {
      assert log[0].m == SentIn(log)[j];
    }
  }

  lemma SentInRange(c: Conn, symbols: nat)
    requires 0 < symbols <= MAX_SYMBOLS && Coherent(c, symbols)
    ensures AllInRange(SentIn(c.log))
  {
    hide SentIn, Coherent;
    forall j | 0 <= j < |SentIn(c.log)| ensures InRange(SentIn(c.log)[j]) {
      SentFrom(c.log, j);
      var i :| 0 <= i < |c.log| && c.log[i].Offered? && c.log[i].m == SentIn(c.log)[j];
      CoherentSymbol(c, i, symbols);
    }
  }

  lemma CoherentSymbol(c: Conn, i: nat, symbols: nat)
    requires symbols > 0 && Coherent(c, symbols) && i < |c.log| && c.log[i].Offered?
    ensures c.log[i].m.sym < symbols && c.log[i].m.seqNo == (c.first + i) % TWO_32
  {
    hide FateFits;
    FateSymbol(c.log[i], (c.first + i) % TWO_32, EndsSkipped(c.log[..i]), symbols);
  }

  lemma FateSymbol(x: Fate, n: u32, afterSkip: bool, symbols: nat)
    requires symbols > 0 && FateFits(x, n, afterSkip, symbols) && x.Offered?
    ensures x.m.sym < symbols && x.m.seqNo == n
  {
  }

  /** The client's statistics account for everything, and its cache shows, symbol by symbol, the latest of what was
      sent. */
  ghost predicate Served(h: Handler, c: Conn, clock: nat -> u64)
    requires h.Valid()
    reads h, h.parser, h.parser.buf, h.cache.states, h.lat, h.lat.buckets
  {
    && h.Shows(SentIn(c.log), clock)
    && Accounted(c, Stream(h.parser.counters, Deliveries(SentIn(c.log)), h.parser.Residue()))
    && forall k :: 0 <= k < MAX_SYMBOLS ==> EntryShows(h.cache.states[k], k, SentIn(c.log))
  }

  /** A client at the end of such a connection. */
  method Subscribe(ghost c: Conn, ghost symbols: nat, chunks: seq<seq<byte>>, clock: nat -> u64) returns (h: Handler)
    requires 0 < symbols <= MAX_SYMBOLS && Coherent(c, symbols) && Reach(c) <= TWO_32 && Harmless(c.log)
    requires Flatten(chunks) == Carried(c.log) && Receivable(chunks)
    ensures fresh(h) && h.Valid() && Served(h, c, clock)
  {
    hide Parse, FeedAll, Deliveries, Carried, SentIn, Harmless, Coherent, EntryShows, Reflects, Accounted;
    hide Heard, Decoded;
    var ms := SentIn(c.log);
    SentInRange(c, symbols);
    HeardIs(chunks);
    SafeFits(Start, chunks);
    ConnectionAccounting(c, symbols, chunks);
    AccountedOut(c, FeedAll(Start, chunks));
    DecodedDeliveries(ms);
    assert [] + ms == ms;
    h := new Handler();
    var _ := h.Run(chunks, 0, clock, []);
    LatestShown(h.cache.states[..], h.lat.View(), h.messages, ms, clock);
    assert forall k :: 0 <= k < MAX_SYMBOLS ==> h.cache.states[..][k] == h.cache.states[k];
    assert FeedAll(Start, chunks) == Stream(h.parser.counters, Deliveries(ms), h.parser.Residue());
  }

  lemma AccountedOut(c: Conn, r: Stream)
    requires Accounted(c, r)
    ensures r.out == Deliveries(SentIn(c.log))
  {
  }

  // ----- the whole system

  /** The size of the next piece a receive call returns: what is asked for, within its buffer. */
  function PieceSize(left: nat, sizes: seq<nat>): (n: nat)
    requires left > 0
    ensures 0 < n <= left && n <= RECV_BUF
  {
    Part(if sizes == [] || sizes[0] == 0 then RECV_BUF else Part(sizes[0], RECV_BUF), left)
  }

  /** The bytes of a socket as receive calls return them, in pieces of these sizes. */
  function Received(s: seq<byte>, sizes: seq<nat>): (chunks: seq<seq<byte>>)
    ensures Flatten(chunks) == s && forall i :: 0 <= i < |chunks| ==> |chunks[i]| <= RECV_BUF
    decreases |s|
  {
    if s == [] then []
    else
      var n := PieceSize(|s|, sizes);
      [s[..n]] + Received(s[n..], if sizes == [] then [] else sizes[1..])
  }

  /** A simulator lives through any passes of its loop, and a client then receives what one of its sockets has taken. */
  method WholeSystem(symbols: nat, xs: seq<Pass>, start: real, fd: Fd, sizes: seq<nat>, clock: nat -> u64)
    returns (exchange: ExchangeSimulator, h: Handler)
    requires 0 < symbols <= MAX_SYMBOLS
    requires var s := Passes(Begin(NewSim, start), symbols, xs).sim;
             s.next <= TWO_32 && fd in s.conns && Harmless(s.conns[fd].log)
    ensures fresh(exchange) && exchange.Valid() && exchange.sim == Passes(Begin(NewSim, start), symbols, xs).sim
    ensures fresh(h) && h.Valid() && fd in exchange.sim.conns && Served(h, exchange.sim.conns[fd], clock)
  {
    hide Passes, Harmless, Coherent, Served, Settled, Carried;
    exchange := new ExchangeSimulator(symbols);
    var attempts, beats := exchange.Run(xs, start);
    ghost var c := exchange.sim.conns[fd];
    h := Subscribe(c, symbols, Received(exchange.wires[fd], sizes), clock);
  }
}
