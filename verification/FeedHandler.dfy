/**
  The receiving client: chunks go through the parser, and every delivered message updates the
  cache, the latency histogram and the message counter.
 */
module FeedHandler {
  import opened Bytes
  import opened Checksum
  import opened Protocol
  import opened Reassembly
  import opened Recovery
  import opened Market
  import opened Cache
  import opened StreamParser
  import opened Latency
  import Histogram

  /** The cache update a message stands for. */
  function UpdateOf(m: Message): Update
    requires !m.Heartbeat?
  {
    if m.Trade? then TradeUpdate(m.price, m.qty, m.ts)
    else QuoteUpdate(m.bid, m.bidQty, m.ask, m.askQty, m.ts)
  }

  /** The updates that a list of messages makes to one symbol, in order. */
  function UpdatesFor(sym: nat, ms: seq<Message>): seq<Update> {
    if ms == [] then []
    else
      var before, m := UpdatesFor(sym, ms[..|ms| - 1]), ms[|ms| - 1];
      if !m.Heartbeat? && m.sym == sym then before + [UpdateOf(m)] else before
  }

  /** Receive time minus send time, in 64-bit arithmetic. */
  function Latency64(recv: u64, ts: u64): u64 {
    (recv as nat + TWO_64 - ts) % TWO_64
  }

  /** The latencies recorded for the trades and quotes among the messages; clock(i) is the time read for the i-th. */
  function Samples(ms: seq<Message>, clock: nat -> u64): seq<u64> {
    if ms == [] then []
    else
      var n := |ms| - 1;
      var before, m := Samples(ms[..n], clock), ms[n];
      if m.Heartbeat? then before else before + [Latency64(clock(n), m.ts)]
  }

  /** The message a callback reads from its frame. */
  function MessageOf(d: Delivery): Message
    requires GoodDelivery(d)
  {
    FrameSize(d);
    match d
    case OnTrade(f) => ReadTrade(f)
    case OnQuote(f) => ReadQuote(f)
    case OnHeartbeat(f) => ReadHeartbeat(f)
  }

  /** A frame has the length its callback relies on, and the message read is the one the frame encodes. */
  lemma FrameSize(d: Delivery)
    requires GoodDelivery(d)
    ensures |d.frame| == if d.OnTrade? then 32 else if d.OnQuote? then 44 else 20
    ensures TypeOf(d.frame) == if d.OnTrade? then 1 else if d.OnQuote? then 2 else 3
  {
    hide ChecksumOk;
    var lo: nat, hi: nat := d.frame[0], d.frame[1];
    assert TypeOf(d.frame) == lo + 0x100 * hi;
  }

  function Decoded(out: seq<Delivery>): (ms: seq<Message>)
    requires WellDelivered(out)
    ensures |ms| == |out|
  {
    if out == [] then [] else Decoded(out[..|out| - 1]) + [MessageOf(out[|out| - 1])]
  }

  /** Every symbol id the handler indexes its cache with is in range. */
  predicate InRange(m: Message) {
    m.Heartbeat? || m.sym < MAX_SYMBOLS
  }

  ghost predicate AllInRange(ms: seq<Message>) {
    forall i :: 0 <= i < |ms| ==> InRange(ms[i])
  }

  /** Cache entries, tracker and message counter after these messages, from a fresh start. */
  ghost predicate Reflects(entries: seq<Entry>, t: Histogram.Tracker, messages: u64,
                           ms: seq<Message>, clock: nat -> u64) {
    && |entries| == MAX_SYMBOLS
    && (forall k :: 0 <= k < MAX_SYMBOLS ==> entries[k] == EntryAfter(UpdatesFor(k, ms)))
    && t == Histogram.RecordAll(Samples(ms, clock))
    && messages == |ms| % TWO_64
  }

  lemma UpdatesOneMore(k: nat, ms: seq<Message>, m: Message)
    ensures UpdatesFor(k, ms + [m])
         == if !m.Heartbeat? && m.sym == k then UpdatesFor(k, ms) + [UpdateOf(m)] else UpdatesFor(k, ms)
  {
    assert (ms + [m])[..|ms + [m]| - 1] == ms;
  }

  lemma SamplesOneMore(ms: seq<Message>, m: Message, clock: nat -> u64)
    ensures Histogram.RecordAll(Samples(ms + [m], clock))
         == var t := Histogram.RecordAll(Samples(ms, clock));
            if m.Heartbeat? then t else Histogram.Record(t, Latency64(clock(|ms|), m.ts))
  {
    hide Histogram.Record;
    assert (ms + [m])[..|ms + [m]| - 1] == ms;
    var xs, x := Samples(ms, clock), Latency64(clock(|ms|), m.ts);
    assert (xs + [x])[..|xs + [x]| - 1] == xs;
  }

  /** The effect of one callback keeps the state a reflection of the messages so far. */
  lemma ReflectsOneMore(entries: seq<Entry>, t: Histogram.Tracker, n: u64,
                        ms: seq<Message>, clock: nat -> u64, m: Message)
    requires Reflects(entries, t, n, ms, clock) && InRange(m)
    ensures var es := if m.Heartbeat? then entries else entries[m.sym := Committed(entries[m.sym], UpdateOf(m))];
            var u := if m.Heartbeat? then t else Histogram.Record(t, Latency64(clock(|ms|), m.ts));
            Reflects(es, u, Bump64(n), ms + [m], clock)
  {
    hide Committed, EntryAfter, UpdatesFor, Samples, UpdateOf, Histogram.Record, Histogram.RecordAll;
    SamplesOneMore(ms, m, clock);
    forall k | 0 <= k < MAX_SYMBOLS
      ensures EntryAfter(UpdatesFor(k, ms + [m]))
           == if !m.Heartbeat? && m.sym == k then Committed(EntryAfter(UpdatesFor(k, ms)), UpdateOf(m))
              else EntryAfter(UpdatesFor(k, ms))
    {
      UpdatesOneMore(k, ms, m);
      if !m.Heartbeat? && m.sym == k { EntryOneMore(UpdatesFor(k, ms), UpdateOf(m)); }
    }
  }

  class Handler {
    const parser: Parser
    const cache: SymbolCache
    const lat: LatencyTracker
    var messages: u64

    ghost predicate Valid()
      reads this, parser, lat
    {
      && parser.Valid() && cache.Valid() && lat.Valid()
      && var a: object, b: object := parser.buf, lat.buckets; a != b
    }

    ghost predicate Shows(ms: seq<Message>, clock: nat -> u64)
      requires Valid()
      reads this, parser, cache.states, lat, lat.buckets
    {
      Reflects(cache.states[..], lat.View(), messages, ms, clock)
    }

    constructor ()
      ensures Valid() && fresh(parser) && fresh(parser.buf) && fresh(cache.states) && fresh(lat) && fresh(lat.buckets)
      ensures forall clock: nat -> u64 :: Shows([], clock)
    {
      parser := new Parser();
      cache := new SymbolCache();
      lat := new LatencyTracker();
      messages := 0;
      new;
      assert EntryAfter([]) == Entry(0, Blank);
    }

    method OnTrade(f: seq<byte>, recv: u64)
      requires Valid() && |f| >= 32 && InRange(ReadTrade(f))
      modifies this`messages, cache.states, lat, lat.buckets
      ensures Valid()
      ensures var m := ReadTrade(f);
              && cache.states[..] == old(cache.states[..])[m.sym := Committed(old(cache.states[m.sym]),
                                                                              TradeUpdate(m.price, m.qty, m.ts))]
              && lat.View() == Histogram.Record(old(lat.View()), Latency64(recv, m.ts))
      ensures messages == Bump64(old(messages))
    {
      hide Committed, Histogram.Record, Latency64, Bump64, Field64, Field32, Field16, SeqOf;
      var ts, sym := Field64(f, 6), Field16(f, 14);
      lat.Record(Latency64(recv, ts));
      cache.UpdateTrade(sym, Field64(f, 16), Field32(f, 24), ts);
      messages := Bump64(messages);
    }

    method OnQuote(f: seq<byte>, recv: u64)
      requires Valid() && |f| >= 44 && InRange(ReadQuote(f))
      modifies this`messages, cache.states, lat, lat.buckets
      ensures Valid()
      ensures var m := ReadQuote(f);
              && cache.states[..]
                 == old(cache.states[..])[m.sym := Committed(old(cache.states[m.sym]),
                                                             QuoteUpdate(m.bid, m.bidQty, m.ask, m.askQty, m.ts))]
              && lat.View() == Histogram.Record(old(lat.View()), Latency64(recv, m.ts))
      ensures messages == Bump64(old(messages))
    {
      hide Committed, Histogram.Record, Latency64, Bump64, Field64, Field32, Field16, SeqOf;
      var ts, sym := Field64(f, 6), Field16(f, 14);
      lat.Record(Latency64(recv, ts));
      cache.UpdateQuote(sym, Field64(f, 16), Field32(f, 24), Field64(f, 28), Field32(f, 36), ts);
      messages := Bump64(messages);
    }

    method OnHeartbeat(f: seq<byte>)
      modifies this`messages
      ensures messages == Bump64(old(messages))
    {
      messages := Bump64(messages);
    }

    /** One callback. */
    method Dispatch(d: Delivery, recv: u64)
      requires Valid() && GoodDelivery(d) && InRange(MessageOf(d))
      modifies this`messages, cache.states, lat, lat.buckets
      ensures Valid()
      ensures var m := MessageOf(d);
              && (m.Heartbeat? ==> cache.states[..] == old(cache.states[..]))
              && (!m.Heartbeat? ==>
                    cache.states[..]
                    == old(cache.states[..])[m.sym := Committed(old(cache.states[m.sym]), UpdateOf(m))])
              && lat.View() == (if m.Heartbeat? then old(lat.View())
                                else Histogram.Record(old(lat.View()), Latency64(recv, m.ts)))
      ensures messages == Bump64(old(messages))
    {
      hide Committed, Histogram.Record, Latency64, Bump64, Field64, Field32, Field16, SeqOf, GoodDelivery;
      FrameSize(d);
      match d {
        case OnTrade(f) => OnTrade(f, recv);
        case OnQuote(f) => OnQuote(f, recv);
        case OnHeartbeat(f) => OnHeartbeat(f);
      }
    }

    /** The callbacks for everything one feed delivered, the first being message number |ms|. */
    method Deliver(out: seq<Delivery>, first: nat, clock: nat -> u64, ghost ms: seq<Message>)
      requires Valid() && first == |ms| && Shows(ms, clock)
      requires WellDelivered(out) && AllInRange(Decoded(out))
      modifies this`messages, cache.states, lat, lat.buckets
      ensures Valid() && Shows(ms + Decoded(out), clock)
    {
      hide Reflects, MessageOf, GoodDelivery, Committed, Histogram.Record;
      assert out[..0] == [] && ms + [] == ms;
      for i := 0 to |out|
        invariant Valid() && Shows(ms + Decoded(out[..i]), clock)
      {
        ghost var sofar := ms + Decoded(out[..i]);
        DecodedAt(out, i);
        assert |sofar| == first + i;
        assert ms + Decoded(out[..i + 1]) == sofar + [MessageOf(out[i])];
        var m := MessageOf(out[i]);
        ReflectsOneMore(cache.states[..], lat.View(), messages, sofar, clock, m);
        Dispatch(out[i], clock(first + i));
      }
      assert out[..|out|] == out;
    }

    /** The handler's life on one connection: reset the parser, then feed it whatever chunks arrive. */
    method Run(chunks: seq<seq<byte>>, first: nat, clock: nat -> u64, ghost ms: seq<Message>) returns (received: nat)
      requires Valid() && first == |ms| && Shows(ms, clock)
      requires Receivable(chunks) && AllInRange(Heard(chunks))
      modifies this`messages, parser, parser.buf, cache.states, lat, lat.buckets
      ensures Valid() && received == |Heard(chunks)| && Shows(ms + Heard(chunks), clock)
      ensures var r := Parse(Fresh, Flatten(chunks)); parser.counters == r.counters && parser.Residue() == r.rest
    {
      hide Reflects, MessageOf, GoodDelivery, InRange, Parse, FeedAll, Reassembly.Feed, Decoded;
      hide Flatten, Heard, WellDelivered, AllInRange;
      parser.Reset();
      HeardIs(chunks);
      NothingFedYet();
      ghost var state := Start;
      received := 0;
      assert parser.Residue() == [] && chunks[..0] == [] && ms + [] == ms;
      for i := 0 to |chunks|
        invariant Valid() && received == |state.out|
        invariant state == FeedAll(Start, chunks[..i])
        invariant state == Stream(parser.counters, state.out, parser.Residue())
        invariant state.out <= FeedAll(Start, chunks).out
        invariant WellDelivered(state.out) && Shows(ms + Decoded(state.out), clock)
      {
        FeedPrefix(Start, chunks, i);
        FeedFrom(state, chunks[i]);
        ghost var old_ := state;
        var out := parser.Feed(chunks[i]);
        state := Reassembly.Feed(state, chunks[i]);
        DecodedParts(old_.out, out, FeedAll(Start, chunks).out);
        Deliver(out, first + received, clock, ms + Decoded(old_.out));
        assert (ms + Decoded(old_.out)) + Decoded(out) == ms + (Decoded(old_.out) + Decoded(out));
        received := received + |out|;
      }
      assert chunks[..|chunks|] == chunks;
    }

    /** The handler's life over successive connections: the parser starts anew on each, cache and histogram carry on. */
    method Serve(sessions: seq<seq<seq<byte>>>, clock: nat -> u64)
      requires Valid() && Shows([], clock)
      requires forall i :: 0 <= i < |sessions| ==> Receivable(sessions[i]) && AllInRange(Heard(sessions[i]))
      modifies this`messages, parser, parser.buf, cache.states, lat, lat.buckets
      ensures Valid() && Shows(HeardInAll(sessions), clock)
    {
      hide Reflects, Heard, InRange, Receivable, HeardInAll, Parse, Decoded, Flatten, Samples, UpdatesFor, AllInRange;
      var n := 0;
      NothingHeard();
      assert sessions[..0] == [];
      for i := 0 to |sessions|
        invariant Valid() && n == |HeardInAll(sessions[..i])| && Shows(HeardInAll(sessions[..i]), clock)
      {
        HeardOneMore(sessions, i);
        var received := Run(sessions[i], n, clock, HeardInAll(sessions[..i]));
        n := n + received;
      }
      assert sessions[..|sessions|] == sessions;
    }
  }

  ghost predicate Receivable(chunks: seq<seq<byte>>) {
    forall i :: 0 <= i < |chunks| ==> |chunks[i]| <= RECV_BUF
  }

  /** The messages that one connection brings, whatever its bytes. */
  ghost function Heard(chunks: seq<seq<byte>>): (ms: seq<Message>)
    ensures var out := Parse(Fresh, Flatten(chunks)).out; WellDelivered(out) && ms == Decoded(out)
  {
    DeliveriesDriveCounters(Fresh, Flatten(chunks));
    Decoded(Parse(Fresh, Flatten(chunks)).out)
  }

  ghost function HeardInAll(sessions: seq<seq<seq<byte>>>): seq<Message> {
    if sessions == [] then [] else HeardInAll(sessions[..|sessions| - 1]) + Heard(sessions[|sessions| - 1])
  }

  lemma NothingHeard()
    ensures HeardInAll([]) == []
  {
  }

  lemma HeardOneMore(sessions: seq<seq<seq<byte>>>, i: nat)
    requires i < |sessions|
    ensures HeardInAll(sessions[..i + 1]) == HeardInAll(sessions[..i]) + Heard(sessions[i])
  {
    hide Heard;
    assert sessions[..i + 1][..i] == sessions[..i];
  }

  lemma HeardIs(chunks: seq<seq<byte>>)
    requires Receivable(chunks)
    ensures FeedAll(Start, chunks) == Parse(Fresh, Flatten(chunks))
    ensures WellDelivered(FeedAll(Start, chunks).out) && Decoded(FeedAll(Start, chunks).out) == Heard(chunks)
  {
    hide Parse, FeedAll, MessageOf, GoodDelivery;
    SafeFits(Start, chunks);
    ChunkingInvariance(chunks);
    var ms := Heard(chunks);
    assert ms == Decoded(Parse(Fresh, Flatten(chunks)).out);
  }

  lemma NothingFedYet()
    ensures FeedAll(Start, []) == Start && WellDelivered([]) && Decoded([]) == []
  {
  }

  lemma DecodedAt(out: seq<Delivery>, i: nat)
    requires WellDelivered(out) && i < |out|
    ensures Decoded(out[..i + 1]) == Decoded(out[..i]) + [MessageOf(out[i])]
    ensures AllInRange(Decoded(out)) ==> InRange(MessageOf(out[i]))
  {
    hide MessageOf, GoodDelivery, InRange;
    assert out[..i + 1][..i] == out[..i];
    DecodedIndex(out, i);
  }

  lemma {:induction false} DecodedIndex(out: seq<Delivery>, i: nat)
    requires WellDelivered(out) && i < |out|
    ensures Decoded(out)[i] == MessageOf(out[i])
  {
    hide MessageOf, GoodDelivery;
    if i < |out| - 1 { DecodedIndex(out[..|out| - 1], i); }
  }

  lemma {:induction false} DecodedAppend(a: seq<Delivery>, b: seq<Delivery>)
    requires WellDelivered(a) && WellDelivered(b)
    ensures WellDelivered(a + b) && Decoded(a + b) == Decoded(a) + Decoded(b)
    decreases |b|
  {
    hide MessageOf, GoodDelivery;
    if b == [] {
      assert a + b == a;
    } else {
      assert (a + b)[..|a + b| - 1] == a + b[..|b| - 1];
      DecodedAppend(a, b[..|b| - 1]);
    }
  }

  /** What holds of all deliveries holds of those made by one feed. */
  lemma DecodedParts(before: seq<Delivery>, out: seq<Delivery>, all: seq<Delivery>)
    requires WellDelivered(all) && AllInRange(Decoded(all)) && before + out <= all
    ensures WellDelivered(before) && WellDelivered(out) && AllInRange(Decoded(out))
    ensures WellDelivered(before + out) && Decoded(before + out) == Decoded(before) + Decoded(out)
  {
    hide MessageOf, GoodDelivery, InRange;
    forall i | 0 <= i < |before| ensures GoodDelivery(before[i]) {
      assert before[i] == all[i];
    }
    forall i | 0 <= i < |out| ensures GoodDelivery(out[i]) {
      assert out[i] == all[|before| + i];
    }
    DecodedAppend(before, out);
    forall i | 0 <= i < |out| ensures InRange(Decoded(out)[i]) {
      DecodedIndex(out, i);
      DecodedIndex(all, |before| + i);
      assert out[i] == all[|before| + i];
    }
  }

  /** Deliveries only accumulate from feed to feed. */
  lemma {:induction false} FeedAllGrows(p: Stream, chunks: seq<seq<byte>>)
    requires |p.rest| < MAX_MSG_SIZE
    ensures p.out <= FeedAll(p, chunks).out
    decreases |chunks|
  {
    hide Parse;
    if chunks != [] { FeedAllGrows(Reassembly.Feed(p, chunks[0]), chunks[1..]); }
  }

  lemma {:induction false} FeedPrefix(p: Stream, chunks: seq<seq<byte>>, i: nat)
    requires |p.rest| < MAX_MSG_SIZE && i < |chunks|
    ensures FeedAll(p, chunks[..i + 1]) == Reassembly.Feed(FeedAll(p, chunks[..i]), chunks[i])
    ensures FeedAll(p, chunks[..i + 1]).out <= FeedAll(p, chunks).out
    decreases i
  {
    hide Parse, Reassembly.Feed;
    if i == 0 {
      assert chunks[..1][1..] == [];
      FeedAllGrows(Reassembly.Feed(p, chunks[0]), chunks[1..]);
    } else {
      assert chunks[..i + 1][1..] == chunks[1..][..i] && chunks[..i][1..] == chunks[1..][..i - 1];
      FeedPrefix(Reassembly.Feed(p, chunks[0]), chunks[1..], i - 1);
    }
  }

  // ----- the client as a refinement of a fold over the messages sent

  lemma EncodedDelivery(m: Message)
    ensures GoodDelivery(Reassembly.Dispatch(Encode(m))) && MessageOf(Reassembly.Dispatch(Encode(m))) == m
  {
    DecodeEncode(m);
    EncodeIsFrame(m);
    DispatchIsGood(Encode(m));
    FrameSize(Reassembly.Dispatch(Encode(m)));
    hide Encode, IsFrame, ReadTrade, ReadQuote, ReadHeartbeat;
  }

  lemma DecodedDeliveries(ms: seq<Message>)
    ensures WellDelivered(Deliveries(ms)) && Decoded(Deliveries(ms)) == ms
  {
    hide MessageOf, GoodDelivery, Encode, Deliveries;
    forall i | 0 <= i < |ms| ensures GoodDelivery(Deliveries(ms)[i]) && MessageOf(Deliveries(ms)[i]) == ms[i] {
      DeliveriesAt(ms, i);
      EncodedDelivery(ms[i]);
    }
    assert WellDelivered(Deliveries(ms));
    forall i | 0 <= i < |ms| ensures Decoded(Deliveries(ms))[i] == ms[i] {
      DecodedIndex(Deliveries(ms), i);
    }
  }

  /** Whatever the chunks and the damage, the messages a handler acts on are exactly the intact ones, in order. */
  lemma HandlerSeesKept(xs: seq<Segment>)
    requires Arrives(xs)
    ensures var out := Parse(Fresh, Wire(xs)).out; WellDelivered(out) && Decoded(out) == Kept(xs)
  {
    hide Parse, MessageOf, GoodDelivery;
    ParseSegments(Fresh, xs);
    DecodedDeliveries(Kept(xs));
  }

  lemma {:induction false} UpdatesAreQuotesAndTrades(k: nat, ms: seq<Message>)
    ensures QuotesAndTrades(UpdatesFor(k, ms))
  {
    if ms != [] { UpdatesAreQuotesAndTrades(k, ms[..|ms| - 1]); }
  }

  // ----- what an entry shows, told from the messages alone

  ghost predicate IsLastQuote(ms: seq<Message>, k: nat, i: nat) {
    && i < |ms| && ms[i].Quote? && ms[i].sym == k
    && forall j :: i < j < |ms| ==> !(ms[j].Quote? && ms[j].sym == k)
  }

  ghost predicate IsLastTrade(ms: seq<Message>, k: nat, i: nat) {
    && i < |ms| && ms[i].Trade? && ms[i].sym == k
    && forall j :: i < j < |ms| ==> !(ms[j].Trade? && ms[j].sym == k)
  }

  /** A trade or quote of symbol k with none after it. */
  ghost predicate IsLastOfBoth(ms: seq<Message>, k: nat, i: nat) {
    && i < |ms| && !ms[i].Heartbeat? && ms[i].sym == k
    && forall j :: i < j < |ms| ==> ms[j].Heartbeat? || ms[j].sym != k
  }

  /** The positions of the trades and quotes of symbol k. */
  ghost function Concerning(ms: seq<Message>, k: nat): set<nat> {
    set i: nat | i < |ms| && !ms[i].Heartbeat? && ms[i].sym == k
  }

  ghost predicate ShowsQuotes(s: MarketState, k: nat, ms: seq<Message>) {
    && (forall i: nat :: IsLastQuote(ms, k, i) ==>
          && s.bestBid == ms[i].bid && s.bidQty == ms[i].bidQty
          && s.bestAsk == ms[i].ask && s.askQty == ms[i].askQty)
    && ((forall i :: 0 <= i < |ms| ==> !(ms[i].Quote? && ms[i].sym == k)) ==>
          s.bestBid == 0 && s.bidQty == 0 && s.bestAsk == 0 && s.askQty == 0)
  }

  ghost predicate ShowsTrades(s: MarketState, k: nat, ms: seq<Message>) {
    && (forall i: nat :: IsLastTrade(ms, k, i) ==> s.lastPrice == ms[i].price && s.lastQty == ms[i].qty)
    && ((forall i :: 0 <= i < |ms| ==> !(ms[i].Trade? && ms[i].sym == k)) ==> s.lastPrice == 0 && s.lastQty == 0)
  }

  ghost predicate ShowsTimes(s: MarketState, k: nat, ms: seq<Message>) {
    && (forall i: nat :: IsLastOfBoth(ms, k, i) ==> s.lastTime == ms[i].ts)
    && s.updates == |Concerning(ms, k)| % TWO_64
  }

  /** The entry of symbol k shows its last quote, its last trade, the time of the last of either, how many there were,
      and twice that as version. */
  ghost predicate EntryShows(e: Entry, k: nat, ms: seq<Message>) {
    && ShowsQuotes(e.fields, k, ms) && ShowsTrades(e.fields, k, ms) && ShowsTimes(e.fields, k, ms)
    && e.version == 2 * |Concerning(ms, k)| % TWO_32
  }

  lemma ConcerningOneMore(ms: seq<Message>, m: Message, k: nat)
    ensures |Concerning(ms + [m], k)| == |Concerning(ms, k)| + (if !m.Heartbeat? && m.sym == k then 1 else 0)
  {
    var n := |ms|;
    if !m.Heartbeat? && m.sym == k {
      assert Concerning(ms + [m], k) == Concerning(ms, k) + {n};
    } else {
      assert Concerning(ms + [m], k) == Concerning(ms, k);
    }
  }

  lemma QuotesOneMore(s: MarketState, k: nat, ms: seq<Message>, m: Message)
    requires ShowsQuotes(s, k, ms)
    ensures var t := if !m.Heartbeat? && m.sym == k then Updated(s, UpdateOf(m)) else s;
            ShowsQuotes(t, k, ms + [m])
  {
    var ns := ms + [m];
    forall i: nat | IsLastQuote(ns, k, i) && i < |ms| ensures IsLastQuote(ms, k, i) {
      forall j | i < j < |ms| ensures !(ms[j].Quote? && ms[j].sym == k) { assert ns[j] == ms[j]; }
    }
    assert ns[|ms|] == m;
    assert forall i :: 0 <= i < |ms| ==> ns[i] == ms[i];
  }

  lemma TradesOneMore(s: MarketState, k: nat, ms: seq<Message>, m: Message)
    requires ShowsTrades(s, k, ms)
    ensures var t := if !m.Heartbeat? && m.sym == k then Updated(s, UpdateOf(m)) else s;
            ShowsTrades(t, k, ms + [m])
  {
    var ns := ms + [m];
    forall i: nat | IsLastTrade(ns, k, i) && i < |ms| ensures IsLastTrade(ms, k, i) {
      forall j | i < j < |ms| ensures !(ms[j].Trade? && ms[j].sym == k) { assert ns[j] == ms[j]; }
    }
    assert ns[|ms|] == m;
    assert forall i :: 0 <= i < |ms| ==> ns[i] == ms[i];
  }

  lemma TimesOneMore(s: MarketState, k: nat, ms: seq<Message>, m: Message)
    requires ShowsTimes(s, k, ms)
    ensures var t := if !m.Heartbeat? && m.sym == k then Updated(s, UpdateOf(m)) else s;
            ShowsTimes(t, k, ms + [m])
  {
    hide Concerning;
    var ns := ms + [m];
    ConcerningOneMore(ms, m, k);
    forall i: nat | IsLastOfBoth(ns, k, i) && i < |ms| ensures IsLastOfBoth(ms, k, i) {
      forall j | i < j < |ms| ensures ms[j].Heartbeat? || ms[j].sym != k { assert ns[j] == ms[j]; }
    }
    assert ns[|ms|] == m;
  }

  lemma EntryShowsOneMore(us: seq<Update>, k: nat, ms: seq<Message>, m: Message)
    requires us == UpdatesFor(k, ms) && |us| == |Concerning(ms, k)| && EntryShows(EntryAfter(us), k, ms)
    ensures var vs := UpdatesFor(k, ms + [m]);
            |vs| == |Concerning(ms + [m], k)| && EntryShows(EntryAfter(vs), k, ms + [m])
  {
    var s := Fold(us);
    QuotesOneMore(s, k, ms, m);
    TradesOneMore(s, k, ms, m);
    TimesOneMore(s, k, ms, m);
    ConcerningOneMore(ms, m, k);
    UpdatesOneMore(k, ms, m);
    hide ShowsQuotes, ShowsTrades, ShowsTimes, Concerning, UpdatesFor, UpdateOf, Updated;
    if !m.Heartbeat? && m.sym == k {
      assert (us + [UpdateOf(m)])[..|us|] == us;
    }
  }

  lemma {:induction false} EntryShowsMessages(k: nat, ms: seq<Message>)
    ensures |UpdatesFor(k, ms)| == |Concerning(ms, k)|
    ensures EntryShows(EntryAfter(UpdatesFor(k, ms)), k, ms)
  {
    if ms == [] {
      assert Concerning(ms, k) == {};
    } else {
      hide EntryShows, EntryAfter, UpdatesFor, Concerning;
      var n := |ms| - 1;
      EntryShowsMessages(k, ms[..n]);
      EntryShowsOneMore(UpdatesFor(k, ms[..n]), k, ms[..n], ms[n]);
      assert ms[..n] + [ms[n]] == ms;
    }
  }

  /** A client that reflects these messages shows the latest of them, symbol by symbol. */
  lemma LatestShown(entries: seq<Entry>, t: Histogram.Tracker, n: u64, ms: seq<Message>, clock: nat -> u64)
    requires Reflects(entries, t, n, ms, clock)
    ensures forall k :: 0 <= k < MAX_SYMBOLS ==> EntryShows(entries[k], k, ms)
  {
    hide EntryShows, EntryAfter, UpdatesFor, Samples, Histogram.RecordAll;
    forall k | 0 <= k < MAX_SYMBOLS ensures EntryShows(entries[k], k, ms) {
      EntryShowsMessages(k, ms);
    }
  }

  // ----- what the histogram is fed

  /** The number of trades and quotes among the messages. */
  ghost function Timed(ms: seq<Message>): set<nat> {
    set i: nat | i < |ms| && !ms[i].Heartbeat?
  }

  /** Each trade or quote adds one sample, in order: the clock reading minus its time stamp, modulo 2^64. */
  lemma {:induction false} SampleOf(ms: seq<Message>, clock: nat -> u64, i: nat)
    requires i < |ms| && !ms[i].Heartbeat?
    ensures var p := |Timed(ms[..i])|;
            && p < |Samples(ms, clock)|
            && Samples(ms, clock)[p] as int
               == clock(i) as int - ms[i].ts as int + (if clock(i) >= ms[i].ts then 0 else TWO_64)
  {
    var n := |ms| - 1;
    SamplesLength(ms[..n], clock);
    if i < n {
      SampleOf(ms[..n], clock, i);
      assert ms[..n][..i] == ms[..i];
    }
  }

  lemma {:induction false} SamplesLength(ms: seq<Message>, clock: nat -> u64)
    ensures |Samples(ms, clock)| == |Timed(ms)|
  {
    if ms == [] {
      assert Timed(ms) == {};
    } else {
      var n := |ms| - 1;
      SamplesLength(ms[..n], clock);
      if ms[n].Heartbeat? {
        assert Timed(ms) == Timed(ms[..n]);
      } else {
        assert Timed(ms) == Timed(ms[..n]) + {n};
      }
    }
  }

  /** A fresh client fed any chunking of any encoded messages, garbage and spoiled ones among them: every symbol's entry
      shows the latest of what was sent intact for it. */
  method ClientRefinement(ghost xs: seq<Segment>, chunks: seq<seq<byte>>, clock: nat -> u64) returns (h: Handler)
    requires Arrives(xs) && AllInRange(Kept(xs))
    requires Flatten(chunks) == Wire(xs) && forall i :: 0 <= i < |chunks| ==> |chunks[i]| <= RECV_BUF
    ensures fresh(h) && h.Valid() && h.Shows(Kept(xs), clock)
    ensures var r := Parse(Fresh, Wire(xs)); h.parser.counters == r.counters && h.parser.Residue() == r.rest
    ensures forall k :: 0 <= k < MAX_SYMBOLS ==> EntryShows(h.cache.states[k], k, Kept(xs))
  {
    hide Parse, EntryShows, EntryAfter, UpdatesFor, Samples, Histogram.RecordAll;
    h := new Handler();
    HandlerSeesKept(xs);
    assert [] + Kept(xs) == Kept(xs);
    var _ := h.Run(chunks, 0, clock, []);
    LatestShown(h.cache.states[..], h.lat.View(), h.messages, Kept(xs), clock);
    assert forall k :: 0 <= k < MAX_SYMBOLS ==> h.cache.states[..][k] == h.cache.states[k];
  }
}
