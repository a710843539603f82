/**
  The exchange simulator: numbering, fault injection, broadcasting and pacing.
  Sockets answer each send as they please, prices and clocks are whatever they are.
 */
module Simulator {
  import opened Bytes
  import opened Protocol

  // ----- the messages made

  /** Time stamp, prices and volumes drawn for one message. */
  datatype Draw = Draw(ts: u64, price: u64, qty: u32, bid: u64, bidQty: u32, ask: u64, askQty: u32)

  /** Three sequence numbers in ten are trades, the others quotes. */
  function MakeTick(sym: u16, seqNo: u32, d: Draw): Message {
    if seqNo % 10 < 3 then Trade(seqNo, d.ts, sym, d.price, d.qty)
    else Quote(seqNo, d.ts, sym, d.bid, d.bidQty, d.ask, d.askQty)
  }

  function MakeHeartbeat(seqNo: u32, d: Draw): Message {
    Heartbeat(seqNo, d.ts, 0)
  }

  /** Round robin over the symbols. */
  function SymbolFor(n: nat, symbols: nat): u16
    requires symbols > 0
  {
    n % symbols % 0x1_0000
  }

  // ----- sending to one client

  /** A client's socket descriptor. */
  datatype Fd = Fd(number: int)

  /** What one call of send returns: a byte count, the would-block error, or another error. */
  datatype Reply = Took(n: nat) | WouldBlock | Refused
  datatype End = Done | Slow | Lost

  function Part(n: nat, len: nat): (k: nat)
    ensures k <= len
  {
    if n < len then n else len
  }

  /** How many of len bytes a socket takes that gives these replies, and then blocks. */
  function Taken(replies: seq<Reply>, len: nat): (n: nat)
    ensures n <= len
  {
    if len == 0 || replies == [] then 0
    else
      match replies[0]
      case Took(n) => if n == 0 then 0 else Part(n, len) + Taken(replies[1..], len - Part(n, len))
      case WouldBlock => 0
      case Refused => 0
  }

  /** How the attempt to send len bytes ends: complete, put off as slow, or connection lost. */
  function EndOf(replies: seq<Reply>, len: nat): End {
    if len == 0 then Done
    else if replies == [] then Slow
    else
      match replies[0]
      case Took(n) => if n == 0 then Lost else EndOf(replies[1..], len - Part(n, len))
      case WouldBlock => Slow
      case Refused => Lost
  }

  lemma {:induction false} DoneIffAllTaken(replies: seq<Reply>, len: nat)
    ensures EndOf(replies, len) == Done <==> Taken(replies, len) == len
  {
    if len > 0 && replies != [] && replies[0].Took? && replies[0].n > 0 {
      DoneIffAllTaken(replies[1..], len - Part(replies[0].n, len));
    }
  }

  /** The bytes that the first n replies say were taken. */
  function Accepted(replies: seq<Reply>, n: nat): nat
    requires n <= |replies| && forall j :: 0 <= j < n ==> replies[j].Took?
  {
    if n == 0 then 0 else Accepted(replies, n - 1) + replies[n - 1].n
  }

  lemma {:induction false} AcceptedTail(replies: seq<Reply>, n: nat)
    requires 0 < n <= |replies| && forall j :: 0 <= j < n ==> replies[j].Took?
    ensures forall j :: 0 <= j < n - 1 ==> replies[1..][j].Took?
    ensures Accepted(replies, n) == replies[0].n + Accepted(replies[1..], n - 1)
  {
    if n > 1 { AcceptedTail(replies, n - 1); }
  }

  /** What the replies come to. The first n of them take something; together they take everything, or the next one is
      would-block (or there is none) and the client is slow, or it is an error or zero and the client is lost. */
  lemma {:induction false} SendMeans(replies: seq<Reply>, len: nat) returns (n: nat)
    ensures n <= |replies| && forall j :: 0 <= j < n ==> replies[j].Took? && replies[j].n > 0
    ensures Taken(replies, len) == Part(Accepted(replies, n), len)
    ensures EndOf(replies, len) == Done <==> Accepted(replies, n) >= len
    ensures EndOf(replies, len) == Slow <==> Taken(replies, len) < len && (n == |replies| || replies[n].WouldBlock?)
    ensures EndOf(replies, len) == Lost <==>
              Taken(replies, len) < len && n < |replies| && (replies[n].Refused? || replies[n] == Took(0))
  {
    n := 0;
    if len > 0 && replies != [] && replies[0].Took? && replies[0].n > 0 {
      var m := SendMeans(replies[1..], len - Part(replies[0].n, len));
      n := m + 1;
      forall j | 0 <= j < n ensures replies[j].Took? && replies[j].n > 0 {
        if j > 0 { assert replies[1..][j - 1] == replies[j]; }
      }
      AcceptedTail(replies, n);
      assert m < |replies| - 1 ==> replies[1..][m] == replies[n];
    }
  }

  // ----- the history of a connection

  /** What became of one sequence number on one connection. */
  datatype Fate = Skipped | Offered(m: Message, taken: nat)

  /** The first sequence number since the client joined, and the fate of each since then. */
  datatype Conn = Conn(first: nat, log: seq<Fate>)

  function BytesOf(x: Fate): seq<byte> {
    match x
    case Skipped => []
    case Offered(m, taken) => Encode(m)[..Part(taken, |Encode(m)|)]
  }

  /** The bytes a connection with this history has carried. */
  function Carried(log: seq<Fate>): seq<byte> {
    if log == [] then [] else BytesOf(log[0]) + Carried(log[1..])
  }

  predicate EndsSkipped(log: seq<Fate>) {
    log != [] && log[|log| - 1].Skipped?
  }

  /** Only multiples of a hundred are skipped, and by the tick that then takes the next number for the same symbol. */
  ghost predicate FateFits(x: Fate, n: u32, afterSkip: bool, symbols: nat)
    requires symbols > 0
  {
    match x
    case Skipped => n % 100 == 0 && !afterSkip
    case Offered(m, taken) =>
      && m.seqNo == n && m.sym < symbols && taken <= |Encode(m)|
      && (m.Heartbeat? ==> m.sym == 0 && !afterSkip)
      && (!m.Heartbeat? ==> m.Trade? == (n % 10 < 3))
      && (!m.Heartbeat? ==> m.sym == SymbolFor(if afterSkip then (n + TWO_32 - 1) % TWO_32 else n, symbols))
  }

  /** A history in which every number since the first is accounted for, in order. */
  ghost predicate Coherent(c: Conn, symbols: nat)
    requires symbols > 0
  {
    && c.first >= 1
    && forall i :: 0 <= i < |c.log| ==>
         FateFits(c.log[i], (c.first + i) % TWO_32, EndsSkipped(c.log[..i]), symbols)
  }

  function Grown(c: Conn, x: Fate): Conn {
    Conn(c.first, c.log + [x])
  }

  lemma CoherentGrows(c: Conn, x: Fate, symbols: nat)
    requires symbols > 0 && Coherent(c, symbols)
    requires FateFits(x, (c.first + |c.log|) % TWO_32, EndsSkipped(c.log), symbols)
    ensures Coherent(Grown(c, x), symbols)
  {
    hide FateFits, EndsSkipped;
    var log := c.log + [x];
    forall i | 0 <= i < |log|
      ensures FateFits(log[i], (c.first + i) % TWO_32, EndsSkipped(log[..i]), symbols)
    {
      assert log[..i] == c.log[..i];
      assert i == |c.log| ==> c.log[..i] == c.log;
    }
  }

  lemma {:induction false} CarriedGrows(log: seq<Fate>, x: Fate)
    ensures Carried(log + [x]) == Carried(log) + BytesOf(x)
  {
    hide BytesOf;
    if log == [] {
      assert (log + [x])[1..] == [];
    } else {
      assert (log + [x])[1..] == log[1..] + [x];
      CarriedGrows(log[1..], x);
    }
  }

  // ----- the simulator's state and steps

  /** next counts the numbers from 1 on without wrapping; conns keeps, for every descriptor, the history of the
      latest connection on it. */
  datatype Sim = Sim(next: nat, clients: set<Fd>, slow: set<Fd>, conns: map<Fd, Conn>)

  const NewSim := Sim(1, {}, {}, map[])

  function AllGrown(s: Sim, x: Fd -> Fate): map<Fd, Conn> {
    map fd | fd in s.conns :: if fd in s.clients then Grown(s.conns[fd], x(fd)) else s.conns[fd]
  }

  function Ended(clients: set<Fd>, replies: Fd -> seq<Reply>, len: nat, e: End): set<Fd> {
    set fd | fd in clients && EndOf(replies(fd), len) == e
  }

  /** Use up a number without sending anything. */
  function Skip(s: Sim): Sim {
    s.(next := s.next + 1, conns := AllGrown(s, _ => Skipped))
  }

  /** Use up a number for m and offer it to every client. */
  function Offer(s: Sim, m: Message, replies: Fd -> seq<Reply>): Sim {
    var len := |Encode(m)|;
    var lost := Ended(s.clients, replies, len, Lost);
    Sim(s.next + 1, s.clients - lost, s.slow + Ended(s.clients, replies, len, Slow) - lost,
        AllGrown(s, (fd: Fd) => Offered(m, Taken(replies(fd), len))))
  }

  predicate Skips(s: Sim, fault: bool) {
    fault && s.next % TWO_32 % 100 == 0
  }

  function Tick(s: Sim, symbols: nat, fault: bool, d: Draw, replies: Fd -> seq<Reply>): Sim
    requires symbols > 0
  {
    if s.clients == {} then s
    else
      var sym := SymbolFor(s.next % TWO_32, symbols);
      var t := if Skips(s, fault) then Skip(s) else s;
      Offer(t, MakeTick(sym, t.next % TWO_32, d), replies)
  }

  function Beat(s: Sim, d: Draw, replies: Fd -> seq<Reply>): Sim {
    if s.clients == {} then s else Offer(s, MakeHeartbeat(s.next % TWO_32, d), replies)
  }

  function Connect(s: Sim, fd: Fd): Sim {
    s.(clients := s.clients + {fd}, conns := s.conns[fd := Conn(s.next, [])])
  }

  function Disconnect(s: Sim, fd: Fd): Sim {
    s.(clients := s.clients - {fd}, slow := s.slow - {fd})
  }

  /** Every history is coherent; those of the connected clients reach up to the present. */
  ghost predicate Inv(s: Sim, symbols: nat)
    requires symbols > 0
  {
    && s.next >= 1 && s.slow <= s.clients && s.clients <= s.conns.Keys
    && (forall fd :: fd in s.conns ==> Coherent(s.conns[fd], symbols) && Reach(s.conns[fd]) <= s.next)
    && (forall fd :: fd in s.clients ==> Reach(s.conns[fd]) == s.next)
  }

  ghost predicate Settled(s: Sim) {
    forall fd :: fd in s.clients && fd in s.conns ==> !EndsSkipped(s.conns[fd].log)
  }

  function Reach(c: Conn): nat {
    c.first + |c.log|
  }

  lemma GrowKeeps(s: Sim, x: Fd -> Fate, symbols: nat)
    requires symbols > 0 && Inv(s, symbols)
    requires forall fd :: fd in s.clients ==>
               FateFits(x(fd), s.next % TWO_32, EndsSkipped(s.conns[fd].log), symbols)
    ensures Inv(s.(next := s.next + 1, conns := AllGrown(s, x)), symbols)
  {
    hide FateFits, EndsSkipped, Coherent;
    forall fd | fd in s.clients
      ensures Coherent(Grown(s.conns[fd], x(fd)), symbols)
    {
      CoherentGrows(s.conns[fd], x(fd), symbols);
    }
  }

  lemma SkipKeeps(s: Sim, symbols: nat)
    requires symbols > 0 && Inv(s, symbols) && Settled(s) && s.next % TWO_32 % 100 == 0
    ensures Inv(Skip(s), symbols)
    ensures forall fd :: fd in s.clients ==> EndsSkipped(Skip(s).conns[fd].log)
  {
    GrowKeeps(s, _ => Skipped, symbols);
  }

  lemma OfferKeeps(s: Sim, m: Message, replies: Fd -> seq<Reply>, symbols: nat)
    requires symbols > 0 && Inv(s, symbols)
    requires forall fd :: fd in s.clients ==>
               FateFits(Offered(m, 0), s.next % TWO_32, EndsSkipped(s.conns[fd].log), symbols)
    ensures Inv(Offer(s, m, replies), symbols) && Settled(Offer(s, m, replies))
  {
    hide Encode, Coherent, Taken, EndOf;
    var x := (fd: Fd) => Offered(m, Taken(replies(fd), |Encode(m)|));
    GrowKeeps(s, x, symbols);
  }

  lemma SymbolInRange(n: nat, symbols: nat)
    requires symbols > 0
    ensures SymbolFor(n, symbols) < symbols
  {
  }

  lemma PreviousNumber(n: nat)
    requires n % TWO_32 % 100 == 0
    ensures ((n + 1) % TWO_32 + TWO_32 - 1) % TWO_32 == n % TWO_32
  {
  }

  /** The number and symbol of a tick fit the history, whether a number was skipped or not. */
  lemma TickFits(s: Sim, symbols: nat, fault: bool, d: Draw)
    requires symbols > 0 && Inv(s, symbols) && Settled(s)
    ensures var t := if Skips(s, fault) then Skip(s) else s;
            && Inv(t, symbols) && t.clients == s.clients && t.slow == s.slow
            && var m := MakeTick(SymbolFor(s.next % TWO_32, symbols), t.next % TWO_32, d);
               forall fd :: fd in t.clients ==>
                 FateFits(Offered(m, 0), t.next % TWO_32, EndsSkipped(t.conns[fd].log), symbols)
  {
    hide Encode, Coherent;
    SymbolInRange(s.next % TWO_32, symbols);
    if Skips(s, fault) {
      SkipKeeps(s, symbols);
      PreviousNumber(s.next);
    }
  }

  lemma TickKeeps(s: Sim, symbols: nat, fault: bool, d: Draw, replies: Fd -> seq<Reply>)
    requires symbols > 0 && Inv(s, symbols) && Settled(s)
    ensures var t := Tick(s, symbols, fault, d, replies); Inv(t, symbols) && Settled(t)
  {
    hide FateFits, Coherent, Inv, Settled, MakeTick, Skip, Skips, SymbolFor, EndsSkipped;
    if s.clients != {} {
      TickFits(s, symbols, fault, d);
      var t := if Skips(s, fault) then Skip(s) else s;
      OfferKeeps(t, MakeTick(SymbolFor(s.next % TWO_32, symbols), t.next % TWO_32, d), replies, symbols);
    }
  }

  lemma BeatKeeps(s: Sim, symbols: nat, d: Draw, replies: Fd -> seq<Reply>)
    requires symbols > 0 && Inv(s, symbols) && Settled(s)
    ensures var t := Beat(s, d, replies); Inv(t, symbols) && Settled(t)
  {
    hide Encode, Coherent, Offer;
    if s.clients != {} {
      OfferKeeps(s, MakeHeartbeat(s.next % TWO_32, d), replies, symbols);
    }
  }

  // ----- what the steps do

  /** The tick that bears this number, for the symbol whose turn it is at number turn. */
  ghost predicate IsTick(m: Message, turn: nat, number: nat, symbols: nat, d: Draw)
    requires symbols > 0
  {
    && !m.Heartbeat? && m.seqNo == number && m.sym == turn % symbols % 0x1_0000 && m.ts == d.ts
    && (m.Trade? <==> number % 10 < 3)
    && (m.Trade? ==> m.price == d.price && m.qty == d.qty)
    && (m.Quote? ==> m.bid == d.bid && m.bidQty == d.bidQty && m.ask == d.ask && m.askQty == d.askQty)
  }

  ghost predicate IsHeartbeat(m: Message, number: nat, d: Draw) {
    m.Heartbeat? && m.seqNo == number && m.ts == d.ts && m.sym == 0
  }

  /** Every client has been offered m, after these other fates, and is still there unless its connection failed. */
  ghost predicate Offering(s: Sim, t: Sim, before: seq<Fate>, m: Message, replies: Fd -> seq<Reply>) {
    var len := |Encode(m)|;
    && t.conns.Keys == s.conns.Keys
    && (forall fd :: fd in s.conns ==>
          t.conns[fd] == if fd !in s.clients then s.conns[fd]
                         else Conn(s.conns[fd].first, s.conns[fd].log + before + [Offered(m, Taken(replies(fd), len))]))
    && (forall fd :: fd in t.clients <==> fd in s.clients && EndOf(replies(fd), len) != Lost)
    && (forall fd :: fd in t.slow <==>
          && (fd in s.slow || (fd in s.clients && EndOf(replies(fd), len) == Slow))
          && !(fd in s.clients && EndOf(replies(fd), len) == Lost))
  }

  lemma OfferDoes(s: Sim, m: Message, replies: Fd -> seq<Reply>)
    ensures Offer(s, m, replies).next == s.next + 1 && Offering(s, Offer(s, m, replies), [], m, replies)
  {
    hide Encode, Taken, EndOf;
    forall fd | fd in s.conns
      ensures s.conns[fd].log + [] == s.conns[fd].log
    {
    }
  }

  /** With a client there, a tick uses up the next number, after another one when a fault is injected at a multiple of a
      hundred, and offers every client a message made from the draw. */
  lemma TickDoes(s: Sim, symbols: nat, fault: bool, d: Draw, replies: Fd -> seq<Reply>) returns (m: Message)
    requires symbols > 0 && s.clients != {}
    ensures var turn, t := s.next % TWO_32, Tick(s, symbols, fault, d, replies);
            if fault && turn % 100 == 0 then
              && t.next == s.next + 2 && IsTick(m, turn, (s.next + 1) % TWO_32, symbols, d)
              && Offering(s, t, [Skipped], m, replies)
            else
              && t.next == s.next + 1 && IsTick(m, turn, turn, symbols, d)
              && Offering(s, t, [], m, replies)
  {
    hide Encode, Taken, EndOf;
    var sym := SymbolFor(s.next % TWO_32, symbols);
    var u := if Skips(s, fault) then Skip(s) else s;
    m := MakeTick(sym, u.next % TWO_32, d);
    OfferDoes(u, m, replies);
  }

  lemma TickMade(turn: nat, number: u32, symbols: nat, d: Draw)
    requires symbols > 0
    ensures IsTick(MakeTick(SymbolFor(turn, symbols), number, d), turn, number, symbols, d)
  {
  }

  lemma BeatDoes(s: Sim, d: Draw, replies: Fd -> seq<Reply>) returns (m: Message)
    requires s.clients != {}
    ensures var t := Beat(s, d, replies);
            t.next == s.next + 1 && IsHeartbeat(m, s.next % TWO_32, d) && Offering(s, t, [], m, replies)
  {
    hide Encode, Taken, EndOf, Offer, Offering;
    m := MakeHeartbeat(s.next % TWO_32, d);
    OfferDoes(s, m, replies);
  }

  /** With no client nothing happens. */
  lemma NobodyThere(s: Sim, symbols: nat, fault: bool, d: Draw, replies: Fd -> seq<Reply>)
    requires symbols > 0 && s.clients == {}
    ensures Tick(s, symbols, fault, d, replies) == s && Beat(s, d, replies) == s
  {
  }

  lemma ConnectKeeps(s: Sim, fd: Fd, symbols: nat)
    requires symbols > 0 && Inv(s, symbols) && Settled(s)
    ensures Inv(Connect(s, fd), symbols) && Settled(Connect(s, fd))
  {
    hide FateFits;
    assert Coherent(Conn(s.next, []), symbols);
    hide Coherent;
  }

  // ----- the run loop

  datatype Event = NewConnection(fd: Fd) | HangUp(fd: Fd) | ClientData(fd: Fd)

  /** What one pass of the loop meets: poll results, settings, the clock, draws and socket replies. */
  datatype Pass = Pass(events: seq<Event>, now: real, rate: u32, fault: bool,
                       tick: Draw, tickReplies: Fd -> seq<Reply>, beat: Draw, beatReplies: Fd -> seq<Reply>)

  function Polled(s: Sim, events: seq<Event>): Sim {
    if events == [] then s
    else
      var t := Polled(s, events[..|events| - 1]);
      match events[|events| - 1]
      case NewConnection(fd) => Connect(t, fd)
      case HangUp(fd) => Disconnect(t, fd)
      case ClientData(_) => t
  }

  lemma {:induction false} PolledKeeps(s: Sim, events: seq<Event>, symbols: nat)
    requires symbols > 0 && Inv(s, symbols) && Settled(s)
    ensures Inv(Polled(s, events), symbols) && Settled(Polled(s, events)) && Polled(s, events).next == s.next
  {
    hide FateFits;
    if events != [] { PolledKeeps(s, events[..|events| - 1], symbols); }
  }

  predicate Mentions(e: Event, fd: Fd) {
    (e.NewConnection? || e.HangUp?) && e.fd == fd
  }

  ghost predicate LastMention(events: seq<Event>, fd: Fd, i: nat) {
    i < |events| && Mentions(events[i], fd) && forall j :: i < j < |events| ==> !Mentions(events[j], fd)
  }

  /** What the events have made of one descriptor: the last event about it decides. It is connected, with an empty
      history from the present number on, or gone; without an event it is as before. */
  ghost predicate Decided(s: Sim, t: Sim, events: seq<Event>, fd: Fd) {
    && (forall i: nat :: LastMention(events, fd, i) ==>
          if events[i].NewConnection? then fd in t.clients && fd in t.conns && t.conns[fd] == Conn(s.next, [])
          else fd !in t.clients && fd !in t.slow)
    && ((forall i :: 0 <= i < |events| ==> !Mentions(events[i], fd)) ==> SameFor(s, t, fd))
  }

  ghost predicate SameFor(s: Sim, t: Sim, fd: Fd) {
    && (fd in t.clients <==> fd in s.clients) && (fd in t.slow <==> fd in s.slow)
    && (fd in t.conns <==> fd in s.conns) && (fd in s.conns ==> t.conns[fd] == s.conns[fd])
  }

  /** An event about another descriptor changes nothing for this one. */
  lemma OtherEvent(s: Sim, t: Sim, u: Sim, events: seq<Event>, e: Event, fd: Fd)
    requires Decided(s, t, events, fd) && !Mentions(e, fd) && SameFor(t, u, fd)
    ensures Decided(s, u, events + [e], fd)
  {
    hide Mentions;
    var all := events + [e];
    assert all[|events|] == e;
    forall i: nat | LastMention(all, fd, i) ensures LastMention(events, fd, i) {
      assert all[i] == events[i];
      forall j | i < j < |events| ensures !Mentions(events[j], fd) { assert all[j] == events[j]; }
    }
    if forall i :: 0 <= i < |all| ==> !Mentions(all[i], fd) {
      forall i | 0 <= i < |events| ensures !Mentions(events[i], fd) { assert all[i] == events[i]; }
    }
  }

  /** An event about this descriptor is the last one about it. */
  lemma OwnEvent(s: Sim, u: Sim, events: seq<Event>, e: Event, fd: Fd)
    requires Mentions(e, fd)
    requires if e.NewConnection? then fd in u.clients && fd in u.conns && u.conns[fd] == Conn(s.next, [])
             else fd !in u.clients && fd !in u.slow
    ensures Decided(s, u, events + [e], fd)
  {
    var all := events + [e];
    assert all[|events|] == e;
    forall i: nat | LastMention(all, fd, i) ensures i == |events| {
    }
  }

  lemma {:induction false} PolledShows(s: Sim, events: seq<Event>, fd: Fd)
    ensures Decided(s, Polled(s, events), events, fd)
  {
    if events != [] {
      var n := |events| - 1;
      var e, t, u := events[n], Polled(s, events[..n]), Polled(s, events);
      PolledShows(s, events[..n], fd);
      PolledNext(s, events[..n]);
      PolledOneMore(s, events);
      assert events[..n] + [e] == events;
      hide Polled, Decided;
      if Mentions(e, fd) { OwnEvent(s, u, events[..n], e, fd); } else { OtherEvent(s, t, u, events[..n], e, fd); }
    }
  }

  lemma PolledOneMore(s: Sim, events: seq<Event>)
    requires events != []
    ensures var n := |events| - 1; var t := Polled(s, events[..n]);
            Polled(s, events) == match events[n]
                                 case NewConnection(fd) => Connect(t, fd)
                                 case HangUp(fd) => Disconnect(t, fd)
                                 case ClientData(_) => t
  {
  }

  /** The tick budget of the current window. */
  datatype Pace = Pace(last: real, ticks: nat)

  predicate TickDue(p: Pace, now: real, rate: u32) {
    p.ticks < ((now - p.last) * rate as real).Floor
  }

  predicate WindowOver(p: Pace, now: real) {
    now - p.last >= 1.0
  }

  function NextPace(p: Pace, now: real, rate: u32): Pace {
    if WindowOver(p, now) then Pace(now, 0)
    else if TickDue(p, now, rate) then Pace(p.last, p.ticks + 1)
    else p
  }

  /** The loop's state, with the tick attempts and heartbeats made so far. */
  datatype Loop = Loop(sim: Sim, pace: Pace, attempts: nat, beats: nat)

  function OnePass(l: Loop, symbols: nat, x: Pass): Loop
    requires symbols > 0
  {
    var polled := Polled(l.sim, x.events);
    var due, over := TickDue(l.pace, x.now, x.rate), WindowOver(l.pace, x.now);
    var ticked := if due then Tick(polled, symbols, x.fault, x.tick, x.tickReplies) else polled;
    Loop(if over then Beat(ticked, x.beat, x.beatReplies) else ticked,
         NextPace(l.pace, x.now, x.rate),
         if due then l.attempts + 1 else l.attempts,
         if over && ticked.clients != {} then l.beats + 1 else l.beats)
  }

  function Passes(l: Loop, symbols: nat, xs: seq<Pass>): Loop
    requires symbols > 0
  {
    if xs == [] then l else OnePass(Passes(l, symbols, xs[..|xs| - 1]), symbols, xs[|xs| - 1])
  }

  function Begin(s: Sim, start: real): Loop {
    Loop(s, Pace(start, 0), 0, 0)
  }

  lemma NoPass(l: Loop, symbols: nat)
    requires symbols > 0
    ensures Passes(l, symbols, []) == l
  {
  }

  lemma PassesOneMore(l: Loop, symbols: nat, xs: seq<Pass>, i: nat)
    requires symbols > 0 && i < |xs|
    ensures Passes(l, symbols, xs[..i + 1]) == OnePass(Passes(l, symbols, xs[..i]), symbols, xs[i])
  {
    assert xs[..i + 1][..i] == xs[..i];
  }

  /** One pass of the loop, told by its numbers: a tick is attempted when fewer were than the floor of elapsed time
      times rate, and after a second the window starts anew with a heartbeat, if a client is there. */
  lemma PassDoes(l: Loop, symbols: nat, x: Pass)
    requires symbols > 0
    ensures var s, r := Polled(l.sim, x.events), OnePass(l, symbols, x);
            var elapsed := x.now - l.pace.last;
            var due, over := l.pace.ticks < (elapsed * x.rate as real).Floor, elapsed >= 1.0;
            var ticks := if due then 1 else 0;
            var used := if !due || s.clients == {} then 0 else if x.fault && s.next % TWO_32 % 100 == 0 then 2 else 1;
            && r.attempts == l.attempts + ticks
            && r.pace == (if over then Pace(x.now, 0) else Pace(l.pace.last, l.pace.ticks + ticks))
            && r.sim.next == l.sim.next + used + (r.beats - l.beats)
            && (!over ==> r.beats == l.beats)
            && (over && !due ==> r.beats == l.beats + if s.clients == {} then 0 else 1)
            && (over && r.sim.clients != {} ==> r.beats == l.beats + 1)
            && (!due && !over ==> r.sim == s)
  {
    hide Polled, Encode, Taken, EndOf, SymbolFor, MakeTick;
    PolledNext(l.sim, x.events);
  }

  ghost predicate Monotone(start: real, xs: seq<Pass>) {
    && (xs != [] ==> start <= xs[0].now)
    && forall i :: 0 < i < |xs| ==> xs[i - 1].now <= xs[i].now
  }

  function EndTime(start: real, xs: seq<Pass>): real {
    if xs == [] then start else xs[|xs| - 1].now
  }

  lemma PassKeeps(l: Loop, symbols: nat, x: Pass)
    requires symbols > 0 && Inv(l.sim, symbols) && Settled(l.sim)
    ensures var r := OnePass(l, symbols, x); Inv(r.sim, symbols) && Settled(r.sim)
  {
    hide Inv, Settled, Tick, Beat, TickDue, WindowOver, NextPace, Polled;
    PolledKeeps(l.sim, x.events, symbols);
    var polled := Polled(l.sim, x.events);
    TickKeeps(polled, symbols, x.fault, x.tick, x.tickReplies);
    var due := TickDue(l.pace, x.now, x.rate);
    var ticked := if due then Tick(polled, symbols, x.fault, x.tick, x.tickReplies) else polled;
    BeatKeeps(ticked, symbols, x.beat, x.beatReplies);
  }

  /** In every run every connection's history stays coherent. */
  lemma {:induction false} RunKeeps(l: Loop, symbols: nat, xs: seq<Pass>)
    requires symbols > 0 && Inv(l.sim, symbols) && Settled(l.sim)
    ensures var r := Passes(l, symbols, xs); Inv(r.sim, symbols) && Settled(r.sim)
  {
    hide Inv, Settled, OnePass;
    if xs != [] {
      var before := xs[..|xs| - 1];
      RunKeeps(l, symbols, before);
      PassKeeps(Passes(l, symbols, before), symbols, xs[|xs| - 1]);
    }
  }

  // ----- fault injection

  /** Numbers are skipped only with fault injection on, and then no tick ever bears a multiple of a hundred. */
  predicate FaultFits(x: Fate, fault: bool) {
    match x
    case Skipped => fault
    case Offered(m, _) => fault && !m.Heartbeat? ==> m.seqNo % 100 != 0
  }

  ghost predicate FollowsFault(s: Sim, fault: bool) {
    forall fd :: fd in s.conns ==> forall i :: 0 <= i < |s.conns[fd].log| ==> FaultFits(s.conns[fd].log[i], fault)
  }

  lemma GrowFollows(s: Sim, x: Fd -> Fate, fault: bool)
    requires FollowsFault(s, fault) && forall fd :: fd in s.clients ==> FaultFits(x(fd), fault)
    ensures FollowsFault(s.(conns := AllGrown(s, x)), fault)
  {
    hide FaultFits;
  }

  lemma OfferFollows(s: Sim, m: Message, replies: Fd -> seq<Reply>, fault: bool)
    requires FollowsFault(s, fault) && FaultFits(Offered(m, 0), fault)
    ensures FollowsFault(Offer(s, m, replies), fault)
  {
    hide Encode, Taken, Ended;
    var x := (fd: Fd) => Offered(m, Taken(replies(fd), |Encode(m)|));
    GrowFollows(s, x, fault);
  }

  lemma NumberAfterSkip(n: nat)
    requires n % TWO_32 % 100 == 0
    ensures (n + 1) % TWO_32 % 100 == 1
  {
    assert (n + 1) % TWO_32 == n % TWO_32 + 1;
  }

  lemma TickFollows(s: Sim, symbols: nat, fault: bool, d: Draw, replies: Fd -> seq<Reply>)
    requires symbols > 0 && FollowsFault(s, fault)
    ensures FollowsFault(Tick(s, symbols, fault, d, replies), fault)
  {
    hide Offer, FollowsFault, SymbolFor;
    if s.clients != {} {
      var sym := SymbolFor(s.next % TWO_32, symbols);
      if Skips(s, fault) {
        SkipFollows(s, fault);
        NumberAfterSkip(s.next);
        OfferFollows(Skip(s), MakeTick(sym, Skip(s).next % TWO_32, d), replies, fault);
      } else {
        OfferFollows(s, MakeTick(sym, s.next % TWO_32, d), replies, fault);
      }
    }
  }

  lemma SkipFollows(s: Sim, fault: bool)
    requires fault && FollowsFault(s, fault)
    ensures FollowsFault(Skip(s), fault)
  {
    GrowFollows(s, _ => Skipped, fault);
  }

  lemma {:induction false} PolledFollows(s: Sim, events: seq<Event>, fault: bool)
    requires FollowsFault(s, fault)
    ensures FollowsFault(Polled(s, events), fault)
  {
    hide FaultFits;
    if events != [] { PolledFollows(s, events[..|events| - 1], fault); }
  }

  lemma PassFollows(l: Loop, symbols: nat, x: Pass)
    requires symbols > 0 && FollowsFault(l.sim, x.fault)
    ensures FollowsFault(OnePass(l, symbols, x).sim, x.fault)
  {
    hide FollowsFault, Tick, Polled, Offer, TickDue, WindowOver, NextPace;
    PolledFollows(l.sim, x.events, x.fault);
    var polled := Polled(l.sim, x.events);
    TickFollows(polled, symbols, x.fault, x.tick, x.tickReplies);
    var due := TickDue(l.pace, x.now, x.rate);
    var ticked := if due then Tick(polled, symbols, x.fault, x.tick, x.tickReplies) else polled;
    OfferFollows(ticked, MakeHeartbeat(ticked.next % TWO_32, x.beat), x.beatReplies, x.fault);
  }

  /** In every run with fault injection always on or always off. */
  lemma {:induction false} FaultPattern(symbols: nat, xs: seq<Pass>, start: real, fault: bool)
    requires symbols > 0 && forall i :: 0 <= i < |xs| ==> xs[i].fault == fault
    ensures FollowsFault(Passes(Begin(NewSim, start), symbols, xs).sim, fault)
    decreases |xs|
  {
    hide OnePass;
    if xs != [] {
      var before := xs[..|xs| - 1];
      FaultPattern(symbols, before, start, fault);
      PassFollows(Passes(Begin(NewSim, start), symbols, before), symbols, xs[|xs| - 1]);
    }
  }

  // ----- pacing

  lemma DueFits(p: Pace, now: real, rate: u32, bound: nat)
    requires TickDue(p, now, rate) && p.last <= now && rate <= bound
    ensures (p.ticks + 1) as real <= bound as real * (now - p.last)
  {
    var e := now - p.last;
    assert e * rate as real <= e * bound as real;
  }

  lemma Adds(r: real, a: real, b: real, c: real)
    ensures r * (b - a) + r * (c - b) == r * (c - a)
  {
  }

  lemma Scales(r: real, a: real, b: real)
    requires r >= 0.0 && a <= b
    ensures r * a <= r * b
  {
  }

  /** The budget kept by every pass: full windows behind, and the window in progress. */
  ghost predicate Budget(l: Loop, start: real, now: real, bound: nat) {
    && start <= l.pace.last <= now
    && l.pace.ticks <= l.attempts
    && (l.attempts - l.pace.ticks) as real <= bound as real * (l.pace.last - start)
    && l.pace.ticks as real <= bound as real * (now - l.pace.last)
    && l.beats as real <= l.pace.last - start
  }

  lemma PassKeepsBudget(l: Loop, symbols: nat, x: Pass, start: real, before: real, bound: nat)
    requires symbols > 0 && Budget(l, start, before, bound) && before <= x.now && x.rate <= bound
    ensures Budget(OnePass(l, symbols, x), start, x.now, bound)
  {
    hide Tick, Beat, Polled, TickDue;
    var p, due := l.pace, TickDue(l.pace, x.now, x.rate);
    var ticks := if due then p.ticks + 1 else p.ticks;
    Scales(bound as real, before - p.last, x.now - p.last);
    Adds(bound as real, start, p.last, x.now);
    if due { DueFits(p, x.now, x.rate, bound); }
    assert ticks as real <= bound as real * (x.now - p.last);
    assert ((l.attempts - p.ticks) + ticks) as real <= bound as real * (x.now - start);
    assert bound as real * (x.now - x.now) == 0.0;
  }

  lemma {:induction false} BudgetKept(s: Sim, symbols: nat, xs: seq<Pass>, start: real, bound: nat)
    requires symbols > 0 && Monotone(start, xs)
    requires forall i :: 0 <= i < |xs| ==> xs[i].rate <= bound
    ensures start <= EndTime(start, xs)
    ensures Budget(Passes(Begin(s, start), symbols, xs), start, EndTime(start, xs), bound)
    decreases |xs|
  {
    hide OnePass, Budget;
    if xs == [] {
      NoPassBudget(s, start, bound);
    } else {
      var n := |xs| - 1;
      var before := xs[..n];
      BudgetKept(s, symbols, before, start, bound);
      PassKeepsBudget(Passes(Begin(s, start), symbols, before), symbols, xs[n], start, EndTime(start, before), bound);
    }
  }

  lemma NoPassBudget(s: Sim, start: real, bound: nat)
    ensures Budget(Begin(s, start), start, start, bound)
  {
    assert bound as real * (start - start) == 0.0;
  }

  /** Over any run with rates up to the bound, on any monotone clock and across all window resets, the tick attempts
      stay within bound times the time gone by, and the heartbeats within one a second. */
  lemma PacingBound(s: Sim, symbols: nat, xs: seq<Pass>, start: real, bound: nat)
    requires symbols > 0 && Monotone(start, xs)
    requires forall i :: 0 <= i < |xs| ==> xs[i].rate <= bound
    ensures var l, time := Passes(Begin(s, start), symbols, xs), EndTime(start, xs) - start;
            l.attempts as real <= bound as real * time && l.beats as real <= time
  {
    hide Passes;
    BudgetKept(s, symbols, xs, start, bound);
    Adds(bound as real, start, Passes(Begin(s, start), symbols, xs).pace.last, EndTime(start, xs));
  }

  lemma PolledNext(s: Sim, events: seq<Event>)
    ensures Polled(s, events).next == s.next
  {
    if events != [] { PolledNext(s, events[..|events| - 1]); }
  }

  // ----- and not slower than it should be

  /** The loop comes round at least once per tick interval. */
  ghost predicate Brisk(start: real, xs: seq<Pass>, rate: u32) {
    && Monotone(start, xs)
    && (forall i :: 0 <= i < |xs| ==> xs[i].rate == rate)
    && (xs != [] ==> (xs[0].now - start) * rate as real <= 1.0)
    && forall i :: 0 < i < |xs| ==> (xs[i].now - xs[i - 1].now) * rate as real <= 1.0
  }

  /** The current window is on schedule, and each window behind lost at most one tick a second. */
  ghost predicate Paced(p: Pace, attempts: nat, start: real, now: real, rate: u32) {
    && p.last <= now && p.ticks <= attempts
    && p.ticks == ((now - p.last) * rate as real).Floor
    && (attempts - p.ticks) as real >= (rate as real - 1.0) * (p.last - start)
  }

  ghost predicate OnSchedule(l: Loop, start: real, now: real, rate: u32) {
    Paced(l.pace, l.attempts, start, now, rate)
  }

  lemma CatchUp(a: real, c: real, ticks: int)
    requires a <= c <= a + 1.0 && ticks == a.Floor
    ensures ticks + (if ticks < c.Floor then 1 else 0) == c.Floor
  {
  }

  lemma Grows(a: real, b: real, c: real, r: real)
    requires b <= c && r >= 0.0
    ensures (b - a) * r <= (c - a) * r == (b - a) * r + (c - b) * r
  {
  }

  /** A window of a second or more that is on schedule loses at most one tick for each second. */
  lemma WindowLoss(r: real, w: real, ticks: int)
    requires w >= 1.0 && ticks == (w * r).Floor
    ensures ticks as real >= (r - 1.0) * w
  {
    assert (r - 1.0) * w == w * r - w;
  }

  /** The tick of a pass brings the window up to schedule. */
  lemma TickOnSchedule(p: Pace, now: real, before: real, rate: u32)
    requires p.last <= before <= now && (now - before) * rate as real <= 1.0
    requires p.ticks == ((before - p.last) * rate as real).Floor
    ensures var target := ((now - p.last) * rate as real).Floor;
            p.ticks + (if p.ticks < target then 1 else 0) == target
  {
    Grows(p.last, before, now, rate as real);
    var a, c := (before - p.last) * rate as real, (now - p.last) * rate as real;
    assert a <= c <= a + 1.0;
    CatchUp(a, c, p.ticks);
  }

  lemma NoTime(r: real)
    ensures (0.0 * r).Floor == 0
  {
    assert 0.0 * r == 0.0;
  }

  /** A window closed on schedule joins those behind. */
  lemma CloseWindow(p: Pace, attempts: nat, now: real, start: real, rate: u32)
    requires p.last + 1.0 <= now && p.ticks <= attempts && p.ticks == ((now - p.last) * rate as real).Floor
    requires (attempts - p.ticks) as real >= (rate as real - 1.0) * (p.last - start)
    ensures Paced(Pace(now, 0), attempts, start, now, rate)
  {
    var r := rate as real;
    WindowLoss(r, now - p.last, p.ticks);
    Adds(r - 1.0, start, p.last, now);
    NoTime(r);
    assert now - now == 0.0;
  }

  lemma PaceKept(p: Pace, attempts: nat, start: real, before: real, now: real, rate: u32)
    requires Paced(p, attempts, start, before, rate) && before <= now && (now - before) * rate as real <= 1.0
    ensures var ticks := if p.ticks < ((now - p.last) * rate as real).Floor then 1 else 0;
            var q := if now - p.last >= 1.0 then Pace(now, 0) else Pace(p.last, p.ticks + ticks);
            Paced(q, attempts + ticks, start, now, rate)
  {
    TickOnSchedule(p, now, before, rate);
    var target := ((now - p.last) * rate as real).Floor;
    var ticks := if p.ticks < target then 1 else 0;
    if now - p.last >= 1.0 { CloseWindow(Pace(p.last, target), attempts + ticks, now, start, rate); }
  }

  /** The budget part of a pass. */
  lemma PassPace(l: Loop, symbols: nat, x: Pass)
    requires symbols > 0
    ensures var ticks := if l.pace.ticks < ((x.now - l.pace.last) * x.rate as real).Floor then 1 else 0;
            var q := if x.now - l.pace.last >= 1.0 then Pace(x.now, 0) else Pace(l.pace.last, l.pace.ticks + ticks);
            OnePass(l, symbols, x).pace == q && OnePass(l, symbols, x).attempts == l.attempts + ticks
  {
    hide Polled, Tick, Beat;
  }

  lemma PassOnSchedule(l: Loop, symbols: nat, x: Pass, start: real, before: real)
    requires symbols > 0 && OnSchedule(l, start, before, x.rate) && before <= x.now
    requires (x.now - before) * x.rate as real <= 1.0
    ensures OnSchedule(OnePass(l, symbols, x), start, x.now, x.rate)
  {
    hide OnePass, Paced;
    PassPace(l, symbols, x);
    PaceKept(l.pace, l.attempts, start, before, x.now, x.rate);
  }

  lemma {:induction false} ScheduleKept(s: Sim, symbols: nat, xs: seq<Pass>, start: real, rate: u32)
    requires symbols > 0 && Brisk(start, xs, rate)
    ensures OnSchedule(Passes(Begin(s, start), symbols, xs), start, EndTime(start, xs), rate)
    decreases |xs|
  {
    hide OnePass, OnSchedule;
    if xs == [] {
      AtStart(s, start, rate);
    } else {
      var n := |xs| - 1;
      ScheduleKept(s, symbols, xs[..n], start, rate);
      PassOnSchedule(Passes(Begin(s, start), symbols, xs[..n]), symbols, xs[n], start, EndTime(start, xs[..n]));
    }
  }

  lemma AtStart(s: Sim, start: real, rate: u32)
    ensures OnSchedule(Begin(s, start), start, start, rate)
  {
    assert (start - start) * rate as real == 0.0;
    assert (rate as real - 1.0) * (start - start) == 0.0;
  }

  /** At a constant rate, with the loop coming round at least once per tick interval, the tick attempts stay above
      (rate - 1) times the time gone by, less one: one tick a second is all that the window resets can cost. */
  lemma PacingReached(s: Sim, symbols: nat, xs: seq<Pass>, start: real, rate: u32)
    requires symbols > 0 && Brisk(start, xs, rate)
    ensures var l, time := Passes(Begin(s, start), symbols, xs), EndTime(start, xs) - start;
            l.attempts as real > (rate as real - 1.0) * time - 1.0
  {
    hide Passes;
    ScheduleKept(s, symbols, xs, start, rate);
    var l, now := Passes(Begin(s, start), symbols, xs), EndTime(start, xs);
    Adds(rate as real - 1.0, start, l.pace.last, now);
    Last(rate as real, now - l.pace.last);
  }

  lemma Last(r: real, w: real)
    requires w >= 0.0
    ensures (w * r).Floor as real > (r - 1.0) * w - 1.0
  {
    assert (r - 1.0) * w == w * r - w;
  }

  /** A tick uses up at most two numbers, a heartbeat one. */
  lemma {:induction false} NumbersUsed(l: Loop, symbols: nat, xs: seq<Pass>)
    requires symbols > 0
    ensures var r := Passes(l, symbols, xs);
            && l.attempts <= r.attempts && l.beats <= r.beats
            && r.sim.next - l.sim.next <= 2 * (r.attempts - l.attempts) + (r.beats - l.beats)
  {
    hide TickDue, WindowOver, Encode;
    if xs != [] {
      var before := xs[..|xs| - 1];
      NumbersUsed(l, symbols, before);
      PolledNext(Passes(l, symbols, before).sim, xs[|xs| - 1].events);
    }
  }

  /** How long a run is sure not to wrap the sequence numbers. */
  lemma NoWrap(symbols: nat, xs: seq<Pass>, start: real, bound: nat)
    requires symbols > 0 && Monotone(start, xs)
    requires forall i :: 0 <= i < |xs| ==> xs[i].rate <= bound
    requires (2 * bound + 1) as real * (EndTime(start, xs) - start) < TWO_32 as real
    ensures Passes(Begin(NewSim, start), symbols, xs).sim.next <= TWO_32
  {
    hide Passes;
    PacingBound(NewSim, symbols, xs, start, bound);
    NumbersUsed(Begin(NewSim, start), symbols, xs);
    var l := Passes(Begin(NewSim, start), symbols, xs);
    Combined(bound, l.attempts, l.beats, EndTime(start, xs) - start);
    Below(2 * l.attempts + l.beats, TWO_32);
    assert l.sim.next - 1 <= 2 * l.attempts + l.beats;
  }

  lemma Below(n: nat, m: nat)
    requires n as real < m as real
    ensures n < m
  {
  }

  lemma Combined(bound: nat, attempts: nat, beats: nat, time: real)
    requires attempts as real <= bound as real * time && beats as real <= time
    ensures (2 * attempts + beats) as real <= (2 * bound + 1) as real * time
  {
    assert (2 * bound + 1) as real == 2.0 * bound as real + 1.0;
    assert (2.0 * bound as real + 1.0) * time == 2.0 * (bound as real * time) + time;
  }

  // ----- the simulator itself

  class ExchangeSimulator {
    const symbolCount: nat
    var seqNo: u32
    var faultInjection: bool
    var tickRate: u32
    var clients: set<Fd>
    var slowClients: set<Fd>
    /** The bytes each socket has taken. */
    var wires: map<Fd, seq<byte>>
    ghost var sim: Sim

    ghost predicate Valid()
      reads this
    {
      && symbolCount > 0 && Inv(sim, symbolCount) && Settled(sim)
      && seqNo == sim.next % TWO_32 && clients == sim.clients && slowClients == sim.slow
      && WiresShow(wires, sim)
    }

    constructor (symbols: nat)
      requires symbols > 0
      ensures Valid() && sim == NewSim && symbolCount == symbols
    {
      symbolCount := symbols;
      seqNo, faultInjection, tickRate := 1, false, 100_000;
      clients, slowClients, wires := {}, {}, map[];
      sim := NewSim;
    }

    method HandleNewConnection(fd: Fd)
      requires Valid()
      modifies this`clients, this`wires, this`sim
      ensures Valid() && sim == Connect(old(sim), fd)
    {
      hide Inv, Settled, WiresShow, Carried;
      ConnectKeeps(sim, fd, symbolCount);
      ConnectShows(wires, sim, fd);
      clients := clients + {fd};
      wires := wires[fd := []];
      sim := Connect(sim, fd);
    }

    method HandleDisconnect(fd: Fd)
      modifies this`clients, this`slowClients
      ensures clients == old(clients) - {fd} && slowClients == old(slowClients) - {fd}
    {
      clients := clients - {fd};
      slowClients := slowClients - {fd};
    }

    /** Push data into one socket until it is all taken, the socket blocks, or the connection fails. */
    method SendTo(fd: Fd, data: seq<byte>, replies: seq<Reply>) returns (failed: bool)
      requires fd in wires
      modifies this`wires, this`slowClients
      ensures wires == old(wires)[fd := old(wires[fd]) + data[..Taken(replies, |data|)]]
      ensures failed == (EndOf(replies, |data|) == Lost)
      ensures slowClients == if EndOf(replies, |data|) == Slow then old(slowClients) + {fd} else old(slowClients)
    {
      failed := false;
      var sent, i := 0, 0;
      ghost var start := wires[fd];
      assert start + data[..0] == start && wires == wires[fd := start];
      while sent < |data|
        invariant 0 <= sent <= |data| && 0 <= i <= |replies|
        invariant !failed && slowClients == old(slowClients)
        invariant wires == old(wires)[fd := start + data[..sent]]
        invariant sent + Taken(replies[i..], |data| - sent) == Taken(replies, |data|)
        invariant EndOf(replies[i..], |data| - sent) == EndOf(replies, |data|)
        decreases |data| - sent
      {
        if i == |replies| || replies[i].WouldBlock? {
          slowClients := slowClients + {fd};
          break;
        } else if replies[i].Took? && replies[i].n > 0 {
          var r := Part(replies[i].n, |data| - sent);
          assert replies[i..][1..] == replies[i + 1..];
          assert start + data[..sent] + data[sent..sent + r] == start + data[..sent + r];
          wires := wires[fd := wires[fd] + data[sent..sent + r]];
          sent, i := sent + r, i + 1;
        } else {
          failed := true;
          break;
        }
      }
    }

    method DropAll(toDrop: seq<Fd>)
      modifies this`clients, this`slowClients
      ensures forall fd :: fd in clients <==> fd in old(clients) && fd !in toDrop
      ensures forall fd :: fd in slowClients <==> fd in old(slowClients) && fd !in toDrop
    {
      for i := 0 to |toDrop|
        invariant forall fd :: fd in clients <==> fd in old(clients) && fd !in toDrop[..i]
        invariant forall fd :: fd in slowClients <==> fd in old(slowClients) && fd !in toDrop[..i]
      {
        HandleDisconnect(toDrop[i]);
      }
    }

    /** Offer data to every client in turn, collecting those whose connection fails. */
    method SendAll(data: seq<byte>, replies: Fd -> seq<Reply>) returns (toDrop: seq<Fd>)
      requires clients <= wires.Keys
      modifies this`wires, this`slowClients
      ensures Pushed(old(wires), wires, clients, data, replies)
      ensures forall x :: x in slowClients
                     <==> x in old(slowClients) || (x in clients && EndOf(replies(x), |data|) == Slow)
      ensures forall x :: x in toDrop <==> x in clients && EndOf(replies(x), |data|) == Lost
    {
      hide Taken, EndOf, Pushed;
      toDrop := [];
      var todo := clients;
      ghost var done: set<Fd> := {};
      NothingPushed(wires, data, replies);
      while todo != {}
        invariant forall x :: x in clients <==> x in todo || x in done
        invariant forall x :: x in done ==> x !in todo
        invariant wires.Keys == old(wires).Keys && Pushed(old(wires), wires, done, data, replies)
        invariant forall x :: x in slowClients
                         <==> x in old(slowClients) || (x in done && EndOf(replies(x), |data|) == Slow)
        invariant forall x :: x in toDrop <==> x in done && EndOf(replies(x), |data|) == Lost
        decreases |todo|
      {
        var fd :| fd in todo;
        PushedOneMore(old(wires), wires, done, fd, data, replies);
        var failed := SendTo(fd, data, replies(fd));
        if failed { toDrop := toDrop + [fd]; }
        todo, done := todo - {fd}, done + {fd};
      }
      assert done == clients;
    }

    /** One message to every client; those whose connection fails are dropped afterwards. */
    method Broadcast(m: Message, replies: Fd -> seq<Reply>)
      requires clients <= wires.Keys
      modifies this`wires, this`clients, this`slowClients
      ensures WiresTook(old(wires), wires, old(clients), m, replies)
      ensures var lost := Ended(old(clients), replies, |Encode(m)|, Lost);
              && clients == old(clients) - lost
              && slowClients == old(slowClients) + Ended(old(clients), replies, |Encode(m)|, Slow) - lost
    {
      hide Encode, Taken, EndOf;
      var toDrop := SendAll(Encode(m), replies);
      ghost var lost := Ended(clients, replies, |Encode(m)|, Lost);
      ghost var slow := slowClients;
      DropAll(toDrop);
      assert clients == old(clients) - lost;
      assert slowClients == slow - lost;
    }

    /** Take the next number for m and offer it to every client. */
    method Publish(m: Message, replies: Fd -> seq<Reply>)
      requires symbolCount > 0 && Inv(sim, symbolCount) && seqNo == sim.next % TWO_32
      requires clients == sim.clients && slowClients == sim.slow && WiresShow(wires, sim)
      requires forall fd :: fd in sim.clients ==>
                 FateFits(Offered(m, 0), seqNo, EndsSkipped(sim.conns[fd].log), symbolCount)
      modifies this`seqNo, this`wires, this`clients, this`slowClients, this`sim
      ensures Valid() && sim == Offer(old(sim), m, replies)
      ensures seqNo == (old(seqNo) + 1) % TWO_32 && WiresTook(old(wires), wires, old(clients), m, replies)
    {
      hide Encode, Taken, Ended, BytesOf, Carried, FateFits, Coherent, WiresTook;
      seqNo := (seqNo + 1) % TWO_32;
      OfferKeeps(sim, m, replies, symbolCount);
      Broadcast(m, replies);
      OfferShows(old(wires), wires, sim, m, replies);
      sim := Offer(sim, m, replies);
    }

    method SkipNumber()
      requires Valid() && seqNo % 100 == 0
      modifies this`seqNo, this`sim
      ensures sim == Skip(old(sim)) && seqNo == sim.next % TWO_32 == (old(seqNo) + 1) % TWO_32
      ensures Inv(sim, symbolCount) && WiresShow(wires, sim)
    {
      hide FateFits, Coherent, WiresShow;
      SkipKeeps(sim, symbolCount);
      SkipShows(wires, sim);
      seqNo := (seqNo + 1) % TWO_32;
      sim := Skip(sim);
    }

    method GenerateAndBroadcast(d: Draw, replies: Fd -> seq<Reply>)
      requires Valid()
      modifies this`seqNo, this`wires, this`clients, this`slowClients, this`sim
      ensures Valid() && sim == Tick(old(sim), symbolCount, faultInjection, d, replies)
      ensures old(clients) != {} ==>
                var skip := faultInjection && old(seqNo) % 100 == 0;
                var number := if skip then (old(seqNo) + 1) % TWO_32 else old(seqNo);
                && seqNo == (number + 1) % TWO_32
                && exists m ::
                     && IsTick(m, old(seqNo), number, symbolCount, d)
                     && WiresTook(old(wires), wires, old(clients), m, replies)
    {
      hide Inv, Settled, FateFits, MakeTick, Skip, SymbolFor, EndsSkipped, Offer, WiresShow, IsTick, WiresTook;
      if clients == {} { return; }
      var sym := SymbolFor(seqNo, symbolCount);
      if faultInjection && seqNo % 100 == 0 {
        SkipNumber();
      }
      TickFits(old(sim), symbolCount, faultInjection, d);
      TickMade(old(seqNo), seqNo, symbolCount, d);
      Publish(MakeTick(sym, seqNo, d), replies);
    }

    method SendHeartbeat(d: Draw, replies: Fd -> seq<Reply>)
      requires Valid()
      modifies this`seqNo, this`wires, this`clients, this`slowClients, this`sim
      ensures Valid() && sim == Beat(old(sim), d, replies)
      ensures old(clients) != {} ==>
                && seqNo == (old(seqNo) + 1) % TWO_32
                && exists m :: IsHeartbeat(m, old(seqNo), d) && WiresTook(old(wires), wires, old(clients), m, replies)
    {
      hide Encode, Carried, Coherent, Offer, WiresShow;
      if clients != {} {
        Publish(MakeHeartbeat(seqNo, d), replies);
      }
    }

    method Poll(events: seq<Event>)
      requires Valid()
      modifies this`clients, this`slowClients, this`wires, this`sim
      ensures Valid() && sim == Polled(old(sim), events)
    {
      hide FateFits, Coherent, Carried;
      for i := 0 to |events|
        invariant Valid() && sim == Polled(old(sim), events[..i])
      {
        assert events[..i + 1][..i] == events[..i];
        PolledKeeps(old(sim), events[..i + 1], symbolCount);
        match events[i] {
          case NewConnection(fd) => HandleNewConnection(fd);
          case HangUp(fd) =>
            HandleDisconnect(fd);
            sim := Disconnect(sim, fd);
          case ClientData(_) =>
        }
      }
      assert events[..|events|] == events;
    }

    /** The main loop, for as many passes as it lasts. */
    method Run(xs: seq<Pass>, start: real) returns (attempts: nat, beats: nat)
      requires Valid()
      modifies this
      ensures Valid()
      ensures var l := Passes(Begin(old(sim), start), symbolCount, xs);
              sim == l.sim && attempts == l.attempts && beats == l.beats
    {
      hide Inv, Settled, Tick, Beat, Polled, Passes, WiresShow;
      NoPass(Begin(sim, start), symbolCount);
      assert xs[..0] == [];
      var lastTick, ticksThisSecond: nat := start, 0;
      attempts, beats := 0, 0;
      for i := 0 to |xs|
        invariant Valid()
        invariant Loop(sim, Pace(lastTick, ticksThisSecond), attempts, beats)
               == Passes(Begin(old(sim), start), symbolCount, xs[..i])
      {
        PassesOneMore(Begin(old(sim), start), symbolCount, xs, i);
        Poll(xs[i].events);
        tickRate, faultInjection := xs[i].rate, xs[i].fault;
        var elapsed := xs[i].now - lastTick;
        var targetTicks := (elapsed * tickRate as real).Floor;
        if ticksThisSecond < targetTicks {
          GenerateAndBroadcast(xs[i].tick, xs[i].tickReplies);
          ticksThisSecond := ticksThisSecond + 1;
          attempts := attempts + 1;
        }
        if elapsed >= 1.0 {
          lastTick := xs[i].now;
          ticksThisSecond := 0;
          if clients != {} { beats := beats + 1; }
          SendHeartbeat(xs[i].beat, xs[i].beatReplies);
        }
      }
      assert xs[..|xs|] == xs;
    }
  }

  /** Every client's socket has taken the first bytes of m, as many as its replies say, and no other socket anything. */
  ghost predicate WiresTook(was: map<Fd, seq<byte>>, now: map<Fd, seq<byte>>, clients: set<Fd>,
                            m: Message, replies: Fd -> seq<Reply>) {
    && now.Keys == was.Keys
    && forall fd :: fd in was ==>
         now[fd] == if fd in clients then was[fd] + Encode(m)[..Taken(replies(fd), |Encode(m)|)] else was[fd]
  }

  /** Each of these clients' sockets has taken its part of data, the others nothing. */
  ghost predicate Pushed(was: map<Fd, seq<byte>>, now: map<Fd, seq<byte>>, done: set<Fd>,
                         data: seq<byte>, replies: Fd -> seq<Reply>) {
    && now.Keys == was.Keys
    && forall fd :: fd in was ==>
         now[fd] == if fd in done then was[fd] + data[..Taken(replies(fd), |data|)] else was[fd]
  }

  lemma NothingPushed(was: map<Fd, seq<byte>>, data: seq<byte>, replies: Fd -> seq<Reply>)
    ensures Pushed(was, was, {}, data, replies)
  {
  }

  lemma PushedOneMore(was: map<Fd, seq<byte>>, now: map<Fd, seq<byte>>, done: set<Fd>, fd: Fd,
                      data: seq<byte>, replies: Fd -> seq<Reply>)
    requires Pushed(was, now, done, data, replies) && fd in now && fd !in done
    ensures Pushed(was, now[fd := now[fd] + data[..Taken(replies(fd), |data|)]], done + {fd}, data, replies)
  {
    hide Taken;
  }

  /** The bytes in the sockets are those the histories tell of. */
  ghost predicate WiresShow(wires: map<Fd, seq<byte>>, s: Sim) {
    && wires.Keys == s.conns.Keys
    && forall fd :: fd in wires ==> wires[fd] == Carried(s.conns[fd].log)
  }

  lemma ConnectShows(wires: map<Fd, seq<byte>>, s: Sim, fd: Fd)
    requires WiresShow(wires, s)
    ensures WiresShow(wires[fd := []], Connect(s, fd))
  {
  }

  lemma SkipShows(wires: map<Fd, seq<byte>>, s: Sim)
    requires WiresShow(wires, s)
    ensures WiresShow(wires, Skip(s))
  {
    hide Carried;
    forall fd | fd in wires ensures wires[fd] == Carried(Skip(s).conns[fd].log) {
      CarriedGrows(s.conns[fd].log, Skipped);
    }
  }

  lemma OfferedBytes(m: Message, replies: seq<Reply>)
    ensures BytesOf(Offered(m, Taken(replies, |Encode(m)|))) == Encode(m)[..Taken(replies, |Encode(m)|)]
  {
    hide Encode, Taken;
  }

  lemma OfferShows(was: map<Fd, seq<byte>>, now: map<Fd, seq<byte>>, s: Sim, m: Message, replies: Fd -> seq<Reply>)
    requires WiresShow(was, s) && WiresTook(was, now, s.clients, m, replies)
    ensures WiresShow(now, Offer(s, m, replies))
  {
    hide Carried, BytesOf, Encode, Taken, Ended;
    forall fd | fd in now ensures now[fd] == Carried(Offer(s, m, replies).conns[fd].log) {
      CarriedGrows(s.conns[fd].log, Offered(m, Taken(replies(fd), |Encode(m)|)));
      OfferedBytes(m, replies(fd));
    }
  }
}
