/**
  What a send that stops in the middle of a message does to the accounting: exactly when it does no harm.
 */
module ShortSends {
  import opened Bytes
  import opened Checksum
  import opened Protocol
  import opened Reassembly
  import opened Recovery
  import opened Simulator
  import opened EndToEnd

  // ----- what a clean end of the stream says about its front

  /** The rest of a stream brings exactly these messages and shows no bad checksum. */
  ghost predicate Clean(c: Counters, s: seq<byte>, ms: seq<Message>) {
    var r := Parse(c, s);
    r.out == Deliveries(ms) && r.counters.bad == c.bad
  }

  lemma {:induction false} BadOnlyGrows(c: Counters, s: seq<byte>)
    requires c.bad as nat + |s| < TWO_64
    ensures c.bad <= Parse(c, s).counters.bad
    decreases |s|
  {
    hide Scan, Parse, Accept, Dispatch, SeqOf;
    assert s[0..] == s;
    ParseStep(c, s, 0);
    match Scan(s)
    case NeedMore => NothingYet(c, s);
    case Unknown => BadOnlyGrows(c, s[1..]);
    case Damaged(n) => BadOnlyGrows(Reject(c), s[n..]);
    case Accepted(n) =>
      AcceptSets(c, SeqOf(s[0..n]));
      BadOnlyGrows(Accept(c, SeqOf(s[0..n])), s[n..]);
  }

  lemma KnownScan(s: seq<byte>)
    requires |s| >= 2 && MsgTotalSize(TypeOf(s)) != 0
    ensures var n := MsgTotalSize(TypeOf(s));
            || Scan(s) == NeedMore || (n <= |s| && (Scan(s) == Damaged(n) || Scan(s) == Accepted(n)))
  {
    hide ChecksumOk;
  }

  lemma HeadOfDeliveries(d: Delivery, out: seq<Delivery>, ms: seq<Message>)
    requires [d] + out == Deliveries(ms)
    ensures ms != [] && d == Dispatch(Encode(ms[0])) && out == Deliveries(ms[1..])
  {
    hide Encode, Dispatch;
    assert ms != [];
    assert d == ([d] + out)[0] && out == ([d] + out)[1..];
    assert Deliveries(ms)[1..] == Deliveries(ms[1..]);
  }

  /** When bytes with a known type bring some messages cleanly, the first frame of them is the first message. */
  lemma FirstFrame(c: Counters, s: seq<byte>, ms: seq<Message>) returns (c': Counters)
    requires |s| >= 2 && MsgTotalSize(TypeOf(s)) != 0 && c.bad as nat + |s| < TWO_64
    requires Clean(c, s, ms) && ms != []
    ensures var n := MsgTotalSize(TypeOf(s));
            && n <= |s| && s[..n] == Encode(ms[0])
            && c'.bad == c.bad && Clean(c', s[n..], ms[1..])
  {
    hide Scan, Parse, Accept, Dispatch, SeqOf, Encode, Deliveries;
    var n := MsgTotalSize(TypeOf(s));
    KnownScan(s);
    assert s[0..] == s;
    ParseStep(c, s, 0);
    match Scan(s)
    case NeedMore => NothingYet(c, s);
    case Damaged(_) => BadOnlyGrows(Reject(c), s[n..]);
    case Accepted(_) =>
      var f := s[0..n];
      c' := Accept(c, SeqOf(f));
      AcceptSets(c, SeqOf(f));
      HeadOfDeliveries(Dispatch(f), Parse(c', s[n..]).out, ms);
      assert Dispatch(f).frame == Dispatch(Encode(ms[0])).frame;
      assert s[..n] == f;
  }

  /** When they bring none, they are fewer than their type asks for. */
  lemma NothingOfIt(c: Counters, s: seq<byte>)
    requires |s| >= 2 && MsgTotalSize(TypeOf(s)) != 0 && c.bad as nat + |s| < TWO_64
    requires Clean(c, s, [])
    ensures |s| < MsgTotalSize(TypeOf(s))
  {
    hide Parse, Accept, Dispatch, SeqOf, Encode, ChecksumOk;
    var n := MsgTotalSize(TypeOf(s));
    assert s[0..] == s;
    ParseStep(c, s, 0);
    if |s| >= n && Scan(s) == Damaged(n) { BadOnlyGrows(Reject(c), s[n..]); }
  }

  /** Stray single bytes in front of a message, whole or cut, are skipped. */
  lemma {:induction false} StubsSkipped(c: Counters, g: seq<byte>, s: seq<byte>, ms: seq<Message>)
    requires Stubs(g) && s != [] && 1 <= s[0] <= 3 && Clean(c, g + s, ms)
    ensures Clean(c, s, ms)
    decreases |g|
  {
    hide Parse, Deliveries;
    var u := g + s;
    if g == [] {
      assert u == s;
    } else {
      assert u[0] == g[0] && 1 <= u[1] <= 3;
      assert u[0..] == u && u[1..] == g[1..] + s;
      ParseStep(c, u, 0);
      if |u| < HEADER_SIZE {
        NothingYet(c, u);
        NothingYet(c, s);
      } else {
        assert Scan(u) == Unknown;
        StubsSkipped(c, g[1..], s, ms);
      }
    }
  }

  // ----- a message cut behind its sequence number

  /** Whatever follows, the cut message is rejected, or delivered under a number nobody sent, unless it and all that
      follows stay short of its length. */
  lemma LongCut(c: Counters, m: Message, k: nat, tail: seq<byte>, ms: seq<Message>)
    requires 6 <= k < |Encode(m)| && c.bad as nat + k + |tail| < TWO_64
    requires ms != [] ==> ms[0].seqNo != m.seqNo
    ensures Clean(c, Encode(m)[..k] + tail, ms) ==> ms == [] && k + |tail| < |Encode(m)|
  {
    hide Encode, Clean, SeqOf;
    var s := Encode(m)[..k] + tail;
    CutType(m, k, tail);
    if Clean(c, s, ms) {
      if ms == [] {
        NothingOfIt(c, s);
      } else {
        var c' := FirstFrame(c, s, ms);
        EncodeIsFrame(m);
        EncodeIsFrame(ms[0]);
        SeqOfFront(Encode(m), Encode(ms[0]), k);
      }
    }
  }

  lemma SeqOfFront(e: seq<byte>, f: seq<byte>, k: nat)
    requires 6 <= k <= |e| && k <= |f| && HEADER_SIZE <= |e| && HEADER_SIZE <= |f| && e[..k] == f[..k]
    ensures SeqOf(e) == SeqOf(f)
  {
    assert e[2..6] == e[..k][2..6] == f[..k][2..6] == f[2..6];
  }

  // ----- a message cut within its sequence number

  /** The encodings of these messages one after the other. */
  function EncodeAll(ms: seq<Message>): seq<byte> {
    if ms == [] then [] else Encode(ms[0]) + EncodeAll(ms[1..])
  }

  /** The frame begins with p, and goes on by repeating itself p's length later. */
  ghost predicate Repeats(e: seq<byte>, p: seq<byte>) {
    |p| <= |e| && e == p + e[..|e| - |p|]
  }

  lemma OnePeriod(i: nat, k: nat)
    requires 2 <= k <= 5 && k <= i
    ensures i % k == (i - k) % k
  {
    if k == 2 {} else if k == 3 {} else if k == 4 {} else {}
  }

  lemma {:induction false} RepeatsAt(e: seq<byte>, p: seq<byte>, i: nat)
    requires Repeats(e, p) && 2 <= |p| <= 5 && i < |e|
    ensures e[i] == p[i % |p|]
  {
    if i < |p| {
      assert (p + e[..|e| - |p|])[i] == p[i];
    } else {
      RepeatsAt(e, p, i - |p|);
      assert (p + e[..|e| - |p|])[i] == e[i - |p|];
      OnePeriod(i, |p|);
    }
  }

  /** The parity of the bits x[j % k], x[(j + 4) % k], ..., m of them, where k is the length of x. */
  predicate Parity(x: seq<bool>, j: nat, m: nat)
    requires x != []
  {
    m > 0 && Parity(x, j, m - 1) != x[(4 * (m - 1) + j) % |x|]
  }

  function BitsOf(p: seq<byte>, b: nat): (x: seq<bool>)
    ensures |x| == |p| && forall i :: 0 <= i < |p| ==> x[i] == BitAt(p[i], b)
  {
    if p == [] then [] else [BitAt(p[0], b)] + BitsOf(p[1..], b)
  }

  lemma OneWord(e: seq<byte>, j: nat, b: nat, m: nat)
    requires j < 4 && b < 8 && m > 0 && 4 * m <= |e|
    ensures LaneParity(e, 8 * j + b, m) == (LaneParity(e, 8 * j + b, m - 1) != BitAt(e[4 * (m - 1) + j], b))
  {
    var i := 4 * (m - 1) + j;
    assert (32 * (m - 1) + (8 * j + b)) / 8 == i && (32 * (m - 1) + (8 * j + b)) % 8 == b;
  }

  lemma NoWord(e: seq<byte>, lane: nat)
    requires lane < 32
    ensures !LaneParity(e, lane, 0)
  {
  }

  /** One bit lane of a repeating frame. */
  lemma {:induction false} LaneOfRepeats(e: seq<byte>, p: seq<byte>, b: nat, j: nat, m: nat)
    requires Repeats(e, p) && 2 <= |p| <= 5 && b < 8 && j < 4 && 4 * m <= |e|
    ensures LaneParity(e, 8 * j + b, m) == Parity(BitsOf(p, b), j, m)
  {
    hide BitAt, LaneParity, Repeats;
    if m > 0 {
      LaneOfRepeats(e, p, b, j, m - 1);
      OneWord(e, j, b, m);
      var i := 4 * (m - 1) + j;
      RepeatsAt(e, p, i);
      assert BitsOf(p, b)[i % |p|] == BitAt(e[i], b);
    } else {
      NoWord(e, 8 * j + b);
    }
  }

  /** In a valid repeating frame of m words every lane cancels. */
  lemma LanesCancel(e: seq<byte>, p: seq<byte>, b: nat, m: nat)
    requires Repeats(e, p) && 2 <= |p| <= 5 && b < 8 && |e| == 4 * m && m > 0 && ChecksumOk(e)
    ensures forall j :: 0 <= j < 4 ==> !Parity(BitsOf(p, b), j, m)
  {
    hide ChecksumOk, BitAt, Parity, Repeats, XorOfWords;
    ValidIffWordsCancel(e, m);
    forall j | 0 <= j < 4 ensures !Parity(BitsOf(p, b), j, m) {
      LaneOfRepeats(e, p, b, j, m);
      XorOfWordsBit(e, 8 * j + b, m);
      ZeroBit(8 * j + b);
    }
  }

  /** No pattern of three bits that starts 1, 0 cancels in all lanes of a message. */
  lemma ParityOfThree(x: seq<bool>, m: nat)
    requires |x| == 3 && x[0] && !x[1] && (m == 5 || m == 8 || m == 11)
    ensures Parity(x, 0, m) || Parity(x, 1, m)
  {
    Parity8(x, 0); Parity8(x, 1);
  }

  /** Nor one of five bits, except in five words. */
  lemma ParityOfFive(x: seq<bool>, m: nat)
    requires |x| == 5 && x[0] && !x[1] && (m == 8 || m == 11)
    ensures Parity(x, 0, m) || Parity(x, 1, m) || Parity(x, 2, m) || Parity(x, 3, m)
  {
    Parity8(x, 0); Parity8(x, 1); Parity8(x, 2); Parity8(x, 3);
  }

  lemma Parity8(x: seq<bool>, j: nat)
    requires x != [] && j < 4
    ensures Parity(x, j, 0) == false
    ensures Parity(x, j, 1) == (Parity(x, j, 0) != x[j % |x|])
    ensures Parity(x, j, 2) == (Parity(x, j, 1) != x[(4 + j) % |x|])
    ensures Parity(x, j, 3) == (Parity(x, j, 2) != x[(8 + j) % |x|])
    ensures Parity(x, j, 4) == (Parity(x, j, 3) != x[(12 + j) % |x|])
    ensures Parity(x, j, 5) == (Parity(x, j, 4) != x[(16 + j) % |x|])
    ensures Parity(x, j, 6) == (Parity(x, j, 5) != x[(20 + j) % |x|])
    ensures Parity(x, j, 7) == (Parity(x, j, 6) != x[(24 + j) % |x|])
    ensures Parity(x, j, 8) == (Parity(x, j, 7) != x[(28 + j) % |x|])
    ensures Parity(x, j, 9) == (Parity(x, j, 8) != x[(32 + j) % |x|])
    ensures Parity(x, j, 10) == (Parity(x, j, 9) != x[(36 + j) % |x|])
    ensures Parity(x, j, 11) == (Parity(x, j, 10) != x[(40 + j) % |x|])
  {
  }

  /** A bit that the type code has. */
  lemma TypeBit(t: byte) returns (b: nat)
    requires 1 <= t <= 3
    ensures b < 8 && BitAt(t, b) && !BitAt(0, b)
  {
    b := if t == 2 then 1 else 0;
    ZeroBit(b);
  }

  /** A heartbeat has symbol zero on the wire. */
  lemma BeatSymbol(m: Message)
    requires m.Heartbeat? && m.sym == 0
    ensures |Encode(m)| == 20 && Encode(m)[15] == 0
  {
    hide Sum, ToLe;
    var tail := ToLe(Sum(Header(m) + Payload(m), 16), 4);
    assert Payload(m) == [] && Header(m) + [] == Header(m);
    HeaderFields(m, tail);
    var f := Header(m) + tail;
    assert Encode(m) == f;
    FieldBytes(f, 14, 2);
    ZeroWord();
    assert f[15] == f[14..16][1];
  }

  lemma ZeroWord()
    ensures ToLe(0, 2) == [0, 0]
  {
    TypeBytes(0);
  }

  /** No message repeats its own first three or five bytes throughout. */
  lemma NoOddRepeat(m: Message, p: seq<byte>)
    requires (m.Heartbeat? ==> m.sym == 0) && (|p| == 3 || |p| == 5)
    ensures !Repeats(Encode(m), p)
  {
    hide Encode, Parity, ChecksumOk, BitAt, BitsOf;
    var e := Encode(m);
    EncodeIsFrame(m);
    if Repeats(e, p) {
      RepeatsAt(e, p, 0);
      RepeatsAt(e, p, 1);
      var b := TypeBit(p[0]);
      var x, w := BitsOf(p, b), |e| / 4;
      assert x[0] == BitAt(p[0], b) && x[1] == BitAt(p[1], b);
      LanesCancel(e, p, b, w);
      if |p| == 3 {
        ParityOfThree(x, w);
      } else if w == 5 {
        BeatSymbol(m);
        RepeatsAt(e, p, 15);
      } else {
        ParityOfFive(x, w);
      }
    }
  }

  /** A pattern of two or four bits that starts with 1 cancels only in an even number of words. */
  lemma ParityOfFour(x: seq<bool>, m: nat)
    requires (|x| == 2 || |x| == 4) && x[0] && (m == 5 || m == 11)
    ensures Parity(x, 0, m)
  {
    Parity8(x, 0);
  }

  /** The bytes at which a repeating frame has its number. */
  lemma RepeatedNumber(e: seq<byte>, p: seq<byte>)
    requires Repeats(e, p) && (|p| == 2 || |p| == 4) && |e| >= HEADER_SIZE
    ensures var k := |p|; e[2] == p[2 % k] && e[3] == p[3 % k] && e[4] == p[0] && e[5] == p[1]
  {
    hide Repeats;
    RepeatsAt(e, p, 2); RepeatsAt(e, p, 3); RepeatsAt(e, p, 4); RepeatsAt(e, p, 5);
  }

  lemma NumberAt(m: Message)
    ensures |Encode(m)| >= HEADER_SIZE
    ensures var e := Encode(m);
            m.seqNo as nat == e[2] as nat + 0x100 * e[3] as nat + 0x1_0000 * e[4] as nat + 0x100_0000 * e[5] as nat
  {
    EncodeIsFrame(m);
    hide Encode, FromLe;
    WordAtIsFromLe(Encode(m), 2);
  }

  /** How the simulator numbers trades and addresses heartbeats. */
  predicate Regular(m: Message) {
    && (m.Trade? ==> m.seqNo % 10 < 3)
    && (m.Heartbeat? ==> m.sym == 0)
  }

  lemma TypeIsKind(m: Message)
    ensures Encode(m)[0] == 1 <==> m.Trade?
    ensures |Encode(m)| == 32 <==> m.Trade?
  {
    EncodeIsFrame(m);
  }

  lemma EvenRepeatIsTrade(m: Message, p: seq<byte>)
    requires (|p| == 2 || |p| == 4) && Repeats(Encode(m), p)
    ensures m.Trade? && p[0] == 1 && p[1] == 0
  {
    EncodeIsFrame(m);
    TypeIsKind(m);
    hide Encode, Parity, ChecksumOk, BitAt, BitsOf, Repeats;
    var e := Encode(m);
    RepeatsAt(e, p, 0);
    RepeatsAt(e, p, 1);
    var b := TypeBit(p[0]);
    var x, w := BitsOf(p, b), |e| / 4;
    assert x[0] == BitAt(p[0], b);
    LanesCancel(e, p, b, w);
    if w != 8 { ParityOfFour(x, w); }
  }

  lemma LowHalf(m: Message)
    ensures |Encode(m)| >= HEADER_SIZE
    ensures m.seqNo as nat % 0x1_0000 == Encode(m)[2] as nat + 0x100 * Encode(m)[3] as nat
  {
    NumberAt(m);
    hide Encode;
  }

  /** No message repeats the first two or four bytes of an earlier one throughout: it would have to be a trade, number
      65537 or 65536 more than the earlier trade, and trades end in 0, 1 or 2. */
  lemma NoEvenRepeat(m: Message, m': Message, k: nat)
    requires (k == 2 || k == 4) && Regular(m) && Regular(m') && m.seqNo < m'.seqNo
    ensures |Encode(m)| >= k && !Repeats(Encode(m'), Encode(m)[..k])
  {
    LowHalf(m);
    NumberAt(m');
    TypeIsKind(m);
    hide Encode, Repeats;
    var e, p := Encode(m'), Encode(m)[..k];
    if Repeats(e, p) {
      EvenRepeatIsTrade(m', p);
      RepeatedNumber(e, p);
      assert p[0] == Encode(m)[0];
      NotBothTrades(m.seqNo, m'.seqNo, if k == 2 then 1 else p[2], if k == 2 then 0 else p[3], k);
    }
  }

  lemma LowNumber(n: nat, low: nat)
    requires low < 0x1_0000 && n % 0x1_0000 == low && n < low + 0x1_0000
    ensures n == low
  {
    var q := n / 0x1_0000;
    assert n == 0x1_0000 * q + low;
    assert q == 0;
  }

  /** Numbers 65536 apart do not both end in 0, 1 or 2. */
  lemma Apart(low: nat)
    ensures low % 10 >= 3 || (low + 0x1_0000) % 10 >= 3
  {
    assert (low + 0x1_0000) % 10 == (low % 10 + 6) % 10;
  }

  lemma NotBothTrades(n: nat, n': nat, lo: byte, hi: byte, k: nat)
    requires n < n' && n' == lo as nat + 0x100 * hi as nat + 0x1_0000
    requires (k == 2 && lo == 1 && hi == 0) || (k == 4 && n % 0x1_0000 == lo as nat + 0x100 * hi as nat)
    ensures n % 10 >= 3 || n' % 10 >= 3
  {
    if k == 4 {
      LowNumber(n, lo as nat + 0x100 * hi as nat);
      Apart(n);
    }
  }

  /** A cut of two to five bytes followed by whole messages: the first frame must then repeat the cut. */
  lemma CutRepeats(c: Counters, m: Message, k: nat, ms: seq<Message>)
    requires 2 <= k <= 5 && c.bad as nat + k + |EncodeAll(ms)| < TWO_64
    requires Clean(c, Encode(m)[..k] + EncodeAll(ms), ms) && ms != []
    ensures Repeats(Encode(ms[0]), Encode(m)[..k])
  {
    hide Encode, Clean;
    EncodeIsFrame(m);
    var p := Encode(m)[..k];
    var s := p + EncodeAll(ms);
    CutType(m, k, EncodeAll(ms));
    hide TypeOf, MsgTotalSize;
    var c' := FirstFrame(c, s, ms);
    Overlap(p, Encode(ms[0]), EncodeAll(ms[1..]));
  }

  /** The first |e| bytes of p followed by e repeat p where e does. */
  lemma Overlap(p: seq<byte>, e: seq<byte>, rest: seq<byte>)
    requires |p| <= |e|
    ensures (p + (e + rest))[..|e|] == p + e[..|e| - |p|]
  {
  }

  /** So a cut of two to five bytes spoils any whole messages that follow. */
  lemma ShortCut(c: Counters, m: Message, k: nat, ms: seq<Message>)
    requires 2 <= k <= 5 && c.bad as nat + k + |EncodeAll(ms)| < TWO_64
    requires ms != [] && Regular(m) && Regular(ms[0]) && m.seqNo < ms[0].seqNo
    ensures !Clean(c, Encode(m)[..k] + EncodeAll(ms), ms)
  {
    hide Encode, Clean, Repeats;
    if Clean(c, Encode(m)[..k] + EncodeAll(ms), ms) {
      EncodeIsFrame(m);
      CutRepeats(c, m, k, ms);
      if k == 3 || k == 5 {
        NoOddRepeat(ms[0], Encode(m)[..k]);
      } else {
        NoEvenRepeat(m, ms[0], k);
      }
    }
  }

  // ----- exactly when the accounting survives short sends

  /** If the first send that stopped after more than one byte stopped within five, and some message was sent whole
      after it, then it was the last that stopped. */
  ghost predicate ShortCutIsLast(log: seq<Fate>) {
    forall i :: 0 <= i < |log| && IsPartial(log[i]) && 2 <= log[i].taken <= 5 && OnlyStubs(log[..i]) ==>
      SomeSent(log[i + 1..]) ==> forall j :: i < j < |log| ==> !IsPartial(log[j])
  }

  lemma {:induction false} DeliveriesAppend(a: seq<Message>, b: seq<Message>)
    ensures Deliveries(a + b) == Deliveries(a) + Deliveries(b)
    decreases |a|
  {
    hide Encode, Dispatch;
    if a == [] {
      assert a + b == b;
    } else {
      assert (a + b)[1..] == a[1..] + b && (a + b)[0] == a[0];
      DeliveriesAppend(a[1..], b);
      var head := [Dispatch(Encode(a[0]))];
      assert head + Deliveries(a[1..]) + Deliveries(b) == head + (Deliveries(a[1..]) + Deliveries(b));
    }
  }

  lemma {:induction false} CarriedBound(log: seq<Fate>)
    ensures |Carried(log)| <= MAX_MSG_SIZE * |log|
  {
    hide Encode;
    if log != [] { CarriedBound(log[1..]); }
  }

  /** With no more cuts the stream is the encodings of what is sent. */
  lemma {:induction false} WholeFromHere(log: seq<Fate>)
    requires forall i :: 0 <= i < |log| ==> !IsPartial(log[i])
    ensures Carried(log) == EncodeAll(SentIn(log))
  {
    hide Encode;
    if log != [] {
      WholeFromHere(log[1..]);
      if IsSent(log[0]) {
        SentBytes(log[0]);
        assert SentIn(log)[1..] == SentIn(log[1..]);
      } else {
        assert SentIn(log) == SentIn(log[1..]);
      }
    }
  }

  lemma {:induction false} SentLater(first: nat, log: seq<Fate>)
    requires Numbered(first, log)
    ensures forall j :: 0 <= j < |SentIn(log)| ==> SentIn(log)[j].seqNo >= first
    decreases |log|
  {
    hide Encode;
    if log != [] {
      SentLater(first + 1, log[1..]);
      if IsSent(log[0]) {
        assert SentIn(log)[1..] == SentIn(log[1..]);
      } else {
        assert SentIn(log) == SentIn(log[1..]);
      }
    }
  }

  ghost predicate AllRegular(log: seq<Fate>) {
    forall i :: 0 <= i < |log| && log[i].Offered? ==> Regular(log[i].m)
  }

  lemma FateIsRegular(x: Fate, n: u32, afterSkip: bool, symbols: nat)
    requires symbols > 0 && FateFits(x, n, afterSkip, symbols) && x.Offered?
    ensures Regular(x.m)
  {
    hide Encode, SymbolFor;
  }

  lemma CoherentRegular(c: Conn, symbols: nat)
    requires symbols > 0 && Coherent(c, symbols)
    ensures AllRegular(c.log)
  {
    hide FateFits, Regular;
    forall i | 0 <= i < |c.log| && c.log[i].Offered? ensures Regular(c.log[i].m) {
      FateIsRegular(c.log[i], (c.first + i) % TWO_32, EndsSkipped(c.log[..i]), symbols);
    }
  }

  lemma SentRegular(log: seq<Fate>)
    requires AllRegular(log)
    ensures forall j :: 0 <= j < |SentIn(log)| ==> Regular(SentIn(log)[j])
  {
    hide SentIn, Regular;
    forall j | 0 <= j < |SentIn(log)| ensures Regular(SentIn(log)[j]) {
      SentFrom(log, j);
    }
  }

  /** Intact messages come off the front of a clean stream. */
  lemma PeelSegments(xs: seq<Segment>, s: seq<byte>, ms: seq<Message>) returns (c: Counters)
    requires Arrives(xs) && forall i :: 0 <= i < |xs| ==> Intact(xs[i])
    requires Clean(Fresh, Wire(xs) + s, Kept(xs) + ms)
    ensures c.bad == 0 && Clean(c, s, ms)
  {
    hide Parse, Deliveries, Wire, CountersOver, Intact, Arrives, Kept;
    ParseSegments(Fresh, xs);
    AllKept(Fresh, xs);
    c := CountersOver(Fresh, xs);
    ParseSplit(Fresh, Wire(xs), s);
    assert [] + s == s;
    DeliveriesAppend(Kept(xs), ms);
    Peel(Deliveries(Kept(xs)), Parse(c, s).out, Deliveries(ms));
  }

  /** Everything up to a position with nothing but stray single bytes is parsed away. */
  lemma UpTo(pre: seq<Fate>, s: seq<byte>, ms: seq<Message>) returns (c: Counters)
    requires OnlyStubs(pre) && Clean(Fresh, Carried(pre) + s, SentIn(pre) + ms)
    ensures c.bad == 0 && Clean(c, Pending(pre, []) + s, ms)
  {
    hide Clean, SentIn, Segments, Pending, Carried, Wire, Kept, Intact, OnlyStubs;
    FrontOfStream(pre, s);
    NoStubs();
    SegmentsArrive(pre, []);
    SegmentsKeepSent(Fresh, pre, []);
    c := PeelSegments(Segments(pre, []), Pending(pre, []) + s, ms);
  }

  lemma Peel(a: seq<Delivery>, b: seq<Delivery>, b': seq<Delivery>)
    requires a + b == a + b'
    ensures b == b'
  {
    assert b == (a + b)[|a|..] && b' == (a + b')[|a|..];
  }

  /** The first cut of two bytes or more. */
  lemma FirstCut(log: seq<Fate>) returns (i: nat)
    requires !OnlyStubs(log)
    ensures i < |log| && IsPartial(log[i]) && log[i].taken >= 2 && OnlyStubs(log[..i])
  {
    hide Encode;
    i := 0;
    while !IsPartial(log[i]) || log[i].taken == 1
      invariant i < |log| && OnlyStubs(log[..i])
      invariant exists j :: i <= j < |log| && IsPartial(log[j]) && log[j].taken != 1
      decreases |log| - i
    {
      i := i + 1;
    }
  }

  lemma NumberedFrom(first: nat, log: seq<Fate>, i: nat)
    requires Numbered(first, log) && i <= |log|
    ensures Numbered(first + i, log[i..])
  {
  }

  /** A cut of two bytes or more comes to a clean end only if it is for good. */
  lemma CutIsForGood(c: Counters, x: Fate, first: nat, post: seq<Fate>)
    requires IsPartial(x) && x.taken >= 2 && x.m.seqNo < first && Numbered(first, post)
    requires Regular(x.m) && AllRegular(post)
    requires x.taken <= 5 && SomeSent(post) ==> forall j :: 0 <= j < |post| ==> !IsPartial(post[j])
    requires c.bad as nat + x.taken + |Carried(post)| < TWO_64
    requires Clean(c, Encode(x.m)[..x.taken] + Carried(post), SentIn(post))
    ensures !SomeSent(post) && x.taken + |Carried(post)| < |Encode(x.m)|
  {
    hide Encode, Clean, SentIn, Carried, SomeSent, Regular, AllRegular;
    SentLater(first, post);
    NoneSent(post);
    if SentIn(post) == [] {
      CutType(x.m, x.taken, Carried(post));
      NothingOfIt(c, Encode(x.m)[..x.taken] + Carried(post));
    } else if x.taken >= 6 {
      LongCut(c, x.m, x.taken, Carried(post), SentIn(post));
    } else {
      WholeFromHere(post);
      SentRegular(post);
      ShortCut(c, x.m, x.taken, SentIn(post));
    }
  }

  lemma FirstByte(x: Fate, tail: seq<byte>)
    requires IsPartial(x)
    ensures var s := Encode(x.m)[..x.taken] + tail; s != [] && 1 <= s[0] <= 3
  {
    EncodeIsFrame(x.m);
  }

  lemma ItsCutIsForGood(first: nat, log: seq<Fate>)
    requires first + |log| <= TWO_32 && Numbered(first, log) && AllRegular(log) && ShortCutIsLast(log)
    requires !OnlyStubs(log) && Clean(Fresh, Carried(log), SentIn(log))
    ensures exists i: nat :: CutForGood(log, i)
  {
    hide Encode, Clean, SentIn, Carried, Pending, OnlyStubs, SomeSent, Regular;
    var i := FirstCut(log);
    var x, post := log[i], log[i + 1..];
    SplitAt(log, i);
    var s := Encode(x.m)[..x.taken] + Carried(post);
    var c := UpTo(log[..i], s, SentIn(post));
    FirstByte(x, Carried(post));
    NoStubs();
    SegmentsArrive(log[..i], []);
    StubsSkipped(c, Pending(log[..i], []), s, SentIn(post));
    NumberedFrom(first, log, i + 1);
    CarriedBound(post);
    CutIsForGood(c, x, first + i + 1, post);
    assert CutForGood(log, i);
  }

  lemma AccountedIsClean(c: Conn)
    requires Accounted(c, Parse(Fresh, Carried(c.log)))
    ensures Clean(Fresh, Carried(c.log), SentIn(c.log))
  {
  }

  /** On a coherent connection without wrap everything is accounted for if and only if every send that stopped in
      mid-message stopped after one byte, or the first that did not was the end of it all. The bytes of a first cut of
      two to five and of further cuts can add up to anything, even to the message that follows, so those are left
      aside when a message does follow; for them just the one direction holds. */
  lemma AccountingIff(c: Conn, symbols: nat, chunks: seq<seq<byte>>)
    requires symbols > 0 && Coherent(c, symbols) && Reach(c) <= TWO_32
    requires Fits(Start, chunks) && Flatten(chunks) == Carried(c.log)
    ensures Harmless(c.log) ==> Accounted(c, FeedAll(Start, chunks))
    ensures ShortCutIsLast(c.log) ==> (Accounted(c, FeedAll(Start, chunks)) <==> Harmless(c.log))
  {
    hide Accounted, CutForGood, OnlyStubs, Carried, SentIn, Clean, Coherent, FeedAll, Parse, Flatten, ShortCutIsLast;
    hide Numbered, AllRegular;
    if Harmless(c.log) {
      ConnectionAccounting(c, symbols, chunks);
    } else if ShortCutIsLast(c.log) && Accounted(c, FeedAll(Start, chunks)) {
      ChunkingInvariance(chunks);
      AccountedIsClean(c);
      CoherentIsNumbered(c, symbols);
      CoherentRegular(c, symbols);
      ItsCutIsForGood(c.first, c.log);
    }
  }

  // ----- what stays in the buffer

  lemma {:induction false} StubsRemain(c: Counters, g: seq<byte>)
    requires Stubs(g) && g != []
    ensures Parse(c, g).rest != []
    decreases |g|
  {
    if |g| >= HEADER_SIZE {
      assert Scan(g) == Unknown;
      StubsRemain(c, g[1..]);
    }
  }

  /** With single stray bytes only, the buffer is empty at the end exactly when a message sent whole followed each. */
  lemma BufferEmptyIff(log: seq<Fate>)
    requires OnlyStubs(log)
    ensures Parse(Fresh, Carried(log)).rest == [] <==> FollowedUp(log)
  {
    hide Parse, Segments, Pending, Carried, Wire, OnlyStubs, FollowedUp;
    var xs, g := Segments(log, []), Pending(log, []);
    NoStubs();
    FrontOfStream(log, []);
    assert Carried(log) + [] == Carried(log) && g + [] == g && [] + g == g;
    SegmentsArrive(log, []);
    ParseSegments(Fresh, xs);
    ParseSplit(Fresh, Wire(xs), g);
    NonePendingIff(log, []);
    if g != [] { StubsRemain(CountersOver(Fresh, xs), g); } else { EmptyParse(CountersOver(Fresh, xs)); }
  }

  /** For every run of the simulator clear of wrap, and each of its connections. */
  lemma SystemAccountingIff(symbols: nat, xs: seq<Pass>, start: real, fd: Fd, chunks: seq<seq<byte>>)
    requires symbols > 0 && Fits(Start, chunks)
    requires var s := Passes(Begin(NewSim, start), symbols, xs).sim;
             s.next <= TWO_32 && fd in s.conns && Flatten(chunks) == Carried(s.conns[fd].log)
    ensures var c := Passes(Begin(NewSim, start), symbols, xs).sim.conns[fd];
            && (Harmless(c.log) ==> Accounted(c, FeedAll(Start, chunks)))
            && (ShortCutIsLast(c.log) ==> (Accounted(c, FeedAll(Start, chunks)) <==> Harmless(c.log)))
  {
    hide Passes, Accounted, Coherent, FeedAll, Carried, Harmless, ShortCutIsLast;
    RunKeeps(Begin(NewSim, start), symbols, xs);
    AccountingIff(Passes(Begin(NewSim, start), symbols, xs).sim.conns[fd], symbols, chunks);
  }
}
