/**
  Two connections with short sends: one that a run of the simulator reaches and that loses a message, and one on which
  the bytes of many short sends add up to the very message that follows them.
 */
module ShortSendRuns {
  import opened Bytes
  import opened Checksum
  import opened Protocol
  import opened Reassembly
  import opened Recovery
  import opened Simulator
  import opened EndToEnd
  import opened ShortSends

  // ----- a message sent whole is lost

  const Beat1 := Heartbeat(1, 0, 0)
  const Beat2 := Heartbeat(2, 0, 0)
  const Zeros: seq<byte> := [0, 0, 0, 0, 0, 0, 0, 0, 0, 0]

  lemma {:induction false} ZeroBytes(k: nat)
    ensures ToLe(0, k) == seq(k, _ => 0)
  {
    if k > 0 { ZeroBytes(k - 1); }
  }

  lemma BeatHeader(n: u32)
    requires n < 256
    ensures Header(Heartbeat(n, 0, 0)) == [3, 0, n, 0, 0, 0] + Zeros
  {
    TypeBytes(3);
    ZeroBytes(3); ZeroBytes(8); ZeroBytes(2);
    assert ToLe(n, 4) == [n] + ToLe(0, 3);
  }

  lemma XorNothing(a: u32)
    ensures Xor(a, 0) == a && Xor(0, a) == a
  {
    var x, y := Xor(a, 0), Xor(0, a);
    forall k | 0 <= k < 32 ensures BitAt(x, k) == BitAt(a, k) && BitAt(y, k) == BitAt(a, k) {
      XorBit(a, 0, k); XorBit(0, a, k);
      ZeroBit(k);
    }
    Pow2Of32();
    BitsDetermine(x, a, 32);
    BitsDetermine(y, a, 32);
  }

  lemma CutBeatSum(f: seq<byte>)
    requires f == [3, 0, 1, 0, 0, 0] + Zeros + [3, 0, 2, 0]
    ensures Sum(f, 16) == 0x1_0003
  {
    hide Sum, Xor;
    SumIsXorOfWords(f, 4);
    XorNothing(0x1_0003);
    assert XorOfWords(f, 0) == 0 && WordAt(f, 0) == 0x1_0003;
    assert XorOfWords(f, 1) == 0x1_0003 && WordAt(f, 4) == 0;
    assert XorOfWords(f, 2) == 0x1_0003 && WordAt(f, 8) == 0;
    assert XorOfWords(f, 3) == 0x1_0003 && WordAt(f, 12) == 0;
  }

  lemma CutBeatBytes(s: seq<byte>)
    requires s == Encode(Beat1)[..16] + Encode(Beat2)
    ensures |s| == 36 && s[..20] == [3, 0, 1, 0, 0, 0] + Zeros + [3, 0, 2, 0] && s[20] == 0 && s[21] == 0
  {
    BeatHeader(1); BeatHeader(2);
    hide Sum, ToLe, Header;
    var h1, h2 := Header(Beat1), Header(Beat2);
    assert Encode(Beat1)[..16] == h1;
    assert Encode(Beat2)[..16] == h2;
    assert s[..20] == h1 + h2[..4];
    assert s[20] == Encode(Beat2)[..16][4] && s[21] == Encode(Beat2)[..16][5];
  }

  /** Beat1 cut off after its header swallows the front of Beat2. */
  lemma CutBeatIsDamaged(s: seq<byte>)
    requires s == Encode(Beat1)[..16] + Encode(Beat2)
    ensures |s| == 36 && Scan(s) == Damaged(20) && Scan(s[20..]) == Unknown && Scan(s[21..]) == NeedMore
  {
    hide Encode, Sum;
    CutBeatBytes(s);
    var f := s[..20];
    CutBeatSum(f);
    assert WordAt(f, 16) == 0x2_0003;
    assert s[0] == f[0] && s[1] == f[1];
  }

  lemma CutBeatParse(s: seq<byte>)
    requires s == Encode(Beat1)[..16] + Encode(Beat2)
    ensures Parse(Fresh, s) == Stream(Fresh.(bad := 1), [], s[21..])
  {
    hide Encode, Scan, Parse;
    CutBeatIsDamaged(s);
    assert s[0..] == s;
    ParseStep(Fresh, s, 0);
    ParseStep(Reject(Fresh), s, 20);
    NothingYet(Reject(Fresh), s[21..]);
  }

  const CutConn := Conn(1, [Offered(Beat1, 16), Offered(Beat2, 20)])

  lemma CutConnFacts()
    ensures Coherent(CutConn, 1) && Reach(CutConn) <= TWO_32 && SentIn(CutConn.log) == [Beat2]
    ensures Carried(CutConn.log) == Encode(Beat1)[..16] + Encode(Beat2)
  {
    hide Encode;
    var log := CutConn.log;
    assert log[1..][1..] == [] && log[1..][0] == log[1];
    assert !log[0].Skipped? && !IsSent(log[0]) && IsPartial(log[0]) && IsSent(log[1]);
    assert SentIn(log) == SentIn(log[1..]) == [Beat2];
    assert Carried(log[1..]) == Encode(Beat2);
    assert log[..1][0] == log[0] && !EndsSkipped(log[..0]) && !EndsSkipped(log[..1]);
    assert FateFits(log[0], 1, false, 1) && FateFits(log[1], 2, false, 1);
  }

  /** A send that stops in the middle of a message breaks the accounting: the message after it, sent whole, is lost too,
      and a bad checksum appears. */
  lemma ShortSendBreaks()
    ensures Coherent(CutConn, 1) && Reach(CutConn) <= TWO_32 && SentIn(CutConn.log) == [Beat2]
    ensures var r := Parse(Fresh, Carried(CutConn.log));
            r.out == [] && r.counters == Fresh.(bad := 1) && !Accounted(CutConn, r)
  {
    hide Parse, Carried, SentIn, Coherent, Harmless, Encode;
    CutConnFacts();
    CutBeatParse(Carried(CutConn.log));
  }

  // ----- and that a run of the simulator can get there

  const Subscriber := Fd(5)
  const Quiet := Draw(0, 0, 0, 0, 0, 0, 0)

  /** A pass in which the second is over and the only client's socket takes just n bytes of the heartbeat. */
  function HeartbeatPass(events: seq<Event>, now: real, n: nat): Pass {
    Pass(events, now, 0, false, Quiet, _ => [], Quiet, _ => [Took(n)])
  }

  const CutRun := [HeartbeatPass([NewConnection(Subscriber)], 1.0, 16), HeartbeatPass([], 2.0, 20)]

  lemma BeatOffered(s: Sim, m: Message, n: nat)
    requires s.clients == {Subscriber} && Subscriber in s.conns && m.Heartbeat? && 0 < n <= 20
    ensures var r := Offer(s, m, _ => [Took(n)]);
            && r.clients == {Subscriber} && r.next == s.next + 1
            && Subscriber in r.conns && r.conns[Subscriber] == Grown(s.conns[Subscriber], Offered(m, n))
  {
    hide Encode;
    var replies: seq<Reply> := [Took(n)];
    assert replies[1..] == [];
    assert Taken(replies, 20) == n && EndOf(replies, 20) != Lost;
  }

  lemma CutRunEnds()
    ensures var s := Passes(Begin(NewSim, 0.0), 1, CutRun).sim;
            Subscriber in s.conns && s.conns[Subscriber] == CutConn
  {
    hide Offer, Encode;
    var s0 := Connect(NewSim, Subscriber);
    var s1 := Offer(s0, Beat1, _ => [Took(16)]);
    BeatOffered(s0, Beat1, 16);
    BeatOffered(s1, Beat2, 20);
    assert [NewConnection(Subscriber)][..0] == [];
    assert Polled(NewSim, [NewConnection(Subscriber)]) == s0;
    NoPass(Begin(NewSim, 0.0), 1);
    PassesOneMore(Begin(NewSim, 0.0), 1, CutRun, 0);
    PassesOneMore(Begin(NewSim, 0.0), 1, CutRun, 1);
    assert CutRun[..2] == CutRun && CutRun[..0] == [];
    var l1 := Passes(Begin(NewSim, 0.0), 1, CutRun[..1]);
    assert l1.sim == s1 && l1.pace == Pace(1.0, 0);
  }

  // ----- the excluded case is rightly excluded

  /** The bytes of a quote that, but for its own last one, are first bytes of messages from the third on. */
  function LureByte(i: nat): byte {
    if i == 1 then 0
    else if i == 0 || i == 3 || i == 7 || i >= 42 then 2
    else if i == 4 || i == 14 || i == 15 then 1
    else 3
  }

  function LureBytes(i: nat, n: nat): (s: seq<byte>)
    requires i <= n
    ensures |s| == n - i && forall j :: 0 <= j < n - i ==> s[j] == LureByte(i + j)
    decreases n - i
  {
    if i == n then [] else [LureByte(i)] + LureBytes(i + 1, n)
  }

  const LureFrame: seq<byte> := LureBytes(0, 44)

  const LURE_NUMBER: u32 := 0x301_0203
  const LURE_SYMBOLS: nat := 461

  lemma BitsOfThree(b: nat)
    ensures BitAt(3, b) == (BitAt(1, b) != BitAt(2, b)) && !BitAt(0, b)
  {
    ZeroBit(b);
    assert 3 / 2 == 1 && 2 / 2 == 1 && 1 / 2 == 0;
    if b > 0 { ZeroBit(b - 1); }
    if b > 1 { ZeroBit(b - 2); }
  }

  /** Bit lane 8 * j + b after m words, when word m - 1 has byte v in that lane. */
  lemma LureWord(j: nat, b: nat, m: nat, v: byte)
    requires j < 4 && b < 8 && 0 < m <= 11 && LureByte(4 * (m - 1) + j) == v
    ensures LaneParity(LureFrame, 8 * j + b, m) == (LaneParity(LureFrame, 8 * j + b, m - 1) != BitAt(v, b))
  {
    hide BitAt, LaneParity;
    OneWord(LureFrame, j, b, m);
    assert LureFrame[4 * (m - 1) + j] == LureByte(4 * (m - 1) + j);
  }

  /** Six words of threes change nothing. */
  lemma LureThrees(j: nat, b: nat)
    requires j < 4 && b < 8
    ensures LaneParity(LureFrame, 8 * j + b, 10) == LaneParity(LureFrame, 8 * j + b, 4)
  {
    hide BitAt, LaneParity, LureBytes;
    LureWord(j, b, 5, 3); LureWord(j, b, 6, 3); LureWord(j, b, 7, 3);
    LureWord(j, b, 8, 3); LureWord(j, b, 9, 3); LureWord(j, b, 10, 3);
  }

  /** Every bit lane of the lure cancels, so its checksum is good. */
  lemma LureLane(j: nat, b: nat)
    requires j < 4 && b < 8
    ensures !LaneParity(LureFrame, 8 * j + b, 11)
  {
    hide BitAt, LaneParity, LureBytes;
    BitsOfThree(b);
    NoWord(LureFrame, 8 * j + b);
    LureThrees(j, b);
    LureWord(j, b, 3, 3);
    if j == 0 {
      LureWord(0, b, 1, 2); LureWord(0, b, 2, 1); LureWord(0, b, 4, 3); LureWord(0, b, 11, 3);
    } else if j == 1 {
      LureWord(1, b, 1, 0); LureWord(1, b, 2, 3); LureWord(1, b, 4, 3); LureWord(1, b, 11, 3);
    } else if j == 2 {
      LureWord(2, b, 1, 3); LureWord(2, b, 2, 3); LureWord(2, b, 4, 1); LureWord(2, b, 11, 2);
    } else {
      LureWord(3, b, 1, 2); LureWord(3, b, 2, 2); LureWord(3, b, 4, 1); LureWord(3, b, 11, 2);
    }
  }

  lemma LureIsFrame()
    ensures IsFrame(LureFrame)
  {
    hide ChecksumOk, LaneParity, XorOfWords, BitAt, LureBytes;
    var e := LureFrame;
    var x := XorOfWords(e, 11);
    forall k | 0 <= k < 32 ensures BitAt(x, k) == BitAt(0, k) {
      XorOfWordsBit(e, k, 11);
      LureLane(k / 8, k % 8);
      assert 8 * (k / 8) + k % 8 == k;
      ZeroBit(k);
    }
    Pow2Of32();
    BitsDetermine(x, 0, 32);
    ValidIffWordsCancel(e, 11);
  }

  /** The quote these bytes encode. */
  function Lure(): (m: Message)
    ensures m.Quote? && m.seqNo == LURE_NUMBER && m.sym == 257 && Encode(m) == LureFrame
  {
    LureIsFrame();
    EncodeDecode(LureFrame);
    LureFields();
    Decode(LureFrame)
  }

  lemma LureFields()
    ensures SeqOf(LureFrame) == LURE_NUMBER && Field16(LureFrame, 14) == 257
  {
    hide LureBytes, FromLe;
    var e := LureFrame;
    WordAtIsFromLe(e, 2);
    FromTwo(e[14..16]);
  }

  lemma FromTwo(y: seq<byte>)
    requires |y| == 2
    ensures FromLe(y) == y[0] as nat + 256 * y[1] as nat
  {
    assert y[1..][1..] == [];
    assert FromLe(y[1..]) == y[1];
  }

  /** A message whose first byte is byte i of the lure. */
  function Bait(i: nat): Message
    requires i < 42 || i == 42
  {
    var n := LURE_NUMBER - 43 + i;
    var sym := SymbolFor(n, LURE_SYMBOLS);
    if LureByte(i) == 1 then Trade(n, 0, sym, 0, 0)
    else if LureByte(i) == 2 then Quote(n, 0, sym, 0, 0, 0, 0)
    else Heartbeat(n, 0, 0)
  }

  /** From number i of the lure on, every message is cut after one byte. */
  function Baits(i: nat): (log: seq<Fate>)
    requires 2 <= i <= 43
    ensures |log| == 43 - i && forall j :: 0 <= j < 43 - i ==> log[j] == Offered(Bait(i + j), 1)
    decreases 43 - i
  {
    if i == 43 then [] else [Offered(Bait(i), 1)] + Baits(i + 1)
  }

  const LureFirst: Message := Quote(LURE_NUMBER - 42, 0, SymbolFor(LURE_NUMBER - 42, LURE_SYMBOLS), 0, 0, 0, 0)
  const LureNext: Message := Heartbeat(LURE_NUMBER + 1, 0, 0)

  /** A quote cut after two bytes, forty-one messages cut after one, then the lure and a heartbeat sent whole. */
  const LureConn :=
    Conn(LURE_NUMBER - 42, [Offered(LureFirst, 2)] + Baits(2) + [Offered(Lure(), 44), Offered(LureNext, 20)])

  /** The numbers of the baits have the kinds of message they need. */
  lemma BaitNumbers(i: nat)
    requires 2 <= i <= 42
    ensures LureByte(i) == 1 ==> (LURE_NUMBER - 43 + i) % 10 < 3
    ensures LureByte(i) == 2 ==> (LURE_NUMBER - 43 + i) % 10 >= 3
  {
  }

  lemma BaitFits(i: nat)
    requires 2 <= i <= 42
    ensures var n := LURE_NUMBER - 43 + i;
            Bait(i).seqNo == n && FateFits(Offered(Bait(i), 1), n, false, LURE_SYMBOLS)
    ensures Encode(Bait(i))[0] == LureByte(i) && IsPartial(Offered(Bait(i), 1))
  {
    EncodeIsFrame(Bait(i));
    BaitNumbers(i);
    SymbolInRange(LURE_NUMBER - 43 + i, LURE_SYMBOLS);
    hide Encode, SymbolFor, IsFrame, LureByte;
    LureByteIsType(i);
  }

  lemma LureByteIsType(i: nat)
    requires 2 <= i
    ensures 1 <= LureByte(i) <= 3
  {
  }

  lemma LureLogAt(i: nat)
    requires i < 44
    ensures |LureConn.log| == 44
    ensures LureConn.log[i] == if i == 0 then Offered(LureFirst, 2) else if i < 42 then Offered(Bait(i + 1), 1)
                               else if i == 42 then Offered(Lure(), 44) else Offered(LureNext, 20)
  {
    hide Encode, Lure, Bait, Baits;
    var b := Baits(2);
    assert |b| == 41;
    if 0 < i < 42 { assert LureConn.log[i] == b[i - 1]; }
  }

  lemma WholeFits()
    ensures FateFits(Offered(LureFirst, 2), LURE_NUMBER - 42, false, LURE_SYMBOLS)
    ensures FateFits(Offered(Lure(), 44), LURE_NUMBER, false, LURE_SYMBOLS)
    ensures FateFits(Offered(LureNext, 20), LURE_NUMBER + 1, false, LURE_SYMBOLS)
  {
    hide Lure, LureBytes, Header, Payload, Sum;
    assert |Encode(LureFirst)| == 44 && |Encode(Lure())| == 44 && |Encode(LureNext)| == 20;
    hide Encode;
  }

  lemma LureFateFits(i: nat)
    requires i < 44
    ensures FateFits(LureConn.log[i], LURE_NUMBER - 42 + i, false, LURE_SYMBOLS)
  {
    hide FateFits, Encode, LureBytes, Bait, Lure;
    LureLogAt(i);
    WholeFits();
    if 0 < i < 42 { BaitFits(i + 1); }
  }

  lemma LureNoSkip(i: nat)
    requires i <= 44
    ensures |LureConn.log| == 44 && !EndsSkipped(LureConn.log[..i])
  {
    hide Lure, Bait, Encode, Baits;
    LureLogAt(if i > 0 then i - 1 else 0);
  }

  lemma LureIsCoherent()
    ensures Coherent(LureConn, LURE_SYMBOLS) && Reach(LureConn) <= TWO_32
  {
    hide FateFits, EndsSkipped, Lure, Bait, Baits, Encode, LureBytes;
    LureNoSkip(0);
    var log := LureConn.log;
    forall i | 0 <= i < |log|
      ensures FateFits(log[i], (LureConn.first + i) % TWO_32, EndsSkipped(log[..i]), LURE_SYMBOLS)
    {
      LureFateFits(i);
      LureNoSkip(i);
      NoWrapAt(LURE_NUMBER - 42 + i);
    }
  }

  lemma {:induction false} BaitsCarry(i: nat)
    requires 2 <= i <= 43
    ensures Carried(Baits(i)) == LureBytes(i, 43) && SentIn(Baits(i)) == []
    decreases 43 - i
  {
    hide Bait, Encode;
    if i < 43 {
      BaitsCarry(i + 1);
      BaitFits(i);
      assert BytesOf(Baits(i)[0]) == [LureByte(i)];
      assert Baits(i)[1..] == Baits(i + 1);
    }
  }

  /** Cut in two bytes, the first quote supplies the first two bytes of the lure. */
  lemma LureBegins()
    ensures Carried([Offered(LureFirst, 2)]) == LureBytes(0, 2) && SentIn([Offered(LureFirst, 2)]) == []
  {
    EncodeIsFrame(LureFirst);
    hide Encode;
    var x := Offered(LureFirst, 2);
    assert BytesOf(x) == LureBytes(0, 2);
    assert [x][1..] == [];
  }

  lemma LureEnds()
    ensures Carried([Offered(Lure(), 44), Offered(LureNext, 20)]) == LureFrame + Encode(LureNext)
    ensures SentIn([Offered(Lure(), 44), Offered(LureNext, 20)]) == [Lure(), LureNext]
  {
    hide Encode, Lure;
    var x, y := Offered(Lure(), 44), Offered(LureNext, 20);
    assert |Encode(Lure())| == 44 && |Encode(LureNext)| == 20;
    SentBytes(x);
    SentBytes(y);
    assert [x, y][1..] == [y] && [y][1..] == [];
    assert Carried([y]) == Encode(LureNext) + [];
    assert IsSent(x) && IsSent(y);
    assert SentIn([y]) == [LureNext];
  }

  /** On the wire the lure stands twice, overlapping in one byte. */
  lemma LureWire()
    ensures Carried(LureConn.log) == LureFrame + (LureBytes(1, 44) + Encode(LureNext))
    ensures SentIn(LureConn.log) == [Lure(), LureNext]
  {
    hide Carried, SentIn, Encode, Lure, LureFrame, LureBytes, Baits;
    var a, b, c := [Offered(LureFirst, 2)], Baits(2), [Offered(Lure(), 44), Offered(LureNext, 20)];
    LureBegins();
    BaitsCarry(2);
    LureEnds();
    CarriedAppend(a + b, c);
    CarriedAppend(a, b);
    SentAppend(a + b, c);
    SentAppend(a, b);
    LureOverlap();
    Regroup3(LureBytes(0, 2) + LureBytes(2, 43), LureFrame, Encode(LureNext));
    Regroup3(LureFrame, LureBytes(1, 44), Encode(LureNext));
  }

  lemma Regroup3(a: seq<byte>, b: seq<byte>, c: seq<byte>)
    ensures a + (b + c) == a + b + c
  {
  }

  lemma LureOverlap()
    ensures LureBytes(0, 2) + LureBytes(2, 43) + LureFrame == LureFrame + LureBytes(1, 44)
  {
    hide LureBytes;
  }

  /** What the parser makes of it: the lure out of the cuts, then nothing but the heartbeat. */
  lemma LureParse(c: Counters, s: seq<byte>)
    requires s == LureFrame + (LureBytes(1, 44) + Encode(LureNext))
    ensures Parse(c, s) == Stream(Accept(Accept(c, LURE_NUMBER), LURE_NUMBER + 1), Deliveries([Lure(), LureNext]), [])
  {
    hide Parse, Accept, Dispatch, LureBytes, Encode, IsFrame;
    LureIsFrame();
    var x := Segment(LureBytes(1, 44), LureNext, Encode(LureNext));
    var c' := Accept(c, LURE_NUMBER);
    assert Lure().seqNo == LURE_NUMBER;
    LureScan(s);
    assert s[0..] == s && s[0..44] == LureFrame && s[44..] == x.garbage + Encode(LureNext);
    ParseStep(c, s, 0);
    LureFields();
    OneSegment(c', x);
    assert Deliveries([Lure(), LureNext]) == [Dispatch(LureFrame)] + Deliveries([LureNext]) by {
      assert [Lure(), LureNext][1..] == [LureNext];
    }
  }

  lemma LureScan(s: seq<byte>)
    requires |s| >= 44 && s[..44] == LureFrame
    ensures Scan(s) == Accepted(44)
  {
    hide ChecksumOk;
    LureIsFrame();
    assert s[0] == s[..44][0] && s[1] == s[..44][1];
  }

  lemma OneSegment(c: Counters, x: Segment)
    requires x == Segment(LureBytes(1, 44), LureNext, Encode(LureNext))
    ensures Parse(c, x.garbage + Encode(LureNext))
         == Stream(Accept(c, LURE_NUMBER + 1), Deliveries([LureNext]), [])
  {
    hide Parse, Accept, Encode, Deliveries;
    forall i | 0 <= i < |x.garbage| - 1 ensures !KnownType(x.garbage[i], x.garbage[i + 1]) {
    }
    var xs := [x];
    assert xs[1..] == [] && Encode(LureNext) + [] == Encode(LureNext);
    assert Intact(x) && Kept(xs) == [LureNext] && CountersOver(c, xs) == Accept(c, LURE_NUMBER + 1);
    assert Wire(xs) == x.garbage + (Encode(LureNext) + Wire([]));
    ParseSegments(c, xs);
  }

  lemma LureArrivals(f: nat, l: nat)
    requires Spans(Arrivals(LureConn.log), f, l)
    ensures f == 42 && l == 43 && SkipsIn(LureConn.log[f..l + 1]) == 0 && DropsIn(LureConn.log[f..l + 1]) == 0
  {
    hide Encode, Lure, Bait, Baits, SkipsIn, DropsIn, LureBytes;
    var log := LureConn.log;
    LureLogAt(42);
    LureLogAt(43);
    LureLogAt(f);
    assert |Encode(Lure())| == 44 && |Encode(LureNext)| == 20;
    assert IsSent(log[42]) && IsSent(log[43]);
    if 0 < f < 42 { BaitFits(f + 1); }
    AllSent(log[42..44]);
  }

  lemma LureSent()
    ensures |LureConn.log| == 44 && IsSent(LureConn.log[42]) && SomeSent(LureConn.log[1..])
  {
    LureLogAt(42);
    hide Encode, Lure, Bait, Baits, LureBytes;
    assert |Encode(Lure())| == 44;
    assert LureConn.log[1..][41] == LureConn.log[42];
  }

  lemma LureNotHarmless()
    ensures !ShortCutIsLast(LureConn.log) && !Harmless(LureConn.log)
  {
    hide Encode, Lure, Bait, Baits, SomeSent;
    var log := LureConn.log;
    LureSent();
    LureLogAt(0);
    LureLogAt(1);
    BaitFits(2);
    assert IsPartial(log[0]) && IsPartial(log[1]);
    assert OnlyStubs(log[..0]);
    forall i: nat | i > 0 && i < |log| ensures !OnlyStubs(log[..i]) {
      assert log[..i][0] == log[0];
    }
    forall i: nat ensures !CutForGood(log, i) {
    }
  }

  lemma LureCounters()
    ensures Accept(Accept(Fresh, LURE_NUMBER), LURE_NUMBER + 1) == Counters(LURE_NUMBER + 1, 2, 0, 0)
  {
  }

  /** A first cut of two bytes followed by further cuts: not harmless, and everything is accounted for all the same.
      So the condition on short cuts in the theorem cannot be dropped. */
  lemma ShortCutsMayAddUp()
    ensures Coherent(LureConn, LURE_SYMBOLS) && Reach(LureConn) <= TWO_32
    ensures !ShortCutIsLast(LureConn.log) && !Harmless(LureConn.log)
    ensures Accounted(LureConn, Parse(Fresh, Carried(LureConn.log)))
  {
    hide Encode, Lure, Bait, Parse, Carried, SentIn, Deliveries, Coherent, Spans, Accept, Harmless, ShortCutIsLast;
    hide SkipsIn, DropsIn, Arrivals, LureBytes, Reach;
    LureIsCoherent();
    LureNotHarmless();
    LureWire();
    LureParse(Fresh, Carried(LureConn.log));
    LureCounters();
    forall f: nat, l: nat | Spans(Arrivals(LureConn.log), f, l)
      ensures f == 42 && l == 43
      ensures SkipsIn(LureConn.log[f..l + 1]) == 0 && DropsIn(LureConn.log[f..l + 1]) == 0
    {
      LureArrivals(f, l);
    }
  }
}
