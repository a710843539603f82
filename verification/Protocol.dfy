/**
  The message layouts of the feed: packed little-endian structs closed by a checksum.
  Prices are 64-bit patterns; their floating-point reading plays no part here.
 */
module Protocol {
  import opened Bytes
  import opened Checksum

  const MSG_TRADE: u16 := 1
  const MSG_QUOTE: u16 := 2
  const MSG_HEARTBEAT: u16 := 3
  const HEADER_SIZE: nat := 16
  const MAX_MSG_SIZE: nat := 44

  datatype Message =
    | Trade(seqNo: u32, ts: u64, sym: u16, price: u64, qty: u32)
    | Quote(seqNo: u32, ts: u64, sym: u16, bid: u64, bidQty: u32, ask: u64, askQty: u32)
    | Heartbeat(seqNo: u32, ts: u64, sym: u16)

  /** The size of a message of the given type, zero for a type that does not exist. */
  function MsgTotalSize(msgType: u16): nat {
    if msgType == MSG_TRADE then 32
    else if msgType == MSG_QUOTE then 44
    else if msgType == MSG_HEARTBEAT then 20
    else 0
  }

  function TypeCode(m: Message): u16 {
    match m
    case Trade(_, _, _, _, _) => MSG_TRADE
    case Quote(_, _, _, _, _, _, _) => MSG_QUOTE
    case Heartbeat(_, _, _) => MSG_HEARTBEAT
  }

  function Header(m: Message): (h: seq<byte>)
    ensures |h| == HEADER_SIZE
  {
    ToLe(TypeCode(m), 2) + ToLe(m.seqNo, 4) + ToLe(m.ts, 8) + ToLe(m.sym, 2)
  }

  function Payload(m: Message): (p: seq<byte>)
    ensures |p| == MsgTotalSize(TypeCode(m)) - HEADER_SIZE - 4
  {
    match m
    case Trade(_, _, _, price, qty) => ToLe(price, 8) + ToLe(qty, 4)
    case Quote(_, _, _, bid, bidQty, ask, askQty) => ToLe(bid, 8) + ToLe(bidQty, 4) + ToLe(ask, 8) + ToLe(askQty, 4)
    case Heartbeat(_, _, _) => []
  }

  /** The bytes of m on the wire. */
  function Encode(m: Message): (f: seq<byte>)
    ensures |f| == MsgTotalSize(TypeCode(m))
  {
    var body := Header(m) + Payload(m);
    body + ToLe(Sum(body, |body|), 4)
  }

  /** The unsigned field of the given width at an offset of a packed struct. */
  function Field(f: seq<byte>, at: nat, width: nat): (n: nat)
    requires at + width <= |f|
    ensures n < Pow256(width)
  {
    FromLe(f[at..at + width])
  }

  function Field16(f: seq<byte>, at: nat): u16
    requires at + 2 <= |f|
  {
    Widths();
    Field(f, at, 2)
  }

  function Field32(f: seq<byte>, at: nat): u32
    requires at + 4 <= |f|
  {
    Widths();
    Field(f, at, 4)
  }

  function Field64(f: seq<byte>, at: nat): u64
    requires at + 8 <= |f|
  {
    Widths();
    Field(f, at, 8)
  }

  /** The msg_type field that the bytes at the front of s read as. */
  function TypeOf(s: seq<byte>): u16
    requires |s| >= 2
  {
    var lo: nat, hi: nat := s[0], s[1];
    lo + 0x100 * hi
  }

  /** A whole message with a known type, the matching length and a good checksum. */
  predicate IsFrame(f: seq<byte>) {
    |f| >= HEADER_SIZE && MsgTotalSize(TypeOf(f)) == |f| && ChecksumOk(f)
  }

  function SeqOf(f: seq<byte>): u32
    requires |f| >= HEADER_SIZE
  {
    Field32(f, 2)
  }

  /** What a callback reads through a TradeMsg pointer. */
  function ReadTrade(f: seq<byte>): Message
    requires |f| >= 32
  {
    Trade(SeqOf(f), Field64(f, 6), Field16(f, 14), Field64(f, 16), Field32(f, 24))
  }

  function ReadQuote(f: seq<byte>): Message
    requires |f| >= 44
  {
    Quote(SeqOf(f), Field64(f, 6), Field16(f, 14), Field64(f, 16), Field32(f, 24), Field64(f, 28), Field32(f, 36))
  }

  function ReadHeartbeat(f: seq<byte>): Message
    requires |f| >= 20
  {
    Heartbeat(SeqOf(f), Field64(f, 6), Field16(f, 14))
  }

  /** The message in a frame of a known type. */
  function Decode(f: seq<byte>): Message
    requires |f| >= HEADER_SIZE && MsgTotalSize(TypeOf(f)) == |f|
  {
    if TypeOf(f) == MSG_TRADE then ReadTrade(f)
    else if TypeOf(f) == MSG_QUOTE then ReadQuote(f)
    else ReadHeartbeat(f)
  }

  // ----- the layout is a bijection between messages and valid frames

  lemma TypeBytes(t: u16)
    requires t < 256
    ensures ToLe(t, 2) == [t, 0]
  {
    assert ToLe(t, 2) == [t % 256] + ToLe(t / 256, 1);
    assert ToLe(0, 1) == [0] + ToLe(0, 0);
  }

  lemma FieldOfConcat(pre: seq<byte>, n: nat, width: nat, post: seq<byte>)
    requires n < Pow256(width)
    ensures Field(pre + ToLe(n, width) + post, |pre|, width) == n
  {
    var f := pre + ToLe(n, width) + post;
    assert f[|pre|..|pre| + width] == ToLe(n, width);
    FromToLe(n, width);
  }

  lemma HeaderFields(m: Message, rest: seq<byte>)
    ensures var f := Header(m) + rest;
            && TypeOf(f) == TypeCode(m) && SeqOf(f) == m.seqNo && Field64(f, 6) == m.ts && Field16(f, 14) == m.sym
  {
    Widths();
    var t, q, s, y := ToLe(TypeCode(m), 2), ToLe(m.seqNo, 4), ToLe(m.ts, 8), ToLe(m.sym, 2);
    var f := Header(m) + rest;
    TypeBytes(TypeCode(m));
    assert f == t + q + (s + y + rest);
    FieldOfConcat(t, m.seqNo, 4, s + y + rest);
    assert f == (t + q) + s + (y + rest);
    FieldOfConcat(t + q, m.ts, 8, y + rest);
    assert f == (t + q + s) + y + rest;
    FieldOfConcat(t + q + s, m.sym, 2, rest);
  }

  lemma TrailerWord(body: seq<byte>, cs: u32)
    ensures WordAt(body + ToLe(cs, 4), |body|) == cs
  {
    var tail := ToLe(cs, 4);
    assert (body + tail)[|body|..|body| + 4] == tail;
    WordAtIsFromLe(body + tail, |body|);
    Widths();
    FromToLe(cs, 4);
  }

  /** Appending the checksum of a body makes the checksum good. */
  lemma ClosedBody(body: seq<byte>)
    ensures ChecksumOk(body + ToLe(Sum(body, |body|), 4))
  {
    var n := |body|;
    var f := body + ToLe(Sum(body, n), 4);
    assert f[..n] == body[..n];
    SumOfPrefix(f, body, n);
    TrailerWord(body, Sum(body, n));
  }

  lemma EncodeIsFrame(m: Message)
    ensures IsFrame(Encode(m))
    ensures Encode(m)[0] == TypeCode(m) && Encode(m)[1] == 0
    ensures SeqOf(Encode(m)) == m.seqNo
  {
    hide Sum, ToLe, Header, Payload, ChecksumOk;
    var body := Header(m) + Payload(m);
    var tail := ToLe(Sum(body, |body|), 4);
    ClosedBody(body);
    assert body + tail == Header(m) + (Payload(m) + tail);
    HeaderFields(m, Payload(m) + tail);
    var f := Encode(m);
    var lo: nat, hi: nat := f[0], f[1];
    assert lo + 0x100 * hi == TypeCode(m);
  }

  /** A price and the quantity after it can be read back from the middle of a frame. */
  lemma PairFields(h: seq<byte>, price: u64, qty: u32, tail: seq<byte>)
    ensures var f := h + (ToLe(price, 8) + ToLe(qty, 4) + tail);
            Field64(f, |h|) == price && Field32(f, |h| + 8) == qty
  {
    Widths();
    var p, q := ToLe(price, 8), ToLe(qty, 4);
    var f := h + (p + q + tail);
    assert f == h + p + (q + tail) && f == (h + p) + q + tail;
    FieldOfConcat(h, price, 8, q + tail);
    FieldOfConcat(h + p, qty, 4, tail);
  }

  lemma Regroup(h: seq<byte>, a: seq<byte>, b: seq<byte>, c: seq<byte>, d: seq<byte>, tail: seq<byte>)
    ensures h + (a + b + c + d + tail) == h + (a + b + (c + d + tail))
    ensures h + (a + b + c + d + tail) == (h + a + b) + (c + d + tail)
  {
  }

  lemma QuoteFields(h: seq<byte>, bid: u64, bidQty: u32, ask: u64, askQty: u32, tail: seq<byte>)
    requires |h| == 16
    ensures var f := h + (ToLe(bid, 8) + ToLe(bidQty, 4) + ToLe(ask, 8) + ToLe(askQty, 4) + tail);
            && Field64(f, 16) == bid && Field32(f, 24) == bidQty && Field64(f, 28) == ask && Field32(f, 36) == askQty
  {
    var a, b, c, d := ToLe(bid, 8), ToLe(bidQty, 4), ToLe(ask, 8), ToLe(askQty, 4);
    Regroup(h, a, b, c, d, tail);
    PairFields(h, bid, bidQty, c + d + tail);
    PairFields(h + a + b, ask, askQty, tail);
  }

  lemma DecodeEncode(m: Message)
    ensures IsFrame(Encode(m)) && Decode(Encode(m)) == m
  {
    EncodeIsFrame(m);
    hide Sum, ToLe, Header, IsFrame;
    var body := Header(m) + Payload(m);
    var tail := ToLe(Sum(body, |body|), 4);
    assert Encode(m) == Header(m) + (Payload(m) + tail);
    HeaderFields(m, Payload(m) + tail);
    match m
    case Trade(_, _, _, price, qty) => PairFields(Header(m), price, qty, tail);
    case Quote(_, _, _, bid, bidQty, ask, askQty) => QuoteFields(Header(m), bid, bidQty, ask, askQty, tail);
    case Heartbeat(_, _, _) =>
  }

  lemma FieldBytes(f: seq<byte>, at: nat, width: nat)
    requires at + width <= |f|
    ensures ToLe(Field(f, at, width), width) == f[at..at + width]
  {
    ToFromLe(f[at..at + width]);
  }

  lemma Join(f: seq<byte>, a: nat, b: nat, c: nat)
    requires a <= b <= c <= |f|
    ensures f[a..b] + f[b..c] == f[a..c]
  {
  }

  lemma DecodedHead(f: seq<byte>)
    requires |f| >= HEADER_SIZE && MsgTotalSize(TypeOf(f)) == |f|
    ensures var m := Decode(f);
            TypeCode(m) == TypeOf(f) && m.seqNo == SeqOf(f) && m.ts == Field64(f, 6) && m.sym == Field16(f, 14)
  {
    hide Field64, Field32, Field16, SeqOf;
  }

  lemma HeaderBytes(f: seq<byte>)
    requires |f| >= HEADER_SIZE && TypeOf(f) < 256
    ensures ToLe(TypeOf(f), 2) == f[0..2] && ToLe(SeqOf(f), 4) == f[2..6]
    ensures ToLe(Field64(f, 6), 8) == f[6..14] && ToLe(Field16(f, 14), 2) == f[14..16]
  {
    hide ToLe, FromLe;
    FieldBytes(f, 2, 4); FieldBytes(f, 6, 8); FieldBytes(f, 14, 2);
    TypeBytes(TypeOf(f));
    assert [f[0], f[1]] == f[0..2];
  }

  lemma HeaderOfDecode(f: seq<byte>)
    requires |f| >= HEADER_SIZE && MsgTotalSize(TypeOf(f)) == |f|
    ensures Header(Decode(f)) == f[0..16]
  {
    DecodedHead(f);
    HeaderBytes(f);
    hide Decode, ToLe, FromLe, MsgTotalSize, TypeOf, SeqOf, Field64, Field16, TypeCode;
    Join(f, 0, 2, 6); Join(f, 0, 6, 14); Join(f, 0, 14, 16);
  }

  lemma TradePayload(f: seq<byte>)
    requires |f| == 32
    ensures ToLe(Field(f, 16, 8), 8) + ToLe(Field(f, 24, 4), 4) == f[16..28]
  {
    FieldBytes(f, 16, 8); FieldBytes(f, 24, 4);
    Join(f, 16, 24, 28);
  }

  lemma QuotePayload(f: seq<byte>)
    requires |f| == 44
    ensures ToLe(Field(f, 16, 8), 8) + ToLe(Field(f, 24, 4), 4) + ToLe(Field(f, 28, 8), 8) + ToLe(Field(f, 36, 4), 4)
         == f[16..40]
  {
    FieldBytes(f, 16, 8); FieldBytes(f, 24, 4); FieldBytes(f, 28, 8); FieldBytes(f, 36, 4);
    Join(f, 16, 24, 28); Join(f, 16, 28, 36); Join(f, 16, 36, 40);
  }

  lemma PayloadOfDecode(f: seq<byte>)
    requires |f| >= HEADER_SIZE && MsgTotalSize(TypeOf(f)) == |f|
    ensures Payload(Decode(f)) == f[16..|f| - 4]
  {
    if TypeOf(f) == MSG_TRADE { TradePayload(f); } else if TypeOf(f) == MSG_QUOTE { QuotePayload(f); }
  }

  lemma EncodeDecode(f: seq<byte>)
    requires IsFrame(f)
    ensures Encode(Decode(f)) == f
  {
    HeaderOfDecode(f);
    PayloadOfDecode(f);
    var n := |f| - 4;
    var body := f[0..n];
    Join(f, 0, 16, n);
    assert f[..n] == body[..n];
    SumOfPrefix(f, body, n);
    WordAtIsFromLe(f, n);
    ToFromLe(f[n..n + 4]);
    Join(f, 0, n, n + 4);
    assert f[0..n + 4] == f;
  }

  /** The unsigned little-endian number in bytes from up to but excluding to. */
  function NumberIn(f: seq<byte>, from: nat, to: nat): nat
    requires from <= to <= |f|
  {
    FromLe(f[from..to])
  }

  /** Where each field lies on the wire. */
  lemma Layout(m: Message)
    ensures var e := Encode(m);
            && |e| == (if m.Trade? then 32 else if m.Quote? then 44 else 20)
            && e[0] == (if m.Trade? then 1 else if m.Quote? then 2 else 3) && e[1] == 0
            && NumberIn(e, 2, 6) == m.seqNo && NumberIn(e, 6, 14) == m.ts && NumberIn(e, 14, 16) == m.sym
            && (m.Trade? ==> NumberIn(e, 16, 24) == m.price && NumberIn(e, 24, 28) == m.qty)
            && (m.Quote? ==>
                 && NumberIn(e, 16, 24) == m.bid && NumberIn(e, 24, 28) == m.bidQty
                 && NumberIn(e, 28, 36) == m.ask && NumberIn(e, 36, 40) == m.askQty)
            && NumberIn(e, |e| - 4, |e|) == Sum(e, |e| - 4)
  {
    EncodeIsFrame(m);
    DecodeEncode(m);
    WordAtIsFromLe(Encode(m), |Encode(m)| - 4);
    hide Encode, FromLe, Sum;
  }
}
