/**
  The incremental parser with its fixed buffer, proved against the pure pass of Reassembly.
 */
module StreamParser {
  import opened Bytes
  import opened Checksum
  import opened Protocol
  import opened Reassembly

  class Parser {
    const buf: array<byte>
    var bufUsed: nat
    var counters: Counters

    /** Every parser that has been constructed, reset or fed holds less than one message. */
    ghost predicate Valid()
      reads this
    {
      buf.Length == PARSE_BUF_SIZE && bufUsed < MAX_MSG_SIZE
    }

    ghost function Residue(): seq<byte>
      reads this, buf
      requires bufUsed <= buf.Length
    {
      buf[..bufUsed]
    }

    constructor ()
      ensures Valid() && fresh(buf)
      ensures Residue() == [] && counters == Fresh
    {
      buf := new byte[PARSE_BUF_SIZE];
      bufUsed := 0;
      counters := Fresh;
    }

    method Reset()
      modifies this
      ensures buf.Length == PARSE_BUF_SIZE ==> Valid()
      ensures bufUsed == 0 && counters == Fresh
    {
      bufUsed := 0;
      counters := Fresh;
    }

    /** Copies what fits behind the residue; the rest of data is discarded. */
    method Append(data: seq<byte>)
      requires Valid()
      modifies this`bufUsed, buf
      ensures bufUsed <= buf.Length
      ensures Residue() == old(Residue()) + Fitting(old(bufUsed), data)
    {
      var taken := Fitting(bufUsed, data);
      ghost var before := Residue();
      var used, i := bufUsed, 0;
      while i < |taken|
        invariant 0 <= i <= |taken| && used + |taken| <= buf.Length
        invariant buf[..used] == before
        invariant buf[used..used + i] == taken[..i]
      {
        buf[used + i] := taken[i];
        i := i + 1;
      }
      bufUsed := used + |taken|;
      assert buf[..bufUsed] == buf[..used] + buf[used..used + |taken|];
    }

    /** Moves the bytes from offset on to the front of the buffer. */
    method Compact(offset: nat)
      requires offset <= bufUsed <= buf.Length
      modifies this`bufUsed, buf
      ensures bufUsed == old(bufUsed) - offset
      ensures Residue() == old(Residue())[offset..]
    {
      ghost var before := Residue();
      if offset > 0 {
        bufUsed := bufUsed - offset;
        var i := 0;
        while i < bufUsed
          invariant 0 <= i <= bufUsed == |before| - offset
          invariant forall k :: 0 <= k < i ==> buf[k] == before[k + offset]
          invariant forall k :: i <= k < |before| ==> buf[k] == before[k]
        {
          buf[i] := buf[i + offset];
          i := i + 1;
        }
      }
    }

    /** The checksum test on the n bytes at offset. */
    method GoodChecksum(offset: nat, n: nat) returns (ok: bool)
      requires n >= 4 && offset + n <= buf.Length
      ensures ok == ChecksumOk(buf[offset..offset + n])
    {
      hide Sum;
      var at := offset + n - 4;
      var computed := ComputeChecksum(buf, offset, n - 4);
      ghost var f, body := buf[offset..offset + n], buf[offset..at];
      assert f[..n - 4] == body && body[..n - 4] == body;
      SumOfPrefix(f, body, n - 4);
      var b0: nat, b1: nat, b2: nat, b3: nat := buf[at], buf[at + 1], buf[at + 2], buf[at + 3];
      ok := computed == b0 + 0x100 * b1 + 0x1_0000 * b2 + 0x100_0000 * b3;
    }

    /** The verdict on the bytes at offset, computed as the loop body does. */
    method Examine(offset: nat) returns (v: Verdict)
      requires offset <= bufUsed <= buf.Length
      ensures v == Scan(Residue()[offset..])
    {
      hide ChecksumOk;
      if bufUsed - offset < HEADER_SIZE {
        return NeedMore;
      }
      var lo: nat, hi: nat := buf[offset], buf[offset + 1];
      var expected := MsgTotalSize(lo + 0x100 * hi);
      if expected == 0 {
        return Unknown;
      }
      if bufUsed - offset < expected {
        return NeedMore;
      }
      var ok := GoodChecksum(offset, expected);
      assert Residue()[offset..][..expected] == buf[offset..offset + expected];
      return if ok then Accepted(expected) else Damaged(expected);
    }

    method Feed(data: seq<byte>) returns (delivered: seq<Delivery>)
      requires Valid()
      modifies this, buf
      ensures Valid()
      ensures Stream(counters, delivered, Residue()) == Reassembly.Feed(Stream(old(counters), [], old(Residue())), data)
    {
      hide Scan, Parse, Accept, Reject, Dispatch, SeqOf, Fitting;
      delivered := [];
      Append(data);
      ghost var s := Residue();
      ghost var whole := Parse(counters, s);
      ParseResidue(counters, s);
      var offset := 0;
      assert s[0..] == s;
      AfterNothing(whole);
      var v := Examine(offset);
      while v != NeedMore
        invariant offset <= bufUsed <= buf.Length && Residue() == s
        invariant v == Scan(s[offset..])
        invariant whole == After(delivered, Parse(counters, s[offset..]))
        decreases bufUsed - offset
      {
        ParseStep(counters, s, offset);
        match v {
          case Unknown =>
            offset := offset + 1;
          case Damaged(n) =>
            counters := Reject(counters);
            offset := offset + n;
          case Accepted(n) =>
            var frame := buf[offset..offset + n];
            assert frame == Residue()[offset..offset + n];
            counters := Accept(counters, SeqOf(frame));
            var d := Dispatch(frame);
            offset := offset + n;
            AfterAfter(delivered, [d], Parse(counters, s[offset..]));
            delivered := delivered + [d];
        }
        v := Examine(offset);
      }
      ParseOfResidue(Stream(counters, delivered, s[offset..]));
      Compact(offset);
      AfterNothing(whole);
    }
  }

  /** The receive loop of the handler: bytes arrive in chunks of at most RECV_BUF and go to the parser. */
  const RECV_BUF: nat := 65536

  method ReceiveAll(p: Parser, chunks: seq<seq<byte>>) returns (delivered: seq<Delivery>)
    requires p.Valid()
    requires forall i :: 0 <= i < |chunks| ==> |chunks[i]| <= RECV_BUF
    modifies p, p.buf
    ensures p.Valid()
    ensures Stream(p.counters, delivered, p.Residue()) == Parse(Fresh, Flatten(chunks))
  {
    hide Parse, FeedAll, Flatten, Reassembly.Feed;
    p.Reset();
    delivered := [];
    assert p.Residue() == [] && chunks[..0] == [];
    ghost var state := Start;
    NothingFed(Start);
    for i := 0 to |chunks|
      invariant p.Valid()
      invariant state == Stream(p.counters, delivered, p.Residue())
      invariant state == FeedAll(Start, chunks[..i])
    {
      var out := p.Feed(chunks[i]);
      FeedFrom(state, chunks[i]);
      delivered := delivered + out;
      state := Reassembly.Feed(state, chunks[i]);
      FeedOneMore(Start, chunks[..i], chunks[i]);
      assert chunks[..i + 1] == chunks[..i] + [chunks[i]];
    }
    assert chunks[..|chunks|] == chunks;
    SafeFits(Start, chunks);
    ChunkingInvariance(chunks);
  }

  lemma NothingFed(p: Stream)
    requires |p.rest| < MAX_MSG_SIZE
    ensures FeedAll(p, []) == p
  {
  }

  lemma FeedFrom(p: Stream, data: seq<byte>)
    requires |p.rest| <= PARSE_BUF_SIZE
    ensures Reassembly.Feed(p, data) == After(p.out, Reassembly.Feed(p.(out := []), data))
  {
    var r := Parse(p.counters, p.rest + Fitting(|p.rest|, data));
    AfterNothing(r);
  }

  lemma {:induction false} FeedOneMore(p: Stream, chunks: seq<seq<byte>>, last: seq<byte>)
    requires |p.rest| < MAX_MSG_SIZE
    ensures FeedAll(p, chunks + [last]) == Reassembly.Feed(FeedAll(p, chunks), last)
    decreases |chunks|
  {
    if chunks == [] {
      assert ([] + [last])[1..] == [];
    } else {
      assert (chunks + [last])[1..] == chunks[1..] + [last];
      FeedOneMore(Reassembly.Feed(p, chunks[0]), chunks[1..], last);
    }
  }
}
