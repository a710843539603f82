/**
  The XOR checksum that closes every message, and the damage it is certain to reveal.
 */
module Checksum {
  import opened Bytes

  /** The byte b shifted left by (i % 4) * 8 bits. */
  function Lane(b: byte, i: nat): u32 {
    b * (if i % 4 == 0 then 1 else if i % 4 == 1 then 0x100 else if i % 4 == 2 then 0x1_0000 else 0x100_0000)
  }

  /** The checksum accumulator after the first n bytes of s. */
  function Sum(s: seq<byte>, n: nat): (cs: u32)
    requires n <= |s|
  {
    if n == 0 then 0 else Xor(Sum(s, n - 1), Lane(s[n - 1], n - 1))
  }

  method ComputeChecksum(data: array<byte>, start: nat, len: nat) returns (cs: u32)
    requires start + len <= data.Length
    ensures cs == Sum(data[start..start + len], len)
  {
    cs := 0;
    ghost var s := data[start..start + len];
    for i := 0 to len
      invariant cs == Sum(s, i)
    {
      cs := Xor(cs, Lane(data[start + i], i));
    }
  }

  lemma {:induction false} SumOfPrefix(s: seq<byte>, t: seq<byte>, n: nat)
    requires n <= |s| && n <= |t| && s[..n] == t[..n]
    ensures Sum(s, n) == Sum(t, n)
  {
    if n > 0 {
      assert s[..n - 1] == s[..n][..n - 1] == t[..n - 1];
      SumOfPrefix(s, t, n - 1);
      assert s[n - 1] == s[..n][n - 1] == t[n - 1];
    }
  }

  /** The little-endian 32-bit word at index i of s. */
  function WordAt(s: seq<byte>, i: nat): (w: u32)
    requires i + 4 <= |s|
  {
    var a: nat, b: nat, c: nat, d: nat := s[i], s[i + 1], s[i + 2], s[i + 3];
    a + 0x100 * b + 0x1_0000 * c + 0x100_0000 * d
  }

  lemma WordAtIsFromLe(s: seq<byte>, i: nat)
    requires i + 4 <= |s|
    ensures WordAt(s, i) == FromLe(s[i..i + 4])
  {
    var w := s[i..i + 4];
    assert w[1..][1..] == w[2..] && w[2..][1..] == w[3..] && w[3..][1..] == [];
    assert FromLe(w[3..]) == w[3];
    assert FromLe(w[2..]) == w[2] as nat + 0x100 * w[3] as nat;
    assert FromLe(w[1..]) == w[1] + 0x100 * FromLe(w[2..]);
  }

  lemma WordBit(s: seq<byte>, i: nat, k: nat)
    requires i + 4 <= |s| && k < 32
    ensures BitAt(WordAt(s, i), k) == BitAt(s[i + k / 8], k % 8)
  {
    WordAtIsFromLe(s, i);
    FromLeBit(s[i..i + 4], k);
  }

  // ----- what the loop computes, in words

  /** The exclusive or of the first m words of s. */
  function XorOfWords(s: seq<byte>, m: nat): u32
    requires 4 * m <= |s|
  {
    if m == 0 then 0 else Xor(XorOfWords(s, m - 1), WordAt(s, 4 * (m - 1)))
  }

  /** The eight bits of b at lane i, zero elsewhere. */
  lemma LaneBit(b: byte, i: nat, k: nat)
    requires k < 32
    ensures BitAt(Lane(b, i), k) == (k / 8 == i % 4 && BitAt(b, k % 8))
  {
    var z: seq<byte> := [0, 0, 0, 0];
    var s := z[i % 4 := b];
    assert WordAt(s, 0) == Lane(b, i);
    WordBit(s, 0, k);
    ZeroBit(k % 8);
  }

  /** The four lane bytes of one word accumulate to an exclusive or with that word. */
  lemma FourLanes(cs: u32, s: seq<byte>, i: nat)
    requires i + 4 <= |s|
    ensures Xor(Xor(Xor(Xor(cs, Lane(s[i], 0)), Lane(s[i + 1], 1)), Lane(s[i + 2], 2)), Lane(s[i + 3], 3))
         == Xor(cs, WordAt(s, i))
  {
    var l0, l1, l2, l3 := Lane(s[i], 0), Lane(s[i + 1], 1), Lane(s[i + 2], 2), Lane(s[i + 3], 3);
    var x0 := Xor(cs, l0);
    var x1 := Xor(x0, l1);
    var x2 := Xor(x1, l2);
    var x3 := Xor(x2, l3);
    var y := Xor(cs, WordAt(s, i));
    forall k | 0 <= k < 32 ensures BitAt(x3, k) == BitAt(y, k) {
      LaneBit(s[i], 0, k); LaneBit(s[i + 1], 1, k); LaneBit(s[i + 2], 2, k); LaneBit(s[i + 3], 3, k);
      XorBit(cs, l0, k); XorBit(x0, l1, k); XorBit(x1, l2, k); XorBit(x2, l3, k);
      XorBit(cs, WordAt(s, i), k);
      WordBit(s, i, k);
    }
    Pow2Of32();
    BitsDetermine(x3, y, 32);
  }

  lemma FourSteps(s: seq<byte>, i: nat)
    requires i % 4 == 0 && i + 4 <= |s|
    ensures Sum(s, i + 4) == Xor(Sum(s, i), WordAt(s, i))
  {
    var cs := Sum(s, i);
    assert Sum(s, i + 1) == Xor(cs, Lane(s[i], 0));
    assert Sum(s, i + 2) == Xor(Sum(s, i + 1), Lane(s[i + 1], 1));
    assert Sum(s, i + 3) == Xor(Sum(s, i + 2), Lane(s[i + 2], 2));
    assert Sum(s, i + 4) == Xor(Sum(s, i + 3), Lane(s[i + 3], 3));
    FourLanes(cs, s, i);
  }

  /** On whole words the byte loop is the exclusive or of the words. */
  lemma {:induction false} SumIsXorOfWords(s: seq<byte>, m: nat)
    requires 4 * m <= |s|
    ensures Sum(s, 4 * m) == XorOfWords(s, m)
  {
    if m > 0 {
      SumIsXorOfWords(s, m - 1);
      FourSteps(s, 4 * (m - 1));
    }
  }

  /** The trailer of f is the checksum of everything before it. */
  predicate ChecksumOk(f: seq<byte>)
    requires |f| >= 4
  {
    Sum(f, |f| - 4) == WordAt(f, |f| - 4)
  }

  /** A whole frame of m words is valid exactly when its words XOR to zero. */
  lemma ValidIffWordsCancel(f: seq<byte>, m: nat)
    requires |f| == 4 * m && m > 0
    ensures ChecksumOk(f) <==> XorOfWords(f, m) == 0
  {
    SumIsXorOfWords(f, m - 1);
    XorZero(Sum(f, 4 * (m - 1)), WordAt(f, 4 * (m - 1)));
  }

  // ----- burst errors

  /** Bit k of a byte string, the least significant bit of each byte first. */
  predicate StreamBit(s: seq<byte>, k: nat)
    requires k < 8 * |s|
  {
    BitAt(s[k / 8], k % 8)
  }

  /** The parity of the bits of s at positions lane, lane + 32, ..., one for each of the first m words. */
  predicate LaneParity(s: seq<byte>, lane: nat, m: nat)
    requires 4 * m <= |s| && lane < 32
  {
    m > 0 && LaneParity(s, lane, m - 1) != StreamBit(s, 32 * (m - 1) + lane)
  }

  lemma {:induction false} XorOfWordsBit(s: seq<byte>, lane: nat, m: nat)
    requires 4 * m <= |s| && lane < 32
    ensures BitAt(XorOfWords(s, m), lane) == LaneParity(s, lane, m)
  {
    if m == 0 {
      ZeroBit(lane);
    } else {
      var i := 4 * (m - 1);
      XorOfWordsBit(s, lane, m - 1);
      XorBit(XorOfWords(s, m - 1), WordAt(s, i), lane);
      WordBit(s, i, lane);
      assert (8 * i + lane) / 8 == i + lane / 8 && (8 * i + lane) % 8 == lane % 8;
    }
  }

  /** Every bit outside [from, from + 32) is the same in f and g. */
  ghost predicate SameOutsideBurst(f: seq<byte>, g: seq<byte>, from: nat)
    requires |f| == |g|
  {
    forall k :: 0 <= k < 8 * |f| && !(from <= k < from + 32) ==> StreamBit(f, k) == StreamBit(g, k)
  }

  /** A lane meets any 32 consecutive positions once, so its parity reveals a change there. */
  lemma {:induction false} LaneParityDiffers(f: seq<byte>, g: seq<byte>, from: nat, q: nat, lane: nat, m: nat)
    requires |f| == |g| && 4 * m <= |f| && lane < 32
    requires SameOutsideBurst(f, g, from)
    requires from <= 32 * q + lane < from + 32 && 32 * q + lane < 8 * |f|
    requires StreamBit(f, 32 * q + lane) != StreamBit(g, 32 * q + lane)
    ensures (LaneParity(f, lane, m) != LaneParity(g, lane, m)) == (m > q)
  {
    if m > 0 {
      LaneParityDiffers(f, g, from, q, lane, m - 1);
      if m - 1 != q {
        assert StreamBit(f, 32 * (m - 1) + lane) == StreamBit(g, 32 * (m - 1) + lane);
      }
    }
  }

  lemma SomeBitDiffers(f: seq<byte>, g: seq<byte>) returns (p: nat)
    requires |f| == |g| && f != g
    ensures p < 8 * |f| && StreamBit(f, p) != StreamBit(g, p)
  {
    var i :| 0 <= i < |f| && f[i] != g[i];
    if forall k :: 0 <= k < 8 ==> BitAt(f[i], k) == BitAt(g[i], k) {
      Pow2Of32();
      BitsDetermine(f[i], g[i], 8);
    }
    var k :| 0 <= k < 8 && BitAt(f[i], k) != BitAt(g[i], k);
    p := 8 * i + k;
    assert p / 8 == i && p % 8 == k;
  }

  /** No burst of up to 32 bits, payload and trailer included, turns a valid frame into another valid one. */
  lemma BurstRejected(f: seq<byte>, g: seq<byte>, from: nat)
    requires |f| == |g| && |f| >= 4 && |f| % 4 == 0
    requires ChecksumOk(f) && f != g
    requires SameOutsideBurst(f, g, from)
    ensures !ChecksumOk(g)
  {
    var p := SomeBitDiffers(f, g);
    var q, lane, m := p / 32, p % 32, |f| / 4;
    LaneParityDiffers(f, g, from, q, lane, m);
    XorOfWordsBit(f, lane, m);
    XorOfWordsBit(g, lane, m);
    ValidIffWordsCancel(f, m);
    ValidIffWordsCancel(g, m);
  }
}
