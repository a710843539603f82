/**
  Fixed-width unsigned integers, their little-endian bytes and their bits.
 */
module Bytes {

  const TWO_32: nat := 0x1_0000_0000
  const TWO_64: nat := 0x1_0000_0000_0000_0000

  type byte = n: nat | n < 0x100
  type u16 = n: nat | n < 0x1_0000
  type u32 = n: nat | n < 0x1_0000_0000
  type u64 = n: nat | n < 0x1_0000_0000_0000_0000

  /** 256 to the power k: the number of values k bytes can hold. */
  function Pow256(k: nat): (p: nat)
    ensures p > 0
  {
    if k == 0 then 1 else 256 * Pow256(k - 1)
  }

  /** The k low-order bytes of n, least significant first. */
  function ToLe(n: nat, k: nat): (s: seq<byte>)
    ensures |s| == k
  {
    if k == 0 then [] else [n % 256] + ToLe(n / 256, k - 1)
  }

  /** The number that the bytes s spell, least significant first. */
  function FromLe(s: seq<byte>): (n: nat)
    ensures n < Pow256(|s|)
  {
    if s == [] then 0 else s[0] + 256 * FromLe(s[1..])
  }

  lemma {:induction false} FromToLe(n: nat, k: nat)
    requires n < Pow256(k)
    ensures FromLe(ToLe(n, k)) == n
  {
    if k > 0 {
      FromToLe(n / 256, k - 1);
      assert ToLe(n, k)[1..] == ToLe(n / 256, k - 1);
    }
  }

  lemma {:induction false} ToFromLe(s: seq<byte>)
    ensures ToLe(FromLe(s), |s|) == s
  {
    if s != [] {
      ToFromLe(s[1..]);
      var high := FromLe(s[1..]);
      assert (s[0] + 256 * high) / 256 == high && (s[0] + 256 * high) % 256 == s[0];
    }
  }

  lemma Widths()
    ensures Pow256(2) == 0x1_0000
    ensures Pow256(4) == TWO_32
    ensures Pow256(8) == TWO_64
  {
    assert Pow256(4) == 256 * (256 * Pow256(2));
    assert Pow256(8) == 256 * (256 * (256 * (256 * Pow256(4))));
  }

  // ----- bits

  function Pow2(k: nat): (p: nat)
    ensures p > 0
  {
    if k == 0 then 1 else 2 * Pow2(k - 1)
  }

  /** Bit k of n, counting from the least significant. */
  predicate BitAt(n: nat, k: nat) {
    if k == 0 then n % 2 == 1 else BitAt(n / 2, k - 1)
  }

  /** The number whose bits, least significant first, are given. */
  function FromBits(bits: seq<bool>): nat {
    if bits == [] then 0 else if bits[0] then 1 + 2 * FromBits(bits[1..]) else 2 * FromBits(bits[1..])
  }

  lemma {:induction false} FromBitsBound(bits: seq<bool>)
    ensures FromBits(bits) < Pow2(|bits|)
  {
    if bits != [] { FromBitsBound(bits[1..]); }
  }

  function XorBits(a: nat, b: nat): seq<bool> {
    seq(32, k requires 0 <= k => BitAt(a, k) != BitAt(b, k))
  }

  /** The C++ operator ^ on 32-bit operands. */
  function Xor(a: nat, b: nat): (x: u32) {
    var x := FromBits(XorBits(a, b));
    assert x < TWO_32 by { FromBitsBound(XorBits(a, b)); Pow2Of32(); }
    x
  }

  lemma Pow2OneByteMore(k: nat)
    ensures Pow2(k + 8) == 256 * Pow2(k)
  {
    assert Pow2(k + 2) == 4 * Pow2(k);
    assert Pow2(k + 4) == 4 * Pow2(k + 2);
    assert Pow2(k + 6) == 4 * Pow2(k + 4);
    assert Pow2(k + 8) == 4 * Pow2(k + 6);
  }

  lemma Pow2Of32()
    ensures Pow2(8) == 256
    ensures Pow2(32) == TWO_32
  {
    Pow2OneByteMore(0);
    Pow2OneByteMore(8);
    Pow2OneByteMore(16);
    Pow2OneByteMore(24);
  }

  lemma {:induction false} FromBitsBit(bits: seq<bool>, k: nat)
    requires k < |bits|
    ensures BitAt(FromBits(bits), k) == bits[k]
  {
    var n, high := FromBits(bits), FromBits(bits[1..]);
    assert n / 2 == high && (n % 2 == 1) == bits[0];
    if k > 0 {
      FromBitsBit(bits[1..], k - 1);
    }
  }

  lemma XorBit(a: nat, b: nat, k: nat)
    requires k < 32
    ensures BitAt(Xor(a, b), k) == (BitAt(a, k) != BitAt(b, k))
  {
    FromBitsBit(XorBits(a, b), k);
  }

  /** Two n-bit numbers that agree on every bit are the same. */
  lemma {:induction false} BitsDetermine(a: nat, b: nat, n: nat)
    requires a < Pow2(n) && b < Pow2(n)
    requires forall k :: 0 <= k < n ==> BitAt(a, k) == BitAt(b, k)
    ensures a == b
  {
    if n > 0 {
      assert BitAt(a, 0) == BitAt(b, 0);
      forall k | 0 <= k < n - 1 ensures BitAt(a / 2, k) == BitAt(b / 2, k) {
        assert BitAt(a, k + 1) == BitAt(b, k + 1);
      }
      BitsDetermine(a / 2, b / 2, n - 1);
    }
  }

  /** Bit k of the number that the bytes spell is bit k % 8 of byte k / 8. */
  lemma {:induction false} FromLeBit(s: seq<byte>, k: nat)
    requires k < 8 * |s|
    ensures BitAt(FromLe(s), k) == BitAt(s[k / 8], k % 8)
  {
    LowByteBit(s[0], FromLe(s[1..]), k);
    if k >= 8 {
      FromLeBit(s[1..], k - 8);
      assert s[1..][(k - 8) / 8] == s[k / 8];
    }
  }

  lemma {:induction false} ZeroBit(k: nat)
    ensures !BitAt(0, k)
  {
    if k > 0 { ZeroBit(k - 1); }
  }

  /** The exclusive or vanishes exactly on equal operands. */
  lemma XorZero(a: u32, b: u32)
    ensures Xor(a, b) == 0 <==> a == b
  {
    Pow2Of32();
    var x := Xor(a, b);
    forall k | 0 <= k < 32 ensures BitAt(x, k) == (BitAt(a, k) != BitAt(b, k)) && !BitAt(0, k) {
      XorBit(a, b, k);
      ZeroBit(k);
    }
    if a == b {
      BitsDetermine(x, 0, 32);
    } else if x == 0 {
      BitsDetermine(a, b, 32);
    }
  }

  lemma LowByteBit(b: byte, h: nat, k: nat)
    ensures BitAt(b + 256 * h, k) == if k < 8 then BitAt(b, k) else BitAt(h, k - 8)
  {
    Pow2Of32();
    LowBits(b, h, 8, k);
  }

  lemma {:induction false} LowBits(b: nat, h: nat, n: nat, k: nat)
    requires b < Pow2(n)
    ensures BitAt(b + Pow2(n) * h, k) == if k < n then BitAt(b, k) else BitAt(h, k - n)
  {
    if n > 0 {
      var p := Pow2(n - 1) * h;
      assert Pow2(n) * h == 2 * p;
      assert (b + 2 * p) % 2 == b % 2 && (b + 2 * p) / 2 == b / 2 + p;
      if k > 0 {
        LowBits(b / 2, h, n - 1, k - 1);
      }
    }
  }
}
