/** Bytes, byte strings and the fixed-width big-endian numbers every wire format here uses. */
module Bytes {
  type byte = x: int | 0 <= x < 256

  datatype Option<+T> = None | Some(value: T)

  /** Go's `byte(x)` of a non-negative integer: the low eight bits. */
  function Low8(x: nat): byte {
    x % 256
  }

  /** `x<<8 | y` on two bytes. */
  function U16(hi: byte, lo: byte): (n: nat)
    ensures n < 65536
  {
    hi * 256 + lo
  }

  /** A 16-bit big-endian field; larger numbers lose their high bits, as `byte(n>>8), byte(n)` does. */
  function U16Bytes(n: nat): (s: seq<byte>)
    ensures |s| == 2
    ensures n < 65536 ==> U16(s[0], s[1]) == n
  {
    [Low8(n / 256), Low8(n)]
  }

  lemma U16OfByte(n: byte)
    ensures U16Bytes(n) == [0, n]
  {
    assert n / 256 == 0;
  }

  /** A field keeps the low 16 bits. */
  lemma LowWord(n: nat)
    ensures n % 65536 / 256 % 256 == n / 256 % 256 && n % 65536 % 256 == n % 256
  {
    var q, m := n / 65536, n % 65536;
    assert n == 256 * (256 * q + m / 256) + m % 256;
    assert n / 256 == 256 * q + m / 256;
  }

  function Pow256(k: nat): (p: nat)
    ensures p > 0
  {
    if k == 0 then 1 else 256 * Pow256(k - 1)
  }

  /** The value of a big-endian byte string. */
  function BeValue(s: seq<byte>): nat {
    if s == [] then 0 else BeValue(s[..|s| - 1]) * 256 + s[|s| - 1]
  }

  /** `n` in `k` big-endian bytes, high bits dropped. */
  function BeBytes(n: nat, k: nat): (s: seq<byte>)
    ensures |s| == k
  {
    if k == 0 then [] else BeBytes(n / 256, k - 1) + [Low8(n)]
  }

  lemma {:induction false} BeValueOfBytes(n: nat, k: nat)
    requires n < Pow256(k)
    ensures BeValue(BeBytes(n, k)) == n
  {
    if k > 0 {
      BeValueOfBytes(n / 256, k - 1);
      assert BeBytes(n, k)[..k - 1] == BeBytes(n / 256, k - 1);
    }
  }

  /** Exclusive or of the low `k` bits of two numbers, bit by bit. */
  function XorLow(a: nat, b: nat, k: nat): nat {
    if k == 0 then 0 else 2 * XorLow(a / 2, b / 2, k - 1) + (if a % 2 == b % 2 then 0 else 1)
  }

  function Pow2(k: nat): (p: nat)
    ensures p > 0
  {
    if k == 0 then 1 else 2 * Pow2(k - 1)
  }

  lemma {:induction false} XorLowBound(a: nat, b: nat, k: nat)
    ensures XorLow(a, b, k) < Pow2(k)
  {
    if k > 0 {
      XorLowBound(a / 2, b / 2, k - 1);
    }
  }

  lemma {:induction false} XorLowTwice(a: nat, b: nat, k: nat)
    requires a < Pow2(k)
    ensures XorLow(XorLow(a, b, k), b, k) == a
  {
    if k > 0 {
      XorLowTwice(a / 2, b / 2, k - 1);
      assert XorLow(a, b, k) / 2 == XorLow(a / 2, b / 2, k - 1);
    }
  }

  lemma Pow2Eight()
    ensures Pow2(8) == 256
  {
    assert Pow2(2) == 4;
    assert Pow2(4) == 16;
    assert Pow2(6) == 64;
  }

  /** Bitwise exclusive or of two bytes. */
  function Xor(a: byte, b: byte): byte {
    XorLowBound(a, b, 8);
    Pow2Eight();
    XorLow(a, b, 8)
  }

  /** Bit `i` of a number, the lowest being bit 0. */
  function Bit(n: nat, i: nat): nat {
    if i == 0 then n % 2 else Bit(n / 2, i - 1)
  }

  lemma Halved(n: nat, low: nat)
    requires low < 2
    ensures (2 * n + low) / 2 == n
  {
  }

  lemma {:induction false} XorLowBit(a: nat, b: nat, k: nat, i: nat)
    requires i < k
    ensures Bit(XorLow(a, b, k), i) == if Bit(a, i) == Bit(b, i) then 0 else 1
  {
    if i > 0 {
      XorLowBit(a / 2, b / 2, k - 1, i - 1);
      Halved(XorLow(a / 2, b / 2, k - 1), if a % 2 == b % 2 then 0 else 1);
    }
  }

  /** Each bit of the result is set where exactly one of the two is. */
  lemma XorIsBitwise(a: byte, b: byte, i: nat)
    requires i < 8
    ensures Bit(Xor(a, b), i) == if Bit(a, i) == Bit(b, i) then 0 else 1
  {
    XorLowBit(a, b, 8, i);
  }

  lemma {:induction false} XorLowWithZero(a: nat, k: nat)
    requires a < Pow2(k)
    ensures XorLow(a, 0, k) == a == XorLow(0, a, k)
  {
    if k > 0 {
      XorLowWithZero(a / 2, k - 1);
    }
  }

  lemma XorWithZero(a: byte)
    ensures Xor(a, 0) == a == Xor(0, a)
  {
    Pow2Eight();
    XorLowWithZero(a, 8);
  }

  /** Masking a byte twice with the same byte undoes it. */
  lemma XorTwice(a: byte, b: byte)
    ensures Xor(Xor(a, b), b) == a
  {
    Pow2Eight();
    XorLowTwice(a, b, 8);
  }

  lemma SliceOfSlice(s: seq<byte>, i: nat, n: nat)
    requires i + n <= |s|
    ensures s[i..][..n] == s[i..i + n]
    ensures s[i..][n..] == s[i + n..]
  {
  }

  /** `s` holds the bytes `part` from index `at` on. */
  predicate HoldsAt(s: seq<byte>, at: nat, part: seq<byte>) {
    at + |part| <= |s| && s[at..at + |part|] == part
  }

  lemma HoldsSlice(s: seq<byte>, at: nat, part: seq<byte>)
    requires HoldsAt(s, at, part)
    ensures at + |part| <= |s| && s[at..at + |part|] == part
  {
  }

  lemma HoldsByte(s: seq<byte>, at: nat, part: seq<byte>, i: nat)
    requires HoldsAt(s, at, part) && i < |part|
    ensures at + i < |s| && s[at + i] == part[i]
  {
    assert s[at + i] == s[at..at + |part|][i];
  }

  lemma HoldsBoth(s: seq<byte>, at: nat, left: seq<byte>, right: seq<byte>)
    ensures HoldsAt(s, at, left + right) <==> HoldsAt(s, at, left) && HoldsAt(s, at + |left|, right)
  {
    var mid, end := at + |left|, at + |left| + |right|;
    if end <= |s| {
      assert s[at..end] == s[at..mid] + s[mid..end];
      if s[at..end] == left + right {
        assert s[at..mid] == (left + right)[..|left|];
        assert s[mid..end] == (left + right)[|left|..];
      }
    }
  }

  function Concat(parts: seq<seq<byte>>): seq<byte> {
    if parts == [] then [] else parts[0] + Concat(parts[1..])
  }

  lemma {:induction false} ConcatAppend(parts: seq<seq<byte>>, more: seq<seq<byte>>)
    ensures Concat(parts + more) == Concat(parts) + Concat(more)
  {
    if parts == [] {
      assert parts + more == more;
    } else {
      assert (parts + more)[1..] == parts[1..] + more;
      ConcatAppend(parts[1..], more);
    }
  }
}
