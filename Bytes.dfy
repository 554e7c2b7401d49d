/**
 * Fixed-width integers, bits and little-endian words as the demos use them
 * (`uint8_t`, `uint16_t`, `uint32_t`, `1 << i`, `x & (1 << i)`, `memcpy` of a
 * 32-bit word), plus the counting byte pattern several demos fill buffers with.
 */
module Bytes {

  type Byte = x: int | 0 <= x < 0x100
  type U16 = x: int | 0 <= x < 0x1_0000
  type U32 = x: int | 0 <= x < 0x1_0000_0000

  datatype Option<T> = None | Some(value: T)

  /** `uint32_t` arithmetic: the result of an addition wraps modulo 2^32. */
  function Wrap32(x: nat): U32 { x % 0x1_0000_0000 }

  /** `1 << n` */
  function Pow2(n: nat): nat
  {
    if n == 0 then 1 else 2 * Pow2(n - 1)
  }

  lemma {:induction false} Pow2Positive(n: nat)
    ensures Pow2(n) > 0
  {
    if n > 0 { Pow2Positive(n - 1); }
  }

  /** Bit i of x is set: `x & (1 << i)` is non-zero. */
  predicate Bit(x: nat, i: nat)
  {
    if i == 0 then x % 2 == 1 else Bit(x / 2, i - 1)
  }

  lemma {:induction false} NoBitOfZero(i: nat)
    ensures !Bit(0, i)
  {
    if i > 0 { NoBitOfZero(i - 1); }
  }

  /** `1 << i` has bit i set and no other. */
  lemma {:induction false} SingleBit(i: nat, j: nat)
    ensures Bit(Pow2(i), j) <==> i == j
  {
    if i == 0 {
      if j > 0 { NoBitOfZero(j - 1); }
    } else if j > 0 {
      assert Pow2(i) / 2 == Pow2(i - 1);
      SingleBit(i - 1, j - 1);
    }
  }

  /** The four bytes of x in little-endian order, as `memcpy` stores x on a little-endian host. */
  function Le32Bytes(x: U32): (b: seq<Byte>)
    ensures |b| == 4
  {
    [x % 0x100, (x / 0x100) % 0x100, (x / 0x1_0000) % 0x100, x / 0x100_0000]
  }

  /** The four bytes of x in big-endian order, as `memcpy` stores x on a big-endian host. */
  function Be32Bytes(x: U32): (b: seq<Byte>)
    ensures |b| == 4
  {
    var l := Le32Bytes(x);
    [l[3], l[2], l[1], l[0]]
  }

  /** The 32-bit word whose little-endian bytes are b (`le32toh` of a `memcpy`'d word). */
  function Le32(b: seq<Byte>): (x: U32)
    requires |b| == 4
  {
    b[0] as int + 0x100 * (b[1] as int) + 0x1_0000 * (b[2] as int) + 0x100_0000 * (b[3] as int)
  }

  lemma Le32OfBytes(x: U32)
    ensures Le32(Le32Bytes(x)) == x
  {
    var q1 := x / 0x100;
    var q2 := q1 / 0x100;
    assert x == x % 0x100 + 0x100 * q1;
    assert q1 == q1 % 0x100 + 0x100 * q2;
    assert x / 0x1_0000 == q2;
    assert x / 0x100_0000 == q2 / 0x100;
    assert q2 == q2 % 0x100 + 0x100 * (q2 / 0x100);
  }

  lemma BytesOfLe32(b: seq<Byte>)
    requires |b| == 4
    ensures Le32Bytes(Le32(b)) == b
  {
    var x := Le32(b);
    assert x / 0x100 == b[1] as int + 0x100 * (b[2] as int) + 0x1_0000 * (b[3] as int);
    assert x / 0x1_0000 == b[2] as int + 0x100 * (b[3] as int);
    assert x / 0x100_0000 == b[3];
  }

  /** Distinct words have distinct byte images, so a word is recovered from its bytes. */
  lemma Le32Injective(a: seq<Byte>, b: seq<Byte>)
    requires |a| == 4 && |b| == 4
    ensures Le32(a) == Le32(b) <==> a == b
  {
    if Le32(a) == Le32(b) {
      BytesOfLe32(a);
      BytesOfLe32(b);
    }
  }

  /** `t` copied over the start of `s`, as a `memcpy` into the head of a buffer leaves it. */
  function Overlay(s: seq<Byte>, t: seq<Byte>): (r: seq<Byte>)
    requires |t| <= |s|
    ensures |r| == |s| && r[..|t|] == t && r[|t|..] == s[|t|..]
  {
    t + s[|t|..]
  }

  /** The counting pattern `buf[i] = i` stored into `uint8_t`, i.e. i mod 256. */
  function CountingBytes(n: nat): (s: seq<Byte>)
    ensures |s| == n
  {
    seq(n, i => i % 0x100)
  }

  /** A window of the counting pattern that starts at a multiple of 256 is the pattern again. */
  lemma CountingAligned(n: nat, off: nat, len: nat)
    requires off % 0x100 == 0 && off + len <= n
    ensures CountingBytes(n)[off..off + len] == CountingBytes(len)
  {
    forall t | 0 <= t < len
      ensures CountingBytes(n)[off + t] == CountingBytes(len)[t]
    {
      assert off == 0x100 * (off / 0x100);
      assert (off + t) % 0x100 == t % 0x100;
    }
  }

  /** `for (i = 0; i < len; i++) buf[i] = i;` over a byte buffer. */
  method FillCounting(a: array<Byte>)
    modifies a
    ensures a[..] == CountingBytes(a.Length)
  {
    var i := 0;
    while i < a.Length
      invariant 0 <= i <= a.Length
      invariant forall k :: 0 <= k < i ==> a[k] == k % 0x100
    {
      a[i] := i % 0x100;
      i := i + 1;
    }
  }
}
