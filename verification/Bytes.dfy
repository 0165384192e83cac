/** Bytes, machine words and the fixed-width integer encodings shared by every layer. */
module Bytes {

  newtype byte = x: int | 0 <= x < 256

  type bytes = seq<byte>

  datatype Option<+T> = None | Some(value: T)

  const TWO_TO_32 := 0x1_0000_0000
  const TWO_TO_64 := 0x1_0000_0000_0000_0000

  /** Bytes in an MTProto authorization key. */
  const AUTH_KEY_SIZE := 256

  type uint32 = x: int | 0 <= x < 0x1_0000_0000
  type uint64 = x: int | 0 <= x < 0x1_0000_0000_0000_0000

  /** 256 to the power `n`: the first value that does not fit in `n` bytes. */
  function Capacity(n: nat): (c: nat)
    ensures c >= 1
  {
    if n == 0 then 1 else 256 * Capacity(n - 1)
  }

  /** The bytes `e` stand in `d` at offset `p`; anything may come before and after them. */
  predicate At(d: bytes, p: nat, e: bytes) {
    p + |e| <= |d| && d[p..p + |e|] == e
  }

  lemma AtSplit(d: bytes, p: nat, a: bytes, b: bytes)
    ensures At(d, p, a + b) <==> At(d, p, a) && At(d, p + |a|, b)
  {
    if At(d, p, a + b) {
      assert a == (a + b)[..|a|] && b == (a + b)[|a|..];
      assert d[p..p + |a|] == d[p..p + |a + b|][..|a|];
      assert d[p + |a|..p + |a| + |b|] == d[p..p + |a + b|][|a|..];
    }
    if At(d, p, a) && At(d, p + |a|, b) {
      assert d[p..p + |a + b|] == d[p..p + |a|] + d[p + |a|..p + |a| + |b|];
    }
  }

  /** The 32-bit word stored little-endian at offset `p`. */
  function Word32(d: bytes, p: nat): (r: nat)
    requires p + 4 <= |d|
    ensures r < 0x1_0000_0000
  {
    d[p] as int + 0x100 * d[p + 1] as int + 0x1_0000 * d[p + 2] as int + 0x100_0000 * d[p + 3] as int
  }

  /** The 64-bit word stored little-endian at offset `p`. */
  function Word64(d: bytes, p: nat): (r: nat)
    requires p + 8 <= |d|
    ensures r < 0x1_0000_0000_0000_0000
  {
    Word32(d, p) + 0x1_0000_0000 * Word32(d, p + 4)
  }

  /** The four bytes of a 32-bit word, as the writer's shifts produce them. */
  function Enc32(v: nat): (s: bytes)
    ensures |s| == 4
  {
    [(v % 0x100) as byte, (v / 0x100 % 0x100) as byte, (v / 0x1_0000 % 0x100) as byte, (v / 0x100_0000 % 0x100) as byte]
  }

  /** The eight bytes of a 64-bit word. */
  function Enc64(v: nat): (s: bytes)
    ensures |s| == 8
  {
    Enc32(v % 0x1_0000_0000) + Enc32(v / 0x1_0000_0000 % 0x1_0000_0000)
  }

  lemma Word32Splits(v: nat)
    requires v < 0x1_0000_0000
    ensures v == v % 0x100 + 0x100 * (v / 0x100 % 0x100) + 0x1_0000 * (v / 0x1_0000 % 0x100)
            + 0x100_0000 * (v / 0x100_0000 % 0x100)
  {
    var a := v / 0x100;
    var b := a / 0x100;
    assert v / 0x1_0000 == b && v / 0x100_0000 == b / 0x100;
  }

  /** Reading a word where its encoding was written gives the word back. */
  lemma Word32OfEnc32(v: nat, d: bytes, p: nat)
    requires v < 0x1_0000_0000
    requires At(d, p, Enc32(v))
    ensures Word32(d, p) == v
  {
    var s := d[p..p + 4];
    assert d[p] == s[0] && d[p + 1] == s[1] && d[p + 2] == s[2] && d[p + 3] == s[3];
    Word32Splits(v);
  }

  lemma WordDigits(b0: nat, b1: nat, b2: nat, b3: nat)
    requires b0 < 256 && b1 < 256 && b2 < 256 && b3 < 256
    ensures var w := b0 + 0x100 * b1 + 0x1_0000 * b2 + 0x100_0000 * b3;
            w % 0x100 == b0 && w / 0x100 % 0x100 == b1 && w / 0x1_0000 % 0x100 == b2 && w / 0x100_0000 % 0x100 == b3
  {
    var w := b0 + 0x100 * b1 + 0x1_0000 * b2 + 0x100_0000 * b3;
    assert w / 0x100 == b1 + 0x100 * b2 + 0x1_0000 * b3;
    assert w / 0x1_0000 == b2 + 0x100 * b3;
    assert w / 0x100_0000 == b3;
  }

  /** Words stand on the wire with the least significant byte first, and so do the halves of long ones. */
  lemma LeastFirst(b0: byte, b1: byte, b2: byte, b3: byte, high: uint32)
    ensures var v := b0 as int + 0x100 * b1 as int + 0x1_0000 * b2 as int + 0x100_0000 * b3 as int;
            && Enc32(v) == [b0, b1, b2, b3] && Word32([b0, b1, b2, b3], 0) == v
            && Enc64(v + 0x1_0000_0000 * high) == [b0, b1, b2, b3] + Enc32(high)
  {
    WordDigits(b0 as int, b1 as int, b2 as int, b3 as int);
    var v := b0 as int + 0x100 * b1 as int + 0x1_0000 * b2 as int + 0x100_0000 * b3 as int;
    assert Enc32(v) == [b0, b1, b2, b3];
    TwoHalves(v, high);
  }

  lemma TwoHalves(low: uint32, high: uint32)
    ensures Enc64(low + 0x1_0000_0000 * high) == Enc32(low) + Enc32(high)
  {
    hide Enc32;
  }

  lemma Enc32OfWord32(d: bytes, p: nat)
    requires p + 4 <= |d|
    ensures Enc32(Word32(d, p)) == d[p..p + 4]
  {
    var w := Word32(d, p);
    var b0, b1, b2, b3 := d[p] as int, d[p + 1] as int, d[p + 2] as int, d[p + 3] as int;
    WordDigits(b0, b1, b2, b3);
    assert d[p..p + 4] == [d[p], d[p + 1], d[p + 2], d[p + 3]];
  }

  lemma Word64OfEnc64(v: nat, d: bytes, p: nat)
    requires v < 0x1_0000_0000_0000_0000
    requires At(d, p, Enc64(v))
    ensures Word64(d, p) == v
  {
    AtSplit(d, p, Enc32(v % 0x1_0000_0000), Enc32(v / 0x1_0000_0000 % 0x1_0000_0000));
    Word32OfEnc32(v % 0x1_0000_0000, d, p);
    Word32OfEnc32(v / 0x1_0000_0000 % 0x1_0000_0000, d, p + 4);
  }

  /** Two's-complement reading of a 32-bit word, the cast `(int32_t)`. */
  function Signed32(v: uint32): (r: int)
    ensures -0x8000_0000 <= r < 0x8000_0000
  {
    if v < 0x8000_0000 then v else v - 0x1_0000_0000
  }

  /** The cast `(uint32_t)` of a signed 32-bit value. */
  function Unsigned32(v: int): (r: uint32)
    requires -0x8000_0000 <= v < 0x8000_0000
    ensures Signed32(r) == v
  {
    if v >= 0 then v else v + 0x1_0000_0000
  }

  function Signed64(v: uint64): (r: int)
    ensures -0x8000_0000_0000_0000 <= r < 0x8000_0000_0000_0000
  {
    if v < 0x8000_0000_0000_0000 then v else v - 0x1_0000_0000_0000_0000
  }

  function Unsigned64(v: int): (r: uint64)
    requires -0x8000_0000_0000_0000 <= v < 0x8000_0000_0000_0000
    ensures Signed64(r) == v
  {
    if v >= 0 then v else v + 0x1_0000_0000_0000_0000
  }

  /** `flags & (1u << k)` as a recursive test on the binary digits of `f`. */
  predicate Bit(f: nat, k: nat)
    decreases k, f
  {
    if k == 0 then f % 2 == 1 else Bit(f / 2, k - 1)
  }

  /** Bit `k` is the digit of weight 2^k: what is left of it is 0 or 1, what is right of it is smaller. */
  lemma {:induction false} BitDigit(high: nat, one: bool, low: nat, k: nat)
    requires low < TwoTo(k)
    ensures Bit((2 * high + if one then 1 else 0) * TwoTo(k) + low, k) <==> one
    decreases k
  {
    var digit := 2 * high + if one then 1 else 0;
    if k > 0 {
      Halved(digit, TwoTo(k - 1), low);
      BitDigit(high, one, low / 2, k - 1);
    }
  }

  function TwoTo(k: nat): (r: nat)
    ensures r > 0
  {
    if k == 0 then 1 else 2 * TwoTo(k - 1)
  }

  lemma Halved(a: nat, b: nat, low: nat)
    ensures (a * (2 * b) + low) / 2 == a * b + low / 2
  {
    assert a * (2 * b) == 2 * (a * b);
  }
}
