/** Powers, residues and fixed-width big-endian numbers: the arithmetic the bignum calls stand for. */
module Modular {
  import opened Bytes

  function Pow(b: int, e: nat): (r: int) {
    if e == 0 then 1 else b * Pow(b, e - 1)
  }

  lemma {:induction false} PowAdd(b: int, d: nat, e: nat)
    ensures Pow(b, d + e) == Pow(b, d) * Pow(b, e)
    decreases d
  {
    if d > 0 {
      PowAdd(b, d - 1, e);
      assert b * (Pow(b, d - 1) * Pow(b, e)) == b * Pow(b, d - 1) * Pow(b, e);
    }
  }

  lemma {:induction false} PowMul(b: int, d: nat, e: nat)
    ensures Pow(b, d * e) == Pow(Pow(b, d), e)
    decreases e
  {
    if e == 0 {
      assert d * e == 0;
    } else {
      assert d * e == d + d * (e - 1);
      PowAdd(b, d, d * (e - 1));
      PowMul(b, d, e - 1);
    }
  }

  // ---- residues ----

  ghost predicate Congruent(a: int, b: int, m: nat)
    requires m > 0
  {
    exists t: int :: a == b + m * t
  }

  lemma CongruentBy(a: int, b: int, m: nat, t: int)
    requires m > 0 && a == b + m * t
    ensures Congruent(a, b, m)
  {
  }

  lemma CongruentMod(a: int, m: nat)
    requires m > 0
    ensures Congruent(a % m, a, m) && Congruent(a, a % m, m)
  {
    CongruentBy(a, a % m, m, a / m);
    CongruentBy(a % m, a, m, -(a / m));
  }

  lemma SmallMultiple(m: nat, t: int, r: int)
    requires m > 0 && 0 <= r < m && 0 <= r + m * t < m
    ensures t == 0
  {
    AtLeastOnce(m, t);
    AtLeastOnce(m, -t);
  }

  lemma AtLeastOnce(m: nat, t: int)
    ensures t >= 1 ==> m * t >= m
    ensures m * -t == -(m * t)
  {
    if t >= 1 {
      var z: nat := t - 1;
      assert m * (z + 1) == m * z + m;
    }
  }

  lemma CongruentSame(a: int, b: int, m: nat)
    requires m > 0 && Congruent(a, b, m)
    ensures a % m == b % m
  {
    var t: int :| a == b + m * t;
    var s := a / m - b / m;
    assert a == m * (a / m) + a % m && b == m * (b / m) + b % m;
    assert a % m == b % m + m * (t - s);
    SmallMultiple(m, t - s, b % m);
  }

  lemma CongruentMul(a: int, b: int, c: int, d: int, m: nat)
    requires m > 0 && Congruent(a, b, m) && Congruent(c, d, m)
    ensures Congruent(a * c, b * d, m)
  {
    var t: int :| a == b + m * t;
    var s: int :| c == d + m * s;
    var w := b * s + t * d + m * (t * s);
    assert a * c == b * d + m * w by { Expand(b, d, m, t, s); }
    CongruentBy(a * c, b * d, m, w);
  }

  lemma Expand(b: int, d: int, m: int, t: int, s: int)
    ensures (b + m * t) * (d + m * s) == b * d + m * (b * s + t * d + m * (t * s))
  {
    assert (b + m * t) * (d + m * s) == b * d + b * (m * s) + m * t * d + m * t * (m * s);
    assert b * (m * s) == m * (b * s) && m * t * d == m * (t * d) && m * t * (m * s) == m * (m * (t * s));
  }

  lemma CongruentTrans(a: int, b: int, c: int, m: nat)
    requires m > 0 && Congruent(a, b, m) && Congruent(b, c, m)
    ensures Congruent(a, c, m)
  {
    var t: int :| a == b + m * t;
    var s: int :| b == c + m * s;
    assert m * (t + s) == m * t + m * s;
    CongruentBy(a, c, m, t + s);
  }

  lemma CongruentSub(a: int, b: int, c: int, d: int, m: nat)
    requires m > 0 && Congruent(a, b, m) && Congruent(c, d, m)
    ensures Congruent(a - c, b - d, m)
  {
    var t: int :| a == b + m * t;
    var s: int :| c == d + m * s;
    assert m * (t - s) == m * t - m * s;
    CongruentBy(a - c, b - d, m, t - s);
  }

  lemma {:induction false} CongruentPow(a: int, b: int, e: nat, m: nat)
    requires m > 0 && Congruent(a, b, m)
    ensures Congruent(Pow(a, e), Pow(b, e), m)
  {
    hide Congruent;
    if e == 0 {
      CongruentBy(1, 1, m, 0);
    } else {
      CongruentPow(a, b, e - 1, m);
      CongruentMul(a, b, Pow(a, e - 1), Pow(b, e - 1), m);
    }
  }

  /** Modular exponentiation, as the bignum library does it. */
  function ModPow(b: int, e: nat, m: nat): (r: nat)
    requires m > 0
    ensures r < m
  {
    Pow(b, e) % m
  }

  lemma ModPowIsCongruent(b: int, e: nat, m: nat)
    requires m > 0
    ensures Congruent(ModPow(b, e, m), Pow(b, e), m)
  {
    CongruentMod(Pow(b, e), m);
  }

  /** Raising twice in either order gives the same: both sides of a Diffie-Hellman exchange. */
  lemma Exchange(g: int, a: nat, b: nat, m: nat)
    requires m > 0
    ensures ModPow(ModPow(g, a, m), b, m) == ModPow(ModPow(g, b, m), a, m)
  {
    hide Congruent;
    ModPowIsCongruent(g, a, m);
    ModPowIsCongruent(g, b, m);
    CongruentPow(ModPow(g, a, m), Pow(g, a), b, m);
    CongruentPow(ModPow(g, b, m), Pow(g, b), a, m);
    CongruentSame(Pow(ModPow(g, a, m), b), Pow(Pow(g, a), b), m);
    CongruentSame(Pow(ModPow(g, b, m), a), Pow(Pow(g, b), a), m);
    PowMul(g, a, b);
    PowMul(g, b, a);
    assert a * b == b * a;
  }

  // ---- big-endian numbers ----

  /** `v` in `n` bytes, most significant first. */
  function ToBig(v: nat, n: nat): (s: bytes)
    ensures |s| == n
    decreases n
  {
    if n == 0 then [] else ToBig(v / 256, n - 1) + [(v % 256) as byte]
  }

  function FromBig(s: bytes): (v: nat)
    decreases |s|
  {
    if s == [] then 0 else 256 * FromBig(s[..|s| - 1]) + s[|s| - 1] as int
  }

  /** The first byte is the most significant one. */
  lemma {:induction false} MostFirst(b: byte, s: bytes)
    ensures FromBig([b] + s) == b as int * Capacity(|s|) + FromBig(s)
    decreases |s|
  {
    var t := [b] + s;
    if s == [] {
      assert FromBig([]) == 0 && t[..0] == [];
    } else {
      var n := |s| - 1;
      MostFirst(b, s[..n]);
      assert t[..|t| - 1] == [b] + s[..n];
      Shifted(b as int, Capacity(n), FromBig(s[..n]));
    }
  }


  lemma Shifted(b: nat, c: nat, v: nat)
    ensures 256 * (b * c + v) == b * (256 * c) + 256 * v
  {
  }

  lemma {:induction false} BigReadsBack(v: nat, n: nat)
    requires v < Capacity(n)
    ensures FromBig(ToBig(v, n)) == v
    decreases n
  {
    if n > 0 {
      BigReadsBack(v / 256, n - 1);
      assert ToBig(v, n)[..n - 1] == ToBig(v / 256, n - 1);
    }
  }

  lemma {:induction false} BigWritesBack(s: bytes)
    ensures ToBig(FromBig(s), |s|) == s
    decreases |s|
  {
    if s != [] {
      BigWritesBack(s[..|s| - 1]);
      assert s == s[..|s| - 1] + [s[|s| - 1]];
    }
  }

  lemma {:induction false} BigBound(s: bytes)
    ensures FromBig(s) < Capacity(|s|)
    decreases |s|
  {
    if s != [] { BigBound(s[..|s| - 1]); }
  }

  /** Leading zeros do not change the value. */
  lemma {:induction false} LeadingZeros(n: nat, s: bytes)
    ensures FromBig(seq(n, _ => 0 as byte) + s) == FromBig(s)
    decreases |s|, n
  {
    var z := seq(n, _ => 0 as byte);
    if s != [] {
      LeadingZeros(n, s[..|s| - 1]);
      assert (z + s)[..n + |s| - 1] == z + s[..|s| - 1];
    } else if n > 0 {
      LeadingZeros(n - 1, []);
      assert (z + s)[..n - 1] == seq(n - 1, _ => 0 as byte) + s;
    }
  }

  /** `crypto_bn_mod_exp`: the residue in as many bytes as the modulus has. */
  function BnExp(base: bytes, exp: bytes, m: bytes): Option<bytes> {
    if FromBig(m) == 0 then None else Some(ToBig(ModPow(FromBig(base), FromBig(exp), FromBig(m)), |m|))
  }

  /** A residue is read back from its fixed-width form. */
  lemma ResidueReadsBack(v: nat, m: bytes)
    requires v < FromBig(m)
    ensures FromBig(ToBig(v, |m|)) == v
  {
    BigBound(m);
    BigReadsBack(v, |m|);
  }

  /** The value of a number does not depend on how far it is padded with zeros on the left. */
  lemma {:induction false} PaddedIsWide(v: nat, n: nat, wide: nat)
    requires v < Capacity(n) && n <= wide
    ensures seq(wide - n, _ => 0 as byte) + ToBig(v, n) == ToBig(v, wide)
  {
    hide ToBig, FromBig;
    var s := seq(wide - n, _ => 0 as byte) + ToBig(v, n);
    LeadingZeros(wide - n, ToBig(v, n));
    BigReadsBack(v, n);
    BigWritesBack(s);
  }

  // ---- shortest form ----

  /** The bytes from the first that is not zero on, or the last one. */
  function Stripped(s: bytes): (r: bytes)
    requires s != []
    ensures 1 <= |r| <= |s| && (|r| == 1 || r[0] != 0)
  {
    if |s| == 1 || s[0] != 0 then s else Stripped(s[1..])
  }

  function ShortBig(v: nat, width: nat): (s: bytes)
    requires width > 0
    ensures 1 <= |s| <= width && (|s| == 1 || s[0] != 0)
  {
    Stripped(ToBig(v, width))
  }

  lemma {:induction false} StrippedValue(s: bytes)
    requires s != []
    ensures FromBig(Stripped(s)) == FromBig(s)
    decreases |s|
  {
    if |s| > 1 && s[0] == 0 {
      StrippedValue(s[1..]);
      LeadingZeros(1, s[1..]);
      assert s == seq(1, _ => 0 as byte) + s[1..];
    }
  }

  /** `uint64_to_be` and `uint32_to_be`: `width` bytes less their leading zeros, at least one byte. */
  method ToShortBig(v: nat, width: nat) returns (s: bytes)
    requires width > 0 && v < Capacity(width)
    ensures s == ShortBig(v, width) && FromBig(s) == v
  {
    hide ToBig, FromBig;
    var tmp := ToBig(v, width);
    assert tmp[0..] == tmp;
    var start := 0;
    while start < width - 1 && tmp[start] == 0
      invariant start <= width - 1 && Stripped(tmp[start..]) == Stripped(tmp)
    {
      assert tmp[start..][1..] == tmp[start + 1..];
      start := start + 1;
    }
    s := tmp[start..];
    StrippedValue(tmp);
    BigReadsBack(v, width);
  }

  /** `be_to_uint64`: the low 64 bits of a number of any length. */
  method Big64(s: bytes) returns (v: uint64)
    ensures v == FromBig(s) % TWO_TO_64
  {
    v := 0;
    for i := 0 to |s|
      invariant v == FromBig(s[..i]) % TWO_TO_64
    {
      assert s[..i + 1][..i] == s[..i];
      ShiftIn(FromBig(s[..i]), s[i] as int);
      v := (v * 256 + s[i] as int) % TWO_TO_64;
    }
    assert s[..|s|] == s;
  }

  lemma ShiftIn(n: nat, b: nat)
    ensures (n % TWO_TO_64 * 256 + b) % TWO_TO_64 == (256 * n + b) % TWO_TO_64
  {
    var q := n / TWO_TO_64;
    assert 256 * n + b == n % TWO_TO_64 * 256 + b + TWO_TO_64 * (256 * q);
    CongruentBy(256 * n + b, n % TWO_TO_64 * 256 + b, TWO_TO_64, 256 * q);
    CongruentSame(256 * n + b, n % TWO_TO_64 * 256 + b, TWO_TO_64);
  }
}
