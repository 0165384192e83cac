/** Two-step verification by SRP (`src/infrastructure/auth_2fa.c`): the client raises to a split
    exponent and must arrive at the secret the server computes from the verifier. The hash and the
    password derivation are any functions with the right output lengths; bignum calls are
    arithmetic on naturals in fixed-width big-endian form. */
module Srp {
  import opened Bytes
  import opened Modular
  import Ige

  const PRIME_LEN := 256

  datatype Hashes = Hashes(sha256: bytes -> bytes, pbkdf2: (bytes, bytes) -> Option<bytes>)

  ghost predicate Sound(h: Hashes) {
    forall s :: |h.sha256(s)| == 32
  }

  datatype Params = Params(salt1: bytes, salt2: bytes, g: int, p: bytes, srpB: bytes)

  predicate WellSized(c: Params) {
    |c.p| == PRIME_LEN && |c.srpB| == PRIME_LEN && -0x8000_0000 <= c.g < 0x8000_0000
  }

  // ---- bytes and numbers ----

  function BnMul(a: bytes, b: bytes, m: bytes): Option<bytes> {
    if FromBig(m) == 0 then None else Some(ToBig(FromBig(a) * FromBig(b) % FromBig(m), |m|))
  }

  function BnSub(a: bytes, b: bytes, m: bytes): Option<bytes> {
    if FromBig(m) == 0 then None else Some(ToBig((FromBig(a) - FromBig(b)) % FromBig(m), |m|))
  }

  /** `pack_g`: four bytes behind 252 zeros. */
  function PackG(g: int): (s: bytes)
    requires -0x8000_0000 <= g < 0x8000_0000
    ensures |s| == PRIME_LEN
  {
    seq(PRIME_LEN - 4, _ => 0 as byte) + ToBig(Unsigned32(g), 4)
  }

  lemma PackGValue(g: int)
    requires -0x8000_0000 <= g < 0x8000_0000
    ensures FromBig(PackG(g)) == Unsigned32(g)
  {
    LeadingZeros(PRIME_LEN - 4, ToBig(Unsigned32(g), 4));
    BigReadsBack(Unsigned32(g), 4);
  }

  // ---- the password ----

  function SaltedHash(h: Hashes, salt: bytes, data: bytes): bytes {
    h.sha256(salt + data + salt)
  }

  /** `compute_x` */
  function PasswordKey(h: Hashes, password: bytes, salt1: bytes, salt2: bytes): Option<bytes> {
    var ph1 := SaltedHash(h, salt2, SaltedHash(h, salt1, password));
    match h.pbkdf2(ph1, salt1) case None => None case Some(s) => Some(SaltedHash(h, salt2, s))
  }

  // ---- the exchange in numbers ----

  /** The numbers of one exchange: modulus, generator, password key, multiplier, server value. */
  datatype Numbers = Numbers(n: nat, g: nat, x: nat, k: nat, srpB: nat)

  function NumbersOf(h: Hashes, c: Params, x: bytes): Numbers
    requires WellSized(c)
  {
    Numbers(FromBig(c.p), FromBig(PackG(c.g)), FromBig(x), FromBig(h.sha256(c.p + PackG(c.g))), FromBig(c.srpB))
  }

  /** `(B - k * g^x) mod p` */
  function Base(e: Numbers): nat
    requires e.n > 0
  {
    (e.srpB - e.k * ModPow(e.g, e.x, e.n) % e.n) % e.n
  }

  /** The client's secret as RFC 5054, section 2.6, writes it: one exponent `a + u * x`. */
  function Secret(e: Numbers, a: nat, u: nat): nat
    requires e.n > 0
  {
    ModPow(Base(e), a + u * e.x, e.n)
  }

  /** The secret as the code computes it: `base^a * (base^x)^u`, every step reduced. */
  function SplitSecret(e: Numbers, a: nat, u: nat): nat
    requires e.n > 0
  {
    ModPow(Base(e), a, e.n) * ModPow(ModPow(Base(e), e.x, e.n), u, e.n) % e.n
  }

  /** The server's secret, from the client's public value and the verifier `g^x`. */
  function ServerSecret(e: Numbers, A: nat, b: nat, u: nat): nat
    requires e.n > 0
  {
    ModPow(A * Pow(ModPow(e.g, e.x, e.n), u), b, e.n)
  }

  /** Splitting the exponent does not change the secret. */
  lemma SplitIsSecret(e: Numbers, a: nat, u: nat)
    requires e.n > 0
    ensures SplitSecret(e, a, u) == Secret(e, a, u)
  {
    hide Congruent;
    var base, n := Base(e), e.n;
    ModPowIsCongruent(base, a, n);
    ModPowIsCongruent(base, e.x, n);
    CongruentPow(ModPow(base, e.x, n), Pow(base, e.x), u, n);
    PowMul(base, e.x, u);
    ModPowIsCongruent(ModPow(base, e.x, n), u, n);
    CongruentTrans(ModPow(ModPow(base, e.x, n), u, n), Pow(ModPow(base, e.x, n), u), Pow(base, e.x * u), n);
    CongruentMul(ModPow(base, a, n), Pow(base, a), ModPow(ModPow(base, e.x, n), u, n), Pow(base, e.x * u), n);
    PowAdd(base, a, e.x * u);
    assert e.x * u == u * e.x;
    CongruentSame(ModPow(base, a, n) * ModPow(ModPow(base, e.x, n), u, n), Pow(base, a + u * e.x), n);
  }

  /** The server value is `k * g^x + g^b`, as an honest server forms it. */
  ghost predicate Honest(e: Numbers, b: nat)
    requires e.n > 0
  {
    Congruent(e.srpB, e.k * Pow(e.g, e.x) + Pow(e.g, b), e.n)
  }

  lemma BaseIsServerPower(e: Numbers, b: nat)
    requires e.n > 0 && Honest(e, b)
    ensures Congruent(Base(e), Pow(e.g, b), e.n)
  {
    hide Congruent;
    var n, v := e.n, ModPow(e.g, e.x, e.n);
    var kv := e.k * v % n;
    ModPowIsCongruent(e.g, e.x, n);
    CongruentBy(e.k, e.k, n, 0);
    CongruentMul(e.k, e.k, v, Pow(e.g, e.x), n);
    CongruentMod(e.k * v, n);
    CongruentTrans(kv, e.k * v, e.k * Pow(e.g, e.x), n);
    CongruentSub(e.srpB, e.k * Pow(e.g, e.x) + Pow(e.g, b), kv, e.k * Pow(e.g, e.x), n);
    CongruentMod(e.srpB - kv, n);
    CongruentTrans(Base(e), e.srpB - kv, Pow(e.g, b), n);
  }

  /** With an honest server value both sides compute the same secret. */
  lemma SecretsAgree(e: Numbers, a: nat, b: nat, u: nat)
    requires e.n > 0 && Honest(e, b)
    ensures Secret(e, a, u) == ServerSecret(e, ModPow(e.g, a, e.n), b, u)
  {
    hide Congruent, Base;
    var n, g, x := e.n, e.g, e.x;
    var v, A := ModPow(g, x, n), ModPow(g, a, n);
    BaseIsServerPower(e, b);
    CongruentPow(Base(e), Pow(g, b), a + u * x, n);
    CongruentSame(Pow(Base(e), a + u * x), Pow(Pow(g, b), a + u * x), n);
    ServerPower(g, x, a, u, n);
    CongruentPow(A * Pow(v, u), Pow(g, a + u * x), b, n);
    CongruentSame(Pow(A * Pow(v, u), b), Pow(Pow(g, a + u * x), b), n);
    PowMul(g, b, a + u * x);
    PowMul(g, a + u * x, b);
    assert b * (a + u * x) == (a + u * x) * b;
  }

  lemma ServerPower(g: nat, x: nat, a: nat, u: nat, n: nat)
    requires n > 0
    ensures Congruent(ModPow(g, a, n) * Pow(ModPow(g, x, n), u), Pow(g, a + u * x), n)
  {
    hide Congruent;
    ModPowIsCongruent(g, a, n);
    ModPowIsCongruent(g, x, n);
    CongruentPow(ModPow(g, x, n), Pow(g, x), u, n);
    CongruentMul(ModPow(g, a, n), Pow(g, a), Pow(ModPow(g, x, n), u), Pow(Pow(g, x), u), n);
    PowMul(g, x, u);
    PowAdd(g, a, x * u);
    assert x * u == u * x;
  }

  // ---- the proof message ----

  /** `M1`, from the secret in fixed width: H(H(p) xor H(g) | H(salt1) | H(salt2) | A | B | H(S)). */
  function Proof(h: Hashes, c: Params, A: bytes, s: bytes): bytes
    requires Sound(h) && WellSized(c)
  {
    h.sha256(Ige.Xor(h.sha256(c.p), h.sha256(PackG(c.g))) + h.sha256(c.salt1) + h.sha256(c.salt2) + A + c.srpB
             + h.sha256(s))
  }

  /** The password key is three nested hashes with the salts on both sides around PBKDF2. */
  lemma PasswordKeyIs(h: Hashes, password: bytes, salt1: bytes, salt2: bytes, inner: bytes, outer: bytes, long: bytes)
    requires inner == h.sha256(salt1 + password + salt1) && outer == h.sha256(salt2 + inner + salt2)
    requires h.pbkdf2(outer, salt1) == Some(long)
    ensures PasswordKey(h, password, salt1, salt2) == Some(h.sha256(salt2 + long + salt2))
  {
  }

  /** The proof is the hash of these bytes: H(p) and H(g) mixed bit by bit, the hashes of the salts, both
      public values and the hash of the secret. */
  lemma ProofIs(h: Hashes, c: Params, A: bytes, s: bytes, m: bytes)
    requires Sound(h) && WellSized(c) && |A| == 256 && |m| == 640
    requires m[32..64] == h.sha256(c.salt1) && m[64..96] == h.sha256(c.salt2) && m[96..352] == A
    requires m[352..608] == c.srpB && m[608..] == h.sha256(s)
    requires forall i :: 0 <= i < 32 ==> m[i] == Ige.XorByte(h.sha256(c.p)[i], h.sha256(PackG(c.g))[i])
    ensures Proof(h, c, A, s) == h.sha256(m)
  {
    hide Ige.XorByte, PackG;
    var x := Ige.Xor(h.sha256(c.p), h.sha256(PackG(c.g)));
    assert m[..32] == x;
    assert m == x + h.sha256(c.salt1) + h.sha256(c.salt2) + A + c.srpB + h.sha256(s);
  }

  /** The multiplier is the hash of modulus and generator, both in 256 bytes; the scrambling exponent that
      of the two public values. */
  lemma NumbersAre(h: Hashes, c: Params, x: bytes, A: bytes, pg: bytes)
    requires WellSized(c) && |pg| == 512 && pg[..256] == c.p && FromBig(pg[256..]) == Unsigned32(c.g)
    ensures NumbersOf(h, c, x) == Numbers(FromBig(c.p), Unsigned32(c.g), FromBig(x), FromBig(h.sha256(pg)),
                                          FromBig(c.srpB))
    ensures Scramble(h, c, A) == FromBig(h.sha256(A + c.srpB))
  {
    hide FromBig, ToBig;
    PackGValue(c.g);
    BigWritesBack(pg[256..]);
    BigWritesBack(PackG(c.g));
    assert pg == c.p + PackG(c.g);
  }

  function Scramble(h: Hashes, c: Params, A: bytes): nat {
    FromBig(h.sha256(A + c.srpB))
  }

  /** `srp_compute`: it succeeds exactly when the modulus is not zero and the password key can be
      derived, and then proves knowledge of the secret with the whole exponent `a + u * x`. */
  method Compute(h: Hashes, c: Params, password: bytes, a: bytes) returns (ok: bool, A: bytes, m1: bytes)
    requires Sound(h) && WellSized(c)
    ensures ok <==> FromBig(c.p) > 0 && PasswordKey(h, password, c.salt1, c.salt2).Some?
    ensures ok ==>
              var e := NumbersOf(h, c, PasswordKey(h, password, c.salt1, c.salt2).value);
              && A == ToBig(ModPow(e.g, FromBig(a), e.n), PRIME_LEN)
              && m1 == Proof(h, c, A, ToBig(Secret(e, FromBig(a), Scramble(h, c, A)), PRIME_LEN))
  {
    hide ToBig, FromBig, ModPow, PackG, PasswordKey, Base, SplitSecret, Secret;
    A, m1 := [], [];
    var gBytes := PackG(c.g);
    var big := BnExp(gBytes, a, c.p);
    if big.None? { return false, [], []; }
    A := big.value;
    var x := PasswordKey(h, password, c.salt1, c.salt2);
    if x.None? { return false, [], []; }
    var v := BnExp(gBytes, x.value, c.p);
    var k, u := h.sha256(c.p + gBytes), h.sha256(A + c.srpB);
    var kv := BnMul(k, v.value, c.p);
    var base := BnSub(c.srpB, kv.value, c.p);
    var baseA := BnExp(base.value, a, c.p);
    var baseX := BnExp(base.value, x.value, c.p);
    var baseXu := BnExp(baseX.value, u, c.p);
    var s := BnMul(baseA.value, baseXu.value, c.p);
    SplitOnBytes(h, c, x.value, a, u);
    m1 := h.sha256(Ige.Xor(h.sha256(c.p), h.sha256(gBytes)) + h.sha256(c.salt1) + h.sha256(c.salt2) + A + c.srpB
                   + h.sha256(s.value));
    ok := true;
  }

  /** The chain of bignum calls on bytes computes the secret. */
  lemma SplitOnBytes(h: Hashes, c: Params, x: bytes, a: bytes, u: bytes)
    requires Sound(h) && WellSized(c) && FromBig(c.p) > 0
    ensures var g := PackG(c.g);
            var kv := BnMul(h.sha256(c.p + g), BnExp(g, x, c.p).value, c.p).value;
            var base := BnSub(c.srpB, kv, c.p).value;
            var s := BnMul(BnExp(base, a, c.p).value, BnExp(BnExp(base, x, c.p).value, u, c.p).value, c.p);
            s == Some(ToBig(Secret(NumbersOf(h, c, x), FromBig(a), FromBig(u)), PRIME_LEN))
  {
    hide ToBig, FromBig, ModPow, PackG, Secret;
    var e, g, n := NumbersOf(h, c, x), PackG(c.g), FromBig(c.p);
    var v := ModPow(e.g, e.x, n);
    ResidueReadsBack(v, c.p);
    ResidueReadsBack(e.k * v % n, c.p);
    ResidueReadsBack(Base(e), c.p);
    var ba, bx := ModPow(Base(e), FromBig(a), n), ModPow(Base(e), e.x, n);
    ResidueReadsBack(ba, c.p);
    ResidueReadsBack(bx, c.p);
    ResidueReadsBack(ModPow(bx, FromBig(u), n), c.p);
    SplitIsSecret(e, FromBig(a), FromBig(u));
  }

  /** Both sides prove the same: the client's message equals the one the server computes from the
      verifier and its own exponent `b`, for every modulus, generator, password and exponents. */
  lemma ProofsAgree(h: Hashes, c: Params, x: bytes, a: bytes, b: nat)
    requires Sound(h) && WellSized(c) && FromBig(c.p) > 0 && Honest(NumbersOf(h, c, x), b)
    ensures var e := NumbersOf(h, c, x);
            var A := ToBig(ModPow(e.g, FromBig(a), e.n), PRIME_LEN);
            var u := Scramble(h, c, A);
            Proof(h, c, A, ToBig(Secret(e, FromBig(a), u), PRIME_LEN)) ==
                Proof(h, c, A, ToBig(ServerSecret(e, FromBig(A), b, u), PRIME_LEN))
  {
    hide ToBig, FromBig, ModPow, PackG, Secret, ServerSecret, Honest, Proof;
    var e := NumbersOf(h, c, x);
    ResidueReadsBack(ModPow(e.g, FromBig(a), e.n), c.p);
    SecretsAgree(e, FromBig(a), b, Scramble(h, c, ToBig(ModPow(e.g, FromBig(a), e.n), PRIME_LEN)));
  }
}
