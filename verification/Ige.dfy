/** AES in infinite garble extension mode (`src/core/ige_aes.c`), over any block cipher that is a
    bijection on 16-byte blocks. */
module Ige {
  import opened Buffers
  import opened Bytes

  const BLOCK := 16

  /** The block cipher under one key. */
  datatype Cipher = Cipher(encrypt: bytes -> bytes, decrypt: bytes -> bytes)

  ghost predicate Bijective(c: Cipher) {
    forall b: bytes | |b| == BLOCK ::
      && |c.encrypt(b)| == BLOCK && c.decrypt(c.encrypt(b)) == b
      && |c.decrypt(b)| == BLOCK && c.encrypt(c.decrypt(b)) == b
  }

  function EncryptBlock(c: Cipher, b: bytes): (r: bytes)
    requires Bijective(c) && |b| == BLOCK
    ensures |r| == BLOCK && c.decrypt(r) == b
  {
    c.encrypt(b)
  }

  function DecryptBlock(c: Cipher, b: bytes): (r: bytes)
    requires Bijective(c) && |b| == BLOCK
    ensures |r| == BLOCK && c.encrypt(r) == b
  {
    c.decrypt(b)
  }

  /** Exclusive or of the `k` low bits, bit by bit. */
  function XorBits(a: nat, b: nat, k: nat): (r: nat)
    ensures r < TwoTo(k)
    decreases k
  {
    if k == 0 then 0 else (a + b) % 2 + 2 * XorBits(a / 2, b / 2, k - 1)
  }

  lemma {:induction false} XorBitsTwice(a: nat, b: nat, k: nat)
    requires a < TwoTo(k)
    ensures XorBits(XorBits(a, b, k), b, k) == a
    decreases k
  {
    if k > 0 {
      var high := XorBits(a / 2, b / 2, k - 1);
      LowBit(a, b, high);
      XorBitsTwice(a / 2, b / 2, k - 1);
    }
  }

  lemma LowBit(a: nat, b: nat, high: nat)
    ensures var r := (a + b) % 2 + 2 * high; r / 2 == high && (r + b) % 2 == a % 2
  {
  }

  function XorByte(a: byte, b: byte): byte {
    assert TwoTo(8) == 256;
    XorBits(a as int, b as int, 8) as byte
  }

  lemma XorByteTwice(a: byte, b: byte)
    ensures XorByte(XorByte(a, b), b) == a
  {
    hide XorBits;
    XorBitsTwice(a as int, b as int, 8);
  }

  function Xor(a: bytes, b: bytes): (c: bytes)
    requires |a| == |b|
    ensures |c| == |a|
  {
    seq(|a|, i requires 0 <= i < |a| => XorByte(a[i], b[i]))
  }

  /** Exclusive or, bit by bit. */
  lemma {:induction false} XorBitsBit(a: nat, b: nat, k: nat, n: nat)
    requires k < n
    ensures Bit(XorBits(a, b, n), k) <==> Bit(a, k) != Bit(b, k)
    decreases k
  {
    var high := XorBits(a / 2, b / 2, n - 1);
    LowBit(a, b, high);
    if k > 0 { XorBitsBit(a / 2, b / 2, k - 1, n - 1); }
  }

  lemma XorBit(a: bytes, b: bytes, i: nat, k: nat)
    requires |a| == |b| && i < |a| && k < 8
    ensures Bit(Xor(a, b)[i] as int, k) <==> Bit(a[i] as int, k) != Bit(b[i] as int, k)
  {
    hide XorBits, Bit;
    XorBitsBit(a[i] as int, b[i] as int, k, 8);
  }

  lemma XorTwice(a: bytes, b: bytes)
    requires |a| == |b|
    ensures Xor(Xor(a, b), b) == a
  {
    forall i | 0 <= i < |a| ensures Xor(Xor(a, b), b)[i] == a[i] { XorByteTwice(a[i], b[i]); }
  }

  // ---- the mode on whole blocks ----

  /** Each block is masked with the previous ciphertext going in and the previous plaintext
      coming out. */
  function Encrypted(c: Cipher, prevC: bytes, prevP: bytes, plain: bytes): (r: bytes)
    requires |prevC| == |prevP| == BLOCK && |plain| % BLOCK == 0 && Bijective(c)
    ensures |r| == |plain|
    decreases |plain|
  {
    if plain == [] then []
    else
      var x := plain[..BLOCK];
      var y := Xor(EncryptBlock(c, Xor(x, prevC)), prevP);
      y + Encrypted(c, y, x, plain[BLOCK..])
  }

  function Decrypted(c: Cipher, prevC: bytes, prevP: bytes, cipher: bytes): (r: bytes)
    requires |prevC| == |prevP| == BLOCK && |cipher| % BLOCK == 0 && Bijective(c)
    ensures |r| == |cipher|
    decreases |cipher|
  {
    if cipher == [] then []
    else
      var y := cipher[..BLOCK];
      var x := Xor(DecryptBlock(c, Xor(y, prevP)), prevC);
      x + Decrypted(c, y, x, cipher[BLOCK..])
  }

  lemma {:induction false} DecryptEncrypt(c: Cipher, prevC: bytes, prevP: bytes, plain: bytes)
    requires |prevC| == |prevP| == BLOCK && |plain| % BLOCK == 0 && Bijective(c)
    ensures Decrypted(c, prevC, prevP, Encrypted(c, prevC, prevP, plain)) == plain
    decreases |plain|
  {
    hide Xor, Bijective;
    if plain != [] {
      var x := plain[..BLOCK];
      var m := Xor(x, prevC);
      var y := Xor(EncryptBlock(c, m), prevP);
      var rest := Encrypted(c, y, x, plain[BLOCK..]);
      XorTwice(EncryptBlock(c, m), prevP);
      XorTwice(x, prevC);
      assert (y + rest)[..BLOCK] == y && (y + rest)[BLOCK..] == rest;
      DecryptEncrypt(c, y, x, plain[BLOCK..]);
      assert plain == x + plain[BLOCK..];
    }
  }

  lemma {:induction false} EncryptDecrypt(c: Cipher, prevC: bytes, prevP: bytes, cipher: bytes)
    requires |prevC| == |prevP| == BLOCK && |cipher| % BLOCK == 0 && Bijective(c)
    ensures Encrypted(c, prevC, prevP, Decrypted(c, prevC, prevP, cipher)) == cipher
    decreases |cipher|
  {
    hide Xor, Bijective;
    if cipher != [] {
      var y := cipher[..BLOCK];
      var m := Xor(y, prevP);
      var x := Xor(DecryptBlock(c, m), prevC);
      var rest := Decrypted(c, y, x, cipher[BLOCK..]);
      XorTwice(DecryptBlock(c, m), prevC);
      XorTwice(y, prevP);
      assert (x + rest)[..BLOCK] == x && (x + rest)[BLOCK..] == rest;
      EncryptDecrypt(c, y, x, cipher[BLOCK..]);
      assert cipher == y + cipher[BLOCK..];
    }
  }

  /** For every key, IV and number of blocks the two directions are inverse to each other. */
  lemma IgeIsBijection(c: Cipher, iv: bytes, s: bytes)
    requires |iv| == 2 * BLOCK && |s| % BLOCK == 0 && Bijective(c)
    ensures Decrypted(c, iv[..BLOCK], iv[BLOCK..], Encrypted(c, iv[..BLOCK], iv[BLOCK..], s)) == s
    ensures Encrypted(c, iv[..BLOCK], iv[BLOCK..], Decrypted(c, iv[..BLOCK], iv[BLOCK..], s)) == s
  {
    DecryptEncrypt(c, iv[..BLOCK], iv[BLOCK..], s);
    EncryptDecrypt(c, iv[..BLOCK], iv[BLOCK..], s);
  }

  /** Block `i`, counted from the start, or what stands in for the block before the first. */
  function BlockOr(s: bytes, i: int, first: bytes): (b: bytes)
    requires -1 <= i && (i + 1) * BLOCK <= |s| && |first| == BLOCK
    ensures |b| == BLOCK
  {
    if i < 0 then first else s[i * BLOCK..(i + 1) * BLOCK]
  }

  /** The mode as it is usually written: block i of the ciphertext is E(p[i] ^ c[i - 1]) ^ p[i - 1], the
      IV being c[-1] and p[-1]. */
  lemma {:induction false} BlockFormula(c: Cipher, c0: bytes, p0: bytes, s: bytes, i: nat)
    requires |c0| == |p0| == BLOCK && |s| % BLOCK == 0 && Bijective(c) && (i + 1) * BLOCK <= |s|
    ensures var r := Encrypted(c, c0, p0, s);
            BlockOr(r, i, c0) ==
            Xor(EncryptBlock(c, Xor(BlockOr(s, i, p0), BlockOr(r, i - 1, c0))), BlockOr(s, i - 1, p0))
    decreases i
  {
    hide Xor, Bijective;
    var x := s[..BLOCK];
    var y := Xor(EncryptBlock(c, Xor(x, c0)), p0);
    var rest := s[BLOCK..];
    var r := Encrypted(c, c0, p0, s);
    var t := Encrypted(c, y, x, rest);
    assert r == y + t;
    if i == 0 {
      assert r[0..BLOCK] == y && s[0..BLOCK] == x;
    } else {
      BlockFormula(c, y, x, rest, i - 1);
      BlockAfter(r, y, t, i, c0);
      BlockAfter(s, x, rest, i, p0);
      BlockAfter(r, y, t, i - 1, c0);
      BlockAfter(s, x, rest, i - 1, p0);
    }
  }

  lemma BlockAfter(s: bytes, x: bytes, rest: bytes, i: nat, first: bytes)
    requires |x| == |first| == BLOCK && s == x + rest && (i + 1) * BLOCK <= |s|
    ensures BlockOr(s, i, first) == BlockOr(rest, i - 1, x)
  {
  }


  // ---- input and output in one buffer ----

  /** What the loop computes when it overwrites its input: the block just written masks the next one
      both going in and coming out. */
  function EncryptedInPlace(c: Cipher, prevC: bytes, prevP: bytes, plain: bytes): (r: bytes)
    requires |prevC| == |prevP| == BLOCK && |plain| % BLOCK == 0 && Bijective(c)
    ensures |r| == |plain|
    decreases |plain|
  {
    if plain == [] then []
    else
      var y := Xor(EncryptBlock(c, Xor(plain[..BLOCK], prevC)), prevP);
      y + EncryptedInPlace(c, y, y, plain[BLOCK..])
  }

  function DecryptedInPlace(c: Cipher, prevC: bytes, prevP: bytes, cipher: bytes): (r: bytes)
    requires |prevC| == |prevP| == BLOCK && |cipher| % BLOCK == 0 && Bijective(c)
    ensures |r| == |cipher|
    decreases |cipher|
  {
    if cipher == [] then []
    else
      var x := Xor(DecryptBlock(c, Xor(cipher[..BLOCK], prevP)), prevC);
      x + DecryptedInPlace(c, x, x, cipher[BLOCK..])
  }

  /** All blocks but the last are the same on both sides. */
  predicate FixedButLast(a: bytes, b: bytes)
    requires |a| == |b|
  {
    |a| <= BLOCK || a[..|a| - BLOCK] == b[..|a| - BLOCK]
  }

  lemma XorInjective(a: bytes, m: bytes, n: bytes)
    requires |a| == |m| == |n|
    ensures Xor(a, m) == Xor(a, n) <==> m == n
  {
    if Xor(a, m) == Xor(a, n) {
      XorCommutes(a, m);
      XorCommutes(a, n);
      XorTwice(m, a);
      XorTwice(n, a);
    }
  }

  lemma {:induction false} XorBitsCommute(a: nat, b: nat, k: nat)
    ensures XorBits(a, b, k) == XorBits(b, a, k)
    decreases k
  {
    if k > 0 { XorBitsCommute(a / 2, b / 2, k - 1); }
  }

  lemma XorCommutes(a: bytes, b: bytes)
    requires |a| == |b|
    ensures Xor(a, b) == Xor(b, a)
  {
    forall i | 0 <= i < |a| ensures XorByte(a[i], b[i]) == XorByte(b[i], a[i]) {
      XorBitsCommute(a[i] as int, b[i] as int, 8);
    }
  }

  /** Encrypting in place is IGE exactly when IGE leaves every block but the last as it was; for one
      block, always. */
  lemma {:induction false} InPlaceEncrypts(c: Cipher, prevC: bytes, prevP: bytes, s: bytes)
    requires |prevC| == |prevP| == BLOCK && |s| % BLOCK == 0 && Bijective(c)
    ensures EncryptedInPlace(c, prevC, prevP, s) == Encrypted(c, prevC, prevP, s)
            <==> FixedButLast(s, Encrypted(c, prevC, prevP, s))
    decreases |s|
  {
    hide Xor, Bijective;
    if |s| > BLOCK {
      var x, rest := s[..BLOCK], s[BLOCK..];
      var y := Xor(EncryptBlock(c, Xor(x, prevC)), prevP);
      var ige, own := Encrypted(c, y, x, rest), EncryptedInPlace(c, y, y, rest);
      SplitFixed(x, rest, y, ige);
      assert s == x + rest;
      SameTail(y, own, ige);
      if x == y {
        InPlaceEncrypts(c, y, y, rest);
      } else {
        XorInjective(EncryptBlock(c, Xor(rest[..BLOCK], y)), y, x);
        assert own[..BLOCK] != ige[..BLOCK];
      }
    }
  }

  lemma {:induction false} InPlaceDecrypts(c: Cipher, prevC: bytes, prevP: bytes, s: bytes)
    requires |prevC| == |prevP| == BLOCK && |s| % BLOCK == 0 && Bijective(c)
    ensures DecryptedInPlace(c, prevC, prevP, s) == Decrypted(c, prevC, prevP, s)
            <==> FixedButLast(s, Decrypted(c, prevC, prevP, s))
    decreases |s|
  {
    hide Xor, Bijective;
    if |s| > BLOCK {
      var y, rest := s[..BLOCK], s[BLOCK..];
      var x := Xor(DecryptBlock(c, Xor(y, prevP)), prevC);
      var ige, own := Decrypted(c, y, x, rest), DecryptedInPlace(c, x, x, rest);
      SplitFixed(y, rest, x, ige);
      assert s == y + rest;
      SameTail(x, own, ige);
      if x == y {
        InPlaceDecrypts(c, x, x, rest);
      } else {
        XorInjective(DecryptBlock(c, Xor(rest[..BLOCK], x)), x, y);
        assert own[..BLOCK] != ige[..BLOCK];
      }
    }
  }

  lemma SplitFixed(a: bytes, restA: bytes, b: bytes, restB: bytes)
    requires |a| == |b| == BLOCK && |restA| == |restB| && |restA| % BLOCK == 0 && restA != []
    ensures FixedButLast(a + restA, b + restB) <==> a == b && FixedButLast(restA, restB)
  {
    var n := |restA| - BLOCK;
    assert (a + restA)[..BLOCK + n] == a + restA[..n] && (b + restB)[..BLOCK + n] == b + restB[..n];
    assert a + restA[..n] == b + restB[..n] ==> a == (a + restA[..n])[..BLOCK] && b == (b + restB[..n])[..BLOCK];
    assert restA[..n] == (a + restA[..n])[BLOCK..] && restB[..n] == (b + restB[..n])[BLOCK..];
  }

  lemma SameTail(a: bytes, s: bytes, t: bytes)
    ensures a + s == a + t <==> s == t
  {
    assert (a + s)[|a|..] == s && (a + t)[|a|..] == t;
  }

  // ---- what a caller can rely on ----

  /** A block cipher as weak as can be: exclusive or with one block. */
  function Masking(mask: bytes): Cipher {
    Cipher(b => Masked(b, mask), b => Masked(b, mask))
  }

  function Masked(b: bytes, mask: bytes): bytes {
    if |b| == |mask| then Xor(b, mask) else b
  }

  lemma MaskingIsBijective(mask: bytes)
    requires |mask| == BLOCK
    ensures Bijective(Masking(mask))
  {
    hide Xor;
    forall b: bytes | |b| == BLOCK ensures Masked(Masked(b, mask), mask) == b { XorTwice(b, mask); }
  }

  function Filled(x: byte): bytes { seq(BLOCK, _ => x) }

  /** Two maskings that differ on every block. */
  lemma MasksDiffer(b: bytes)
    requires |b| == BLOCK
    ensures Xor(b, Filled(1)) != Xor(b, Filled(0))
  {
    hide Xor;
    assert Filled(1)[0] == 1 && Filled(0)[0] == 0;
    XorInjective(b, Filled(1), Filled(0));
  }

  /** With at least two blocks, one of the two maskings changes the first. */
  lemma FirstBlockMoves(x: bytes, a: bytes, b: bytes)
    requires |x| == |a| == |b| == BLOCK
    ensures Xor(Xor(Xor(x, a), Filled(1)), b) != x || Xor(Xor(Xor(x, a), Filled(0)), b) != x
  {
    hide Xor;
    var y := Xor(x, a);
    MasksDiffer(y);
    XorTwice(Xor(y, Filled(1)), b);
    XorTwice(Xor(y, Filled(0)), b);
  }

  lemma FixedHead(a: bytes, b: bytes)
    requires |a| == |b| && |a| > BLOCK && |a| % BLOCK == 0 && FixedButLast(a, b)
    ensures a[..BLOCK] == b[..BLOCK]
  {
    assert a[..BLOCK] == a[..|a| - BLOCK][..BLOCK] && b[..BLOCK] == b[..|a| - BLOCK][..BLOCK];
  }

  ghost predicate EncryptsInPlace(c: Cipher, prevC: bytes, prevP: bytes, s: bytes)
    requires |prevC| == |prevP| == BLOCK && |s| % BLOCK == 0 && Bijective(c)
  {
    EncryptedInPlace(c, prevC, prevP, s) == Encrypted(c, prevC, prevP, s)
  }

  ghost predicate DecryptsInPlace(c: Cipher, prevC: bytes, prevP: bytes, s: bytes)
    requires |prevC| == |prevP| == BLOCK && |s| % BLOCK == 0 && Bijective(c)
  {
    DecryptedInPlace(c, prevC, prevP, s) == Decrypted(c, prevC, prevP, s)
  }

  /** The cipher is not known, so the length is all a caller can go by: encrypting in place is IGE for
      every cipher if and only if there is at most one block, and so is decrypting. */
  lemma InPlaceNeedsOneBlock(prevC: bytes, prevP: bytes, s: bytes)
    requires |prevC| == |prevP| == BLOCK && |s| % BLOCK == 0
    ensures (forall c: Cipher | Bijective(c) :: EncryptsInPlace(c, prevC, prevP, s)) <==> |s| <= BLOCK
    ensures (forall c: Cipher | Bijective(c) :: DecryptsInPlace(c, prevC, prevP, s)) <==> |s| <= BLOCK
  {
    hide Bijective, EncryptsInPlace, DecryptsInPlace;
    if |s| <= BLOCK {
      forall c: Cipher | Bijective(c)
        ensures EncryptsInPlace(c, prevC, prevP, s) && DecryptsInPlace(c, prevC, prevP, s)
      {
        OneBlock(c, prevC, prevP, s);
      }
    } else {
      var c := SpoiledEncryption(prevC, prevP, s);
      var d := SpoiledDecryption(prevC, prevP, s);
    }
  }

  lemma SpoiledEncryption(prevC: bytes, prevP: bytes, s: bytes) returns (c: Cipher)
    requires |prevC| == |prevP| == BLOCK && |s| % BLOCK == 0 && |s| > BLOCK
    ensures Bijective(c) && !EncryptsInPlace(c, prevC, prevP, s)
  {
    hide Bijective, Xor, Masking, EncryptsInPlace;
    var x := s[..BLOCK];
    FirstBlockMoves(x, prevC, prevP);
    var mask := if Xor(Xor(Xor(x, prevC), Filled(1)), prevP) != x then Filled(1) else Filled(0);
    MaskingIsBijective(mask);
    c := Masking(mask);
    EncryptingFixes(c, prevC, prevP, s);
    MaskedHeads(mask, prevC, prevP, s);
  }

  lemma SpoiledDecryption(prevC: bytes, prevP: bytes, s: bytes) returns (c: Cipher)
    requires |prevC| == |prevP| == BLOCK && |s| % BLOCK == 0 && |s| > BLOCK
    ensures Bijective(c) && !DecryptsInPlace(c, prevC, prevP, s)
  {
    hide Bijective, Xor, Masking, DecryptsInPlace;
    var y := s[..BLOCK];
    FirstBlockMoves(y, prevP, prevC);
    var mask := if Xor(Xor(Xor(y, prevP), Filled(1)), prevC) != y then Filled(1) else Filled(0);
    MaskingIsBijective(mask);
    c := Masking(mask);
    DecryptingFixes(c, prevC, prevP, s);
    MaskedHeads(mask, prevC, prevP, s);
  }

  /** Where in-place output is IGE, the first of several blocks comes out as it went in. */
  lemma EncryptingFixes(c: Cipher, prevC: bytes, prevP: bytes, s: bytes)
    requires |prevC| == |prevP| == BLOCK && |s| % BLOCK == 0 && |s| > BLOCK && Bijective(c)
    ensures EncryptsInPlace(c, prevC, prevP, s) ==> Encrypted(c, prevC, prevP, s)[..BLOCK] == s[..BLOCK]
  {
    hide Bijective, FixedButLast, Encrypted, EncryptedInPlace;
    InPlaceEncrypts(c, prevC, prevP, s);
    if EncryptsInPlace(c, prevC, prevP, s) { FixedHead(s, Encrypted(c, prevC, prevP, s)); }
  }

  lemma DecryptingFixes(c: Cipher, prevC: bytes, prevP: bytes, s: bytes)
    requires |prevC| == |prevP| == BLOCK && |s| % BLOCK == 0 && |s| > BLOCK && Bijective(c)
    ensures DecryptsInPlace(c, prevC, prevP, s) ==> Decrypted(c, prevC, prevP, s)[..BLOCK] == s[..BLOCK]
  {
    hide Bijective, FixedButLast, Decrypted, DecryptedInPlace;
    InPlaceDecrypts(c, prevC, prevP, s);
    if DecryptsInPlace(c, prevC, prevP, s) { FixedHead(s, Decrypted(c, prevC, prevP, s)); }
  }

  lemma OneBlock(c: Cipher, prevC: bytes, prevP: bytes, s: bytes)
    requires |prevC| == |prevP| == BLOCK && |s| % BLOCK == 0 && |s| <= BLOCK && Bijective(c)
    ensures EncryptsInPlace(c, prevC, prevP, s) && DecryptsInPlace(c, prevC, prevP, s)
  {
    hide Bijective, Encrypted, EncryptedInPlace, Decrypted, DecryptedInPlace;
    InPlaceEncrypts(c, prevC, prevP, s);
    InPlaceDecrypts(c, prevC, prevP, s);
  }

  /** The first block under a masking. */
  lemma MaskedHeads(mask: bytes, prevC: bytes, prevP: bytes, s: bytes)
    requires |prevC| == |prevP| == |mask| == BLOCK && |s| % BLOCK == 0 && |s| > BLOCK && Bijective(Masking(mask))
    ensures Encrypted(Masking(mask), prevC, prevP, s)[..BLOCK] == Xor(Xor(Xor(s[..BLOCK], prevC), mask), prevP)
    ensures Decrypted(Masking(mask), prevC, prevP, s)[..BLOCK] == Xor(Xor(Xor(s[..BLOCK], prevP), mask), prevC)
  {
    hide Bijective, Xor;
  }

  // ---- the loops ----

  /** `for (j = 0; j < 16; j++) dst[at + j] = src[from + j] ^ mask[j];`, possibly in place. */
  method XorBlock(src: array<byte>, from: nat, mask: bytes, dst: array<byte>, at: nat)
    requires |mask| == BLOCK && from + BLOCK <= src.Length && at + BLOCK <= dst.Length && (src == dst ==> from == at)
    modifies dst
    ensures dst[at..at + BLOCK] == Xor(old(src[from..from + BLOCK]), mask)
    ensures dst[..at] == old(dst[..at]) && dst[at + BLOCK..] == old(dst[at + BLOCK..])
  {
    hide XorByte;
    ghost var was := src[from..from + BLOCK];
    for j := 0 to BLOCK
      invariant forall i :: 0 <= i < j ==> dst[at + i] == XorByte(was[i], mask[i])
      invariant forall i :: j <= i < BLOCK ==> src[from + i] == was[i]
      invariant dst[..at] == old(dst[..at]) && dst[at + BLOCK..] == old(dst[at + BLOCK..])
    {
      dst[at + j] := XorByte(src[from + j], mask[j]);
    }
  }

  method EncryptAt(plain: array<byte>, off: nat, c: Cipher, ivC: bytes, ivP: bytes, buf: array<byte>,
                   cipher: array<byte>)
    requires off + BLOCK <= plain.Length && off + BLOCK <= cipher.Length && |ivC| == |ivP| == BLOCK == buf.Length
    requires plain != buf && cipher != buf && Bijective(c)
    modifies buf, cipher
    ensures cipher[off..off + BLOCK] == Xor(EncryptBlock(c, Xor(old(plain[off..off + BLOCK]), ivC)), ivP)
    ensures cipher[..off] == old(cipher[..off]) && cipher[off + BLOCK..] == old(cipher[off + BLOCK..])
  {
    hide Xor, Bijective;
    XorBlock(plain, off, ivC, buf, 0);
    assert buf[..] == buf[0..BLOCK];
    Copy(EncryptBlock(c, buf[..]), cipher, off);
    XorBlock(cipher, off, ivP, cipher, off);
  }

  /** The output of the encryption loop, into another buffer or into its input. */
  function EncryptedTo(same: bool, c: Cipher, prevC: bytes, prevP: bytes, plain: bytes): (r: bytes)
    requires |prevC| == |prevP| == BLOCK && |plain| % BLOCK == 0 && Bijective(c)
    ensures |r| == |plain|
  {
    if same then EncryptedInPlace(c, prevC, prevP, plain) else Encrypted(c, prevC, prevP, plain)
  }

  /** `aes_ige_encrypt`: nothing is written unless the length is a multiple of the block. */
  method Encrypt(plain: array<byte>, n: nat, c: Cipher, iv: bytes, cipher: array<byte>)
    requires n <= plain.Length && n <= cipher.Length && |iv| == 2 * BLOCK && Bijective(c)
    modifies cipher
    ensures n % BLOCK == 0 && plain != cipher ==> cipher[..n] == Encrypted(c, iv[..BLOCK], iv[BLOCK..], plain[..n])
    ensures n % BLOCK == 0 && plain == cipher ==>
              cipher[..n] == EncryptedInPlace(c, iv[..BLOCK], iv[BLOCK..], old(plain[..n]))
    ensures n % BLOCK != 0 ==> cipher[..n] == old(cipher[..n])
    ensures cipher[n..] == old(cipher[n..])
  {
    hide Xor, Bijective, Encrypted, EncryptedInPlace, Encrypting;
    if n % BLOCK != 0 { return; }
    var ivC, ivP := iv[..BLOCK], iv[BLOCK..];
    var buf := new byte[BLOCK];
    var off := 0;
    ghost var same, src, out := plain == cipher, plain[..n], cipher[..];
    ghost var whole := EncryptedTo(same, c, ivC, ivP, src);
    EncryptStarts(same, c, ivC, ivP, src, plain[..], out);
    while off < n
      invariant off <= n && off % BLOCK == 0 && |ivC| == |ivP| == BLOCK && (!same ==> plain[..] == old(plain[..]))
      invariant Encrypting(same, c, ivC, ivP, src, whole, off, plain[..], cipher[..], out)
    {
      WholeBlocks(n, off);
      ghost var p0, c0 := plain[..], cipher[..];
      EncryptAt(plain, off, c, ivC, ivP, buf, cipher);
      EncryptStep(same, c, ivC, ivP, src, whole, off, p0, c0, plain[..], cipher[..], out);
      ivC, ivP := cipher[off..off + BLOCK], plain[off..off + BLOCK];
      off := off + BLOCK;
    }
    EncryptEnds(same, c, ivC, ivP, src, whole, plain[..], cipher[..], out);
  }

  /** The loop with `off` bytes done: what is left of the input, how the rest completes the output, and
      that nothing behind the output is touched. */
  ghost predicate Encrypting(same: bool, c: Cipher, ivC: bytes, ivP: bytes, src: bytes, whole: bytes, off: nat,
                             plain: bytes, cipher: bytes, out: bytes)
  {
    && |ivC| == |ivP| == BLOCK && Bijective(c) && |src| % BLOCK == 0 && off % BLOCK == 0
    && off <= |src| <= |plain| && |src| <= |cipher| == |out|
    && plain[off..|src|] == src[off..] && cipher[|src|..] == out[|src|..]
    && cipher[..off] + EncryptedTo(same, c, ivC, ivP, src[off..]) == whole
  }

  lemma EncryptStarts(same: bool, c: Cipher, ivC: bytes, ivP: bytes, src: bytes, plain: bytes, out: bytes)
    requires |ivC| == |ivP| == BLOCK && Bijective(c) && |src| % BLOCK == 0 && |src| <= |out|
    requires |src| <= |plain| && src == plain[..|src|]
    ensures Encrypting(same, c, ivC, ivP, src, EncryptedTo(same, c, ivC, ivP, src), 0, plain, out, out)
  {
    hide EncryptedTo, Bijective;
    assert src[0..] == src;
  }

  lemma EncryptStep(same: bool, c: Cipher, ivC: bytes, ivP: bytes, src: bytes, whole: bytes, off: nat, p0: bytes,
                    c0: bytes, p1: bytes, c1: bytes, out: bytes)
    requires Encrypting(same, c, ivC, ivP, src, whole, off, p0, c0, out) && off < |src|
    requires |p1| == |p0| && |c1| == |c0| && if same then p0 == c0 && p1 == c1 else p1 == p0
    requires off + BLOCK <= |c1| && c1[..off] == c0[..off] && c1[off + BLOCK..] == c0[off + BLOCK..]
    requires off + BLOCK <= |p0|
    requires c1[off..off + BLOCK] == Xor(EncryptBlock(c, Xor(p0[off..off + BLOCK], ivC)), ivP)
    ensures Encrypting(same, c, c1[off..off + BLOCK], p1[off..off + BLOCK], src, whole, off + BLOCK, p1, c1, out)
  {
    hide Xor, Bijective, EncryptedTo;
    WholeBlocks(|src|, off);
    NextBlock(p0, src, off, |src|);
    JoinEncrypted(same, c, ivC, ivP, c0[..off], src[off..], whole);
    LastPart(c0, off + BLOCK, |src|);
    LastPart(c1, off + BLOCK, |src|);
    Behind(p0, off + BLOCK, |src|);
    Behind(p1, off + BLOCK, |src|);
    assert c1[..off + BLOCK] == c0[..off] + c1[off..off + BLOCK];
  }

  lemma EncryptEnds(same: bool, c: Cipher, ivC: bytes, ivP: bytes, src: bytes, whole: bytes, plain: bytes,
                    cipher: bytes, out: bytes)
    requires Encrypting(same, c, ivC, ivP, src, whole, |src|, plain, cipher, out)
    ensures |src| <= |cipher| == |out| && cipher[..|src|] == whole && cipher[|src|..] == out[|src|..]
  {
    hide EncryptedTo, Bijective;
    NoneEncrypted(same, c, ivC, ivP, src[|src|..]);
  }

  lemma WholeBlocks(n: nat, off: nat)
    requires n % BLOCK == 0 && off % BLOCK == 0 && off < n
    ensures off + BLOCK <= n && (n - off) % BLOCK == 0 && (off + BLOCK) % BLOCK == 0
  {
  }

  lemma JoinEncrypted(same: bool, c: Cipher, prevC: bytes, prevP: bytes, done: bytes, plain: bytes, whole: bytes)
    requires |prevC| == |prevP| == BLOCK && |plain| % BLOCK == 0 && plain != [] && Bijective(c)
    requires done + EncryptedTo(same, c, prevC, prevP, plain) == whole
    ensures var y := Xor(EncryptBlock(c, Xor(plain[..BLOCK], prevC)), prevP);
            done + y + EncryptedTo(same, c, y, if same then y else plain[..BLOCK], plain[BLOCK..]) == whole
  {
  }

  lemma NoneEncrypted(same: bool, c: Cipher, prevC: bytes, prevP: bytes, none: bytes)
    requires |prevC| == |prevP| == BLOCK && none == [] && Bijective(c)
    ensures EncryptedTo(same, c, prevC, prevP, none) == []
  {
  }

  /** The next block of `buf` and what stands behind it, when `buf` is `src` from `off` to `n`. */
  lemma NextBlock(buf: bytes, src: bytes, off: nat, n: nat)
    requires off + BLOCK <= n == |src| && n <= |buf| && buf[off..n] == src[off..]
    ensures buf[off..off + BLOCK] == src[off..][..BLOCK]
    ensures buf[off + BLOCK..][..n - off - BLOCK] == src[off + BLOCK..] == src[off..][BLOCK..]
  {
    assert buf[off..off + BLOCK] == buf[off..n][..BLOCK];
    assert buf[off + BLOCK..][..n - off - BLOCK] == buf[off..n][BLOCK..];
  }

  lemma Behind(buf: bytes, off: nat, n: nat)
    requires off <= n <= |buf|
    ensures buf[off..n] == buf[off..][..n - off]
  {
  }

  lemma LastPart(buf: bytes, off: nat, n: nat)
    requires off <= n <= |buf|
    ensures buf[n..] == buf[off..][n - off..]
  {
  }

  method DecryptAt(cipher: array<byte>, off: nat, c: Cipher, ivC: bytes, ivP: bytes, buf: array<byte>,
                   plain: array<byte>)
    requires off + BLOCK <= plain.Length && off + BLOCK <= cipher.Length && |ivC| == |ivP| == BLOCK == buf.Length
    requires plain != buf && cipher != buf && Bijective(c)
    modifies buf, plain
    ensures plain[off..off + BLOCK] == Xor(DecryptBlock(c, Xor(old(cipher[off..off + BLOCK]), ivP)), ivC)
    ensures plain[..off] == old(plain[..off]) && plain[off + BLOCK..] == old(plain[off + BLOCK..])
  {
    hide Xor, Bijective;
    XorBlock(cipher, off, ivP, buf, 0);
    assert buf[..] == buf[0..BLOCK];
    Copy(DecryptBlock(c, buf[..]), plain, off);
    XorBlock(plain, off, ivC, plain, off);
  }

  function DecryptedTo(same: bool, c: Cipher, prevC: bytes, prevP: bytes, cipher: bytes): (r: bytes)
    requires |prevC| == |prevP| == BLOCK && |cipher| % BLOCK == 0 && Bijective(c)
    ensures |r| == |cipher|
  {
    if same then DecryptedInPlace(c, prevC, prevP, cipher) else Decrypted(c, prevC, prevP, cipher)
  }

  /** `aes_ige_decrypt` */
  method Decrypt(cipher: array<byte>, n: nat, c: Cipher, iv: bytes, plain: array<byte>)
    requires n <= cipher.Length && n <= plain.Length && |iv| == 2 * BLOCK && Bijective(c)
    modifies plain
    ensures n % BLOCK == 0 && plain != cipher ==> plain[..n] == Decrypted(c, iv[..BLOCK], iv[BLOCK..], cipher[..n])
    ensures n % BLOCK == 0 && plain == cipher ==>
              plain[..n] == DecryptedInPlace(c, iv[..BLOCK], iv[BLOCK..], old(cipher[..n]))
    ensures n % BLOCK != 0 ==> plain[..n] == old(plain[..n])
    ensures plain[n..] == old(plain[n..])
  {
    hide Xor, Bijective, Decrypted, DecryptedInPlace, Decrypting;
    if n % BLOCK != 0 { return; }
    var ivC, ivP := iv[..BLOCK], iv[BLOCK..];
    var buf := new byte[BLOCK];
    var off := 0;
    ghost var same, src, out := plain == cipher, cipher[..n], plain[..];
    ghost var whole := DecryptedTo(same, c, ivC, ivP, src);
    DecryptStarts(same, c, ivC, ivP, src, cipher[..], out);
    while off < n
      invariant off <= n && off % BLOCK == 0 && |ivC| == |ivP| == BLOCK && (!same ==> cipher[..] == old(cipher[..]))
      invariant Decrypting(same, c, ivC, ivP, src, whole, off, cipher[..], plain[..], out)
    {
      WholeBlocks(n, off);
      ghost var c0, p0 := cipher[..], plain[..];
      DecryptAt(cipher, off, c, ivC, ivP, buf, plain);
      DecryptStep(same, c, ivC, ivP, src, whole, off, c0, p0, cipher[..], plain[..], out);
      ivP, ivC := plain[off..off + BLOCK], cipher[off..off + BLOCK];
      off := off + BLOCK;
    }
    DecryptEnds(same, c, ivC, ivP, src, whole, cipher[..], plain[..], out);
  }

  ghost predicate Decrypting(same: bool, c: Cipher, ivC: bytes, ivP: bytes, src: bytes, whole: bytes, off: nat,
                             cipher: bytes, plain: bytes, out: bytes)
  {
    && |ivC| == |ivP| == BLOCK && Bijective(c) && |src| % BLOCK == 0 && off % BLOCK == 0
    && off <= |src| <= |cipher| && |src| <= |plain| == |out|
    && cipher[off..|src|] == src[off..] && plain[|src|..] == out[|src|..]
    && plain[..off] + DecryptedTo(same, c, ivC, ivP, src[off..]) == whole
  }

  lemma DecryptStarts(same: bool, c: Cipher, ivC: bytes, ivP: bytes, src: bytes, cipher: bytes, out: bytes)
    requires |ivC| == |ivP| == BLOCK && Bijective(c) && |src| % BLOCK == 0 && |src| <= |out|
    requires |src| <= |cipher| && src == cipher[..|src|]
    ensures Decrypting(same, c, ivC, ivP, src, DecryptedTo(same, c, ivC, ivP, src), 0, cipher, out, out)
  {
    hide DecryptedTo, Bijective;
    assert src[0..] == src;
  }

  lemma DecryptStep(same: bool, c: Cipher, ivC: bytes, ivP: bytes, src: bytes, whole: bytes, off: nat, c0: bytes,
                    p0: bytes, c1: bytes, p1: bytes, out: bytes)
    requires Decrypting(same, c, ivC, ivP, src, whole, off, c0, p0, out) && off < |src|
    requires |p1| == |p0| && |c1| == |c0| && if same then p0 == c0 && p1 == c1 else c1 == c0
    requires off + BLOCK <= |p1| && p1[..off] == p0[..off] && p1[off + BLOCK..] == p0[off + BLOCK..]
    requires off + BLOCK <= |c0|
    requires p1[off..off + BLOCK] == Xor(DecryptBlock(c, Xor(c0[off..off + BLOCK], ivP)), ivC)
    ensures Decrypting(same, c, c1[off..off + BLOCK], p1[off..off + BLOCK], src, whole, off + BLOCK, c1, p1, out)
  {
    hide Xor, Bijective, DecryptedTo;
    WholeBlocks(|src|, off);
    NextBlock(c0, src, off, |src|);
    JoinDecrypted(same, c, ivC, ivP, p0[..off], src[off..], whole);
    LastPart(p0, off + BLOCK, |src|);
    LastPart(p1, off + BLOCK, |src|);
    Behind(c0, off + BLOCK, |src|);
    Behind(c1, off + BLOCK, |src|);
    assert p1[..off + BLOCK] == p0[..off] + p1[off..off + BLOCK];
  }

  lemma DecryptEnds(same: bool, c: Cipher, ivC: bytes, ivP: bytes, src: bytes, whole: bytes, cipher: bytes,
                    plain: bytes, out: bytes)
    requires Decrypting(same, c, ivC, ivP, src, whole, |src|, cipher, plain, out)
    ensures |src| <= |plain| == |out| && plain[..|src|] == whole && plain[|src|..] == out[|src|..]
  {
    hide DecryptedTo, Bijective;
    NoneDecrypted(same, c, ivC, ivP, src[|src|..]);
  }

  lemma JoinDecrypted(same: bool, c: Cipher, prevC: bytes, prevP: bytes, done: bytes, cipher: bytes, whole: bytes)
    requires |prevC| == |prevP| == BLOCK && |cipher| % BLOCK == 0 && cipher != [] && Bijective(c)
    requires done + DecryptedTo(same, c, prevC, prevP, cipher) == whole
    ensures var x := Xor(DecryptBlock(c, Xor(cipher[..BLOCK], prevP)), prevC);
            done + x + DecryptedTo(same, c, if same then x else cipher[..BLOCK], x, cipher[BLOCK..]) == whole
  {
  }

  lemma NoneDecrypted(same: bool, c: Cipher, prevC: bytes, prevP: bytes, none: bytes)
    requires |prevC| == |prevP| == BLOCK && none == [] && Bijective(c)
    ensures DecryptedTo(same, c, prevC, prevP, none) == []
  {
  }
}
