/** MTProto 2.0 message encryption (`src/core/mtproto_crypto.c`) and the sealed frame around it
    (`rpc_send_encrypted` and `rpc_recv_encrypted` of `src/infrastructure/mtproto_rpc.c`). The hash
    functions are any functions with the right output lengths, and the block cipher any bijection
    per key; random padding is an input. */
module Frames {
  import opened Buffers
  import opened Bytes
  import opened TlCodec
  import opened Ige

  datatype Suite = Suite(sha1: bytes -> bytes, sha256: bytes -> bytes, aes: bytes -> Cipher)

  ghost predicate Sound(k: Suite) {
    && (forall s :: |k.sha1(s)| == 20)
    && (forall s :: |k.sha256(s)| == 32)
    && (forall key :: Bijective(k.aes(key)))
  }

  /** Sender's side: 0 from the client, 8 from the server. */
  type Direction = x: nat | x == 0 || x == 8

  // ---- keys ----

  /** `mtproto_derive_keys`: AES key and IV, as the code cuts them (16 bytes from the middle). */
  function DeriveKeys(k: Suite, authKey: bytes, msgKey: bytes, x: Direction): (r: (bytes, bytes))
    requires Sound(k) && |authKey| == AUTH_KEY_SIZE && |msgKey| == 16
    ensures |r.0| == 32 && |r.1| == 32
  {
    var a := k.sha256(msgKey + authKey[x..x + 36]);
    var b := k.sha256(authKey[x + 40..x + 76] + msgKey);
    (a[..8] + b[8..24] + a[24..], b[..8] + a[8..24] + b[24..])
  }

  /** `mtproto_compute_msg_key` */
  function MsgKey(k: Suite, authKey: bytes, padded: bytes, x: Direction): (m: bytes)
    requires Sound(k) && |authKey| == AUTH_KEY_SIZE
    ensures |m| == 16
  {
    k.sha256(authKey[88 + x..120 + x] + padded)[8..24]
  }

  /** `mtproto_gen_padding`: `(n + 12 + 15) & ~15`, less `n`. */
  function PaddingLength(n: nat): (m: nat)
    ensures 12 <= m <= 27 && (n + m) % BLOCK == 0
  {
    (n + 27) / 16 * 16 - n
  }

  // ---- sealing and opening padded plaintexts ----

  function CipherOf(k: Suite, authKey: bytes, msgKey: bytes, x: Direction, padded: bytes): (c: bytes)
    requires Sound(k) && |authKey| == AUTH_KEY_SIZE && |msgKey| == 16 && |padded| % BLOCK == 0
    ensures |c| == |padded|
  {
    var (key, iv) := DeriveKeys(k, authKey, msgKey, x);
    Encrypted(k.aes(key), iv[..BLOCK], iv[BLOCK..], padded)
  }

  function PlainOf(k: Suite, authKey: bytes, msgKey: bytes, x: Direction, cipher: bytes): (p: bytes)
    requires Sound(k) && |authKey| == AUTH_KEY_SIZE && |msgKey| == 16 && |cipher| % BLOCK == 0
    ensures |p| == |cipher|
  {
    var (key, iv) := DeriveKeys(k, authKey, msgKey, x);
    Decrypted(k.aes(key), iv[..BLOCK], iv[BLOCK..], cipher)
  }

  /** What `mtproto_decrypt` returns. */
  function Opened(k: Suite, authKey: bytes, msgKey: bytes, x: Direction, cipher: bytes): (r: Option<bytes>)
    requires Sound(k) && |authKey| == AUTH_KEY_SIZE && |msgKey| == 16
  {
    if |cipher| < BLOCK || |cipher| % BLOCK != 0 then None
    else
      var p := PlainOf(k, authKey, msgKey, x, cipher);
      if MsgKey(k, authKey, p, x) == msgKey then Some(p) else None
  }

  lemma PlainOfCipher(k: Suite, authKey: bytes, msgKey: bytes, x: Direction, s: bytes)
    requires Sound(k) && |authKey| == AUTH_KEY_SIZE && |msgKey| == 16 && |s| % BLOCK == 0
    ensures PlainOf(k, authKey, msgKey, x, CipherOf(k, authKey, msgKey, x, s)) == s
    ensures CipherOf(k, authKey, msgKey, x, PlainOf(k, authKey, msgKey, x, s)) == s
  {
    var (key, iv) := DeriveKeys(k, authKey, msgKey, x);
    IgeIsBijection(k.aes(key), iv, s);
  }

  /** `mtproto_decrypt` accepts exactly what `mtproto_encrypt` produces: a ciphertext opens to `p`
      if and only if it is the encryption of `p` and carries the message key of `p`. */
  lemma OpensExactlySealed(k: Suite, authKey: bytes, msgKey: bytes, x: Direction, cipher: bytes, p: bytes)
    requires Sound(k) && |authKey| == AUTH_KEY_SIZE && |msgKey| == 16
    ensures Opened(k, authKey, msgKey, x, cipher) == Some(p) <==>
            && |p| >= BLOCK && |p| % BLOCK == 0
            && msgKey == MsgKey(k, authKey, p, x)
            && cipher == CipherOf(k, authKey, msgKey, x, p)
  {
    hide Sound, MsgKey, CipherOf, PlainOf;
    if |p| % BLOCK == 0 { PlainOfCipher(k, authKey, msgKey, x, p); }
    if |cipher| % BLOCK == 0 { PlainOfCipher(k, authKey, msgKey, x, cipher); }
  }

  /** `mtproto_encrypt`: pad, derive the message key from the padded text, encrypt. */
  method Seal(k: Suite, authKey: bytes, x: Direction, plain: bytes, padding: bytes)
    returns (cipher: bytes, msgKey: bytes)
    requires Sound(k) && |authKey| == AUTH_KEY_SIZE && |padding| == PaddingLength(|plain|)
    ensures msgKey == MsgKey(k, authKey, plain + padding, x)
    ensures cipher == CipherOf(k, authKey, msgKey, x, plain + padding)
  {
    hide Sound, MsgKey, DeriveKeys, Encrypted, Bijective;
    var padded := FromSeq(plain + padding);
    var out := new byte[padded.Length];
    msgKey := MsgKey(k, authKey, padded[..], x);
    var (key, iv) := DeriveKeys(k, authKey, msgKey, x);
    AesIsBijective(k, key);
    assert padded[..] == padded[..padded.Length];
    Encrypt(padded, padded.Length, k.aes(key), iv, out);
    cipher := out[..];
    assert out[..] == out[..padded.Length];
  }

  lemma AesIsBijective(k: Suite, key: bytes)
    requires Sound(k)
    ensures Bijective(k.aes(key))
  {
  }

  /** `mtproto_decrypt` */
  method Open(k: Suite, authKey: bytes, msgKey: bytes, x: Direction, cipher: bytes) returns (r: Option<bytes>)
    requires Sound(k) && |authKey| == AUTH_KEY_SIZE && |msgKey| == 16
    ensures r == Opened(k, authKey, msgKey, x, cipher)
  {
    hide Sound, MsgKey, DeriveKeys, Decrypted, Bijective;
    if |cipher| < BLOCK || |cipher| % BLOCK != 0 { return None; }
    var (key, iv) := DeriveKeys(k, authKey, msgKey, x);
    AesIsBijective(k, key);
    var input := FromSeq(cipher);
    var plain := new byte[|cipher|];
    assert input[..] == input[..|cipher|];
    Decrypt(input, |cipher|, k.aes(key), iv, plain);
    assert plain[..] == plain[..|cipher|];
    if MsgKey(k, authKey, plain[..], x) != msgKey { return None; }
    r := Some(plain[..]);
  }

  // ---- the frame ----

  datatype Header = Header(salt: uint64, sessionId: uint64, msgId: uint64, seqNo: uint32)

  /** salt, session id, message id, sequence number, length, data. */
  function Inner(h: Header, data: bytes): (s: bytes)
    requires |data| < TWO_TO_32
    ensures |s| == 32 + |data|
  {
    Enc64(h.salt) + Enc64(h.sessionId) + Enc64(h.msgId) + Enc32(h.seqNo) + Enc32(|data|) + data
  }

  /** The last eight bytes of the key's SHA-1. */
  function KeyId(k: Suite, authKey: bytes): (id: bytes)
    requires Sound(k)
    ensures |id| == 8
  {
    k.sha1(authKey)[12..]
  }

  /** key id, message key, ciphertext. */
  function Wire(k: Suite, authKey: bytes, x: Direction, padded: bytes): (f: bytes)
    requires Sound(k) && |authKey| == AUTH_KEY_SIZE && |padded| % BLOCK == 0
    ensures |f| == 24 + |padded|
  {
    var m := MsgKey(k, authKey, padded, x);
    KeyId(k, authKey) + m + CipherOf(k, authKey, m, x, padded)
  }

  /** Keys and ids byte by byte: the AES key is the first hash with sixteen bytes of the second in the
      middle, the IV the other way round; the message key is the middle of a hash over the part of the
      key for this direction and the padded text; the key id is the end of the key's SHA-1. */
  lemma KeyBytes(k: Suite, authKey: bytes, msgKey: bytes, padded: bytes, x: Direction, a: bytes, b: bytes, i: nat)
    requires Sound(k) && |authKey| == 256 && |msgKey| == 16 && i < 32
    requires x == 0 ==> a == k.sha256(msgKey + authKey[0..36]) && b == k.sha256(authKey[40..76] + msgKey)
    requires x == 8 ==> a == k.sha256(msgKey + authKey[8..44]) && b == k.sha256(authKey[48..84] + msgKey)
    ensures var (key, iv) := DeriveKeys(k, authKey, msgKey, x);
            && key[i] == (if i < 8 || i >= 24 then a[i] else b[i])
            && iv[i] == (if i < 8 || i >= 24 then b[i] else a[i])
    ensures i < 16 && x == 0 ==> MsgKey(k, authKey, padded, x)[i] == k.sha256(authKey[88..120] + padded)[8 + i]
    ensures i < 16 && x == 8 ==> MsgKey(k, authKey, padded, x)[i] == k.sha256(authKey[96..128] + padded)[8 + i]
    ensures i < 8 ==> KeyId(k, authKey)[i] == k.sha1(authKey)[12 + i]
  {
  }

  /** The header in front of the data. */
  lemma HeaderBytes(h: Header, data: bytes)
    requires |data| < TWO_TO_32
    ensures Inner(h, data) == Enc64(h.salt) + (Enc64(h.sessionId) + (Enc64(h.msgId) + (Enc32(h.seqNo)
                              + (Enc32(|data|) + data))))
  {
    hide Enc32, Enc64;
  }


  /** What `rpc_recv_encrypted` returns for the packet `buf`. */
  function Received(k: Suite, authKey: bytes, sessionId: uint64, x: Direction, maxLen: nat,
                    buf: bytes): (r: Option<bytes>)
    requires Sound(k) && |authKey| == AUTH_KEY_SIZE
  {
    if |buf| < 24 || buf[..8] != KeyId(k, authKey) then None
    else match Opened(k, authKey, buf[8..24], x, buf[24..])
      case None => None
      case Some(p) =>
        if |p| < 32 || Word64(p, 8) != sessionId || Word32(p, 28) > maxLen then None
        else Some(ReadRaw(p, 32, Word32(p, 28)))
  }

  /** The padded plaintext `p` is for this session and its length field is within bounds. */
  ghost predicate Addressed(p: bytes, sessionId: uint64, maxLen: nat) {
    |p| >= 32 && |p| % BLOCK == 0 && Word64(p, 8) == sessionId && Word32(p, 28) <= maxLen
  }

  lemma WireParts(k: Suite, authKey: bytes, x: Direction, p: bytes)
    requires Sound(k) && |authKey| == AUTH_KEY_SIZE && |p| % BLOCK == 0
    ensures var m := MsgKey(k, authKey, p, x);
            var f := Wire(k, authKey, x, p);
            f[..8] == KeyId(k, authKey) && f[8..24] == m && f[24..] == CipherOf(k, authKey, m, x, p)
  {
    hide Sound, MsgKey, CipherOf, KeyId;
  }

  /** A packet is accepted, with content `data`, if and only if it is the frame of a padded
      plaintext for this session whose length field and content say `data`. */
  lemma ReceivesExactlySealed(k: Suite, authKey: bytes, sessionId: uint64, x: Direction, maxLen: nat, buf: bytes,
                              data: bytes)
    requires Sound(k) && |authKey| == AUTH_KEY_SIZE
    ensures Received(k, authKey, sessionId, x, maxLen, buf) == Some(data) <==>
            exists p :: && Addressed(p, sessionId, maxLen) && buf == Wire(k, authKey, x, p)
                        && data == ReadRaw(p, 32, Word32(p, 28))
  {
    hide Sound, MsgKey, CipherOf, KeyId, Opened, Word32, Word64, ReadRaw, Wire;
    if Received(k, authKey, sessionId, x, maxLen, buf) == Some(data) {
      var p := Opened(k, authKey, buf[8..24], x, buf[24..]).value;
      OpensExactlySealed(k, authKey, buf[8..24], x, buf[24..], p);
      WireParts(k, authKey, x, p);
      var f := Wire(k, authKey, x, p);
      assert buf == buf[..8] + buf[8..24] + buf[24..];
      assert f == f[..8] + f[8..24] + f[24..];
      assert Addressed(p, sessionId, maxLen) && buf == Wire(k, authKey, x, p);
    }
    forall p | Addressed(p, sessionId, maxLen) && buf == Wire(k, authKey, x, p)
      ensures Received(k, authKey, sessionId, x, maxLen, buf) == Some(ReadRaw(p, 32, Word32(p, 28)))
    {
      WireParts(k, authKey, x, p);
      OpensExactlySealed(k, authKey, buf[8..24], x, buf[24..], p);
    }
  }

  lemma InnerFields(h: Header, data: bytes, padding: bytes)
    requires |data| < TWO_TO_32
    ensures var p := Inner(h, data) + padding;
            Word64(p, 8) == h.sessionId && Word32(p, 28) == |data| && ReadRaw(p, 32, |data|) == data
  {
    var p := Inner(h, data) + padding;
    hide Enc32, Enc64, Word32, Word64;
    assert p[8..16] == Enc64(h.sessionId);
    assert p[28..32] == Enc32(|data|);
    assert p[32..32 + |data|] == data;
    Word64OfEnc64(h.sessionId, p, 8);
    Word32OfEnc32(|data|, p, 28);
  }

  /** Sealing then opening with the same key, direction and session gives back exactly the data,
      whatever salt, ids and padding bytes; the frame is four-aligned, so the transport takes it. */
  lemma SealedFrameRoundTrip(k: Suite, authKey: bytes, x: Direction, maxLen: nat, h: Header, data: bytes,
                             padding: bytes)
    requires Sound(k) && |authKey| == AUTH_KEY_SIZE && |data| < TWO_TO_32 && |padding| == PaddingLength(32 + |data|)
    ensures var f := Wire(k, authKey, x, Inner(h, data) + padding);
            && |f| % 4 == 0
            && Received(k, authKey, h.sessionId, x, maxLen, f) == if |data| <= maxLen then Some(data) else None
  {
    hide Sound, MsgKey, CipherOf, KeyId, Opened, Word32, Word64, ReadRaw, Wire, Inner;
    var p := Inner(h, data) + padding;
    var f := Wire(k, authKey, x, p);
    FourAligned(|p|);
    InnerFields(h, data, padding);
    WireParts(k, authKey, x, p);
    OpensExactlySealed(k, authKey, f[8..24], x, f[24..], p);
  }

  lemma FourAligned(n: nat)
    requires n % BLOCK == 0
    ensures (24 + n) % 4 == 0
  {
    var blocks := n / BLOCK;
    assert 24 + n == 4 * (6 + 4 * blocks);
  }
}
