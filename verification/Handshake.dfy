/** Creating an authorization key (`src/infrastructure/mtproto_auth.c`): four steps over unencrypted
    messages. What `rpc_send_unencrypted` and `rpc_recv_unencrypted` return is the environment;
    random bytes are inputs; RSA is any function. The checks are the ones the code makes: the
    server nonce of the last reply and the hash in front of the encrypted answer are read and not
    compared. */
module Handshake {
  import opened Buffers
  import opened Bytes
  import opened TlCodec
  import opened TlSerial
  import opened Modular
  import opened Ige
  import opened Frames
  import opened Outcomes
  import Factor
  import Sessions

  const REQ_PQ_MULTI: uint32 := 0xbe7e8ef1
  const RES_PQ: uint32 := 0x05162463
  const PQ_INNER_DATA: uint32 := 0x83c95aec
  const REQ_DH_PARAMS: uint32 := 0xd712e4be
  const SERVER_DH_PARAMS_OK: uint32 := 0xd0e8075c
  const SERVER_DH_INNER_DATA: uint32 := 0xb5890dba
  const CLIENT_DH_INNER_DATA: uint32 := 0x6643b654
  const SET_CLIENT_DH_PARAMS: uint32 := 0xf5045f1f
  const DH_GEN_OK: uint32 := 0x3bcbf734
  const MAX_FINGERPRINTS := 64

  /** The server's RSA key: its fingerprint and encryption under it. */
  datatype ServerKey = ServerKey(fingerprint: uint64, encrypt: bytes -> Option<bytes>)

  /** The random bytes of one run, and what fresh memory happens to hold. */
  datatype Chance = Chance(nonce: bytes, newNonce: bytes, rsaPadding: bytes, b: bytes, dhPadding: bytes,
                           junk: nat -> bytes)

  ghost predicate Drawn(ch: Chance) {
    && |ch.nonce| == 16 && |ch.newNonce| == 32 && |ch.b| == 256 && |ch.rsaPadding| == 235 && |ch.dhPadding| == 16
    && forall n :: |ch.junk(n)| == n
  }

  // ---- what the replies mean ----

  /** One of `n` fingerprints from `p` on is `fp`. */
  predicate Listed(buf: bytes, p: nat, n: nat, fp: uint64)
    decreases n
  {
    n > 0 && (Read64(buf, p) == fp || Listed(buf, After(buf, p, 8), n - 1, fp))
  }

  /** `resPQ`: server nonce and pq, when the nonce is ours and our key is listed. */
  function ReadResPq(buf: bytes, nonce: bytes, fp: uint64): Option<(bytes, uint64)> {
    var p1 := After(buf, 0, 4);
    var p2 := After(buf, p1, 16);
    if Read32(buf, 0) != RES_PQ || ReadRaw(buf, p1, 16) != nonce then None
    else match ReadString(buf, After(buf, p2, 16))
      case None => None
      case Some((pq, p4)) =>
        var p5 := After(buf, p4, 4);
        var n := Read32(buf, p5);
        if n > MAX_FINGERPRINTS || !Listed(buf, After(buf, p5, 4), n, fp) then None
        else Some((ReadRaw(buf, p2, 16), FromBig(pq) % TWO_TO_64))
  }

  /** `dh_derive_temp_aes` */
  function TempAes(k: Suite, newNonce: bytes, serverNonce: bytes): (r: (bytes, bytes))
    requires Sound(k) && |newNonce| == 32
    ensures |r.0| == 32 && |r.1| == 32
  {
    var a, b := k.sha1(newNonce + serverNonce), k.sha1(serverNonce + newNonce);
    (a + b[..12], b[12..] + k.sha1(newNonce + newNonce) + newNonce[..4])
  }

  /** What the buffer holds after `aes_ige_decrypt`, which leaves it alone unless the length is a
      multiple of the block. */
  function DecryptInto(k: Suite, key: bytes, iv: bytes, enc: bytes, junk: bytes): (r: bytes)
    requires Sound(k) && |iv| == 32 && |junk| == |enc|
    ensures |r| == |enc|
  {
    if |enc| % BLOCK == 0 then Decrypted(k.aes(key), iv[..BLOCK], iv[BLOCK..], enc) else junk
  }

  datatype Dh = Dh(g: int, prime: bytes, gA: bytes, time: int)

  /** `server_DH_params_ok`: the encrypted answer, when both nonces are ours. */
  function ReadDhAnswer(buf: bytes, nonce: bytes, serverNonce: bytes): Option<bytes> {
    var p1 := After(buf, 0, 4);
    var p2 := After(buf, p1, 16);
    if Read32(buf, 0) != SERVER_DH_PARAMS_OK || ReadRaw(buf, p1, 16) != nonce
        || ReadRaw(buf, p2, 16) != serverNonce then None
    else match ReadString(buf, After(buf, p2, 16))
      case None => None
      case Some((enc, _)) => if enc == [] then None else Some(enc)
  }

  /** `server_DH_inner_data` behind its hash: the parameters, when both nonces are ours and the
      generator is allowed. */
  function ReadDhInner(plain: bytes, nonce: bytes, serverNonce: bytes): Option<Dh> {
    if |plain| < 24 then None
    else
      var d := plain[20..];
      var p1 := After(d, 0, 4);
      var p2 := After(d, p1, 16);
      var p3 := After(d, p2, 16);
      var g := Signed32(Read32(d, p3));
      if Read32(d, 0) != SERVER_DH_INNER_DATA || ReadRaw(d, p1, 16) != nonce
          || ReadRaw(d, p2, 16) != serverNonce then None
      else if g < 2 || g > 7 then None
      else ReadPrimeAndPower(d, After(d, p3, 4), g)
  }

  function ReadPrimeAndPower(d: bytes, p: nat, g: int): Option<Dh> {
    match ReadString(d, p)
    case None => None
    case Some((prime, q)) =>
      if |prime| > 256 then None
      else match ReadString(d, q)
        case None => None
        case Some((gA, q1)) => if |gA| > 256 then None else Some(Dh(g, prime, gA, Signed32(Read32(d, q1))))
  }

  /** The shared key, left-padded to 256 bytes; None when the modulus is zero. */
  function SharedKey(dh: Dh, b: bytes): (r: Option<bytes>)
    requires |dh.prime| <= 256
    ensures r.Some? ==> |r.value| == AUTH_KEY_SIZE
  {
    match BnExp(dh.gA, b, dh.prime)
    case None => None
    case Some(s) => Some(seq(256 - |s|, _ => 0 as byte) + s)
  }

  /** `new_nonce_hash1` */
  function NonceHash(k: Suite, newNonce: bytes, key: bytes): bytes
    requires Sound(k)
  {
    k.sha1(newNonce + [1] + k.sha1(key)[..8])[4..]
  }

  /** `dh_gen_ok` with our nonce and the hash that only someone with the same key can know. */
  predicate ConfirmsKey(k: Suite, buf: bytes, nonce: bytes, newNonce: bytes, key: bytes)
    requires Sound(k)
  {
    var p1 := After(buf, 0, 4);
    var p2 := After(buf, p1, 16);
    Read32(buf, 0) == DH_GEN_OK && ReadRaw(buf, p1, 16) == nonce
        && ReadRaw(buf, After(buf, p2, 16), 16) == NonceHash(k, newNonce, key)
  }

  /** The first salt: eight bytes of both nonces, as a little-endian number. */
  function FirstSalt(newNonce: bytes, serverNonce: bytes): uint64
    requires |newNonce| == 32 && |serverNonce| == 16
  {
    Word64(Xor(newNonce[..8], serverNonce[..8]), 0)
  }

  /** Temporary key and IV, confirming hash and first salt, byte by byte. */
  lemma DerivedBytes(k: Suite, newNonce: bytes, serverNonce: bytes, key: bytes, a: bytes, b: bytes, c: bytes, m: bytes,
                     salt: bytes, i: nat)
    requires Sound(k) && |newNonce| == 32 && |serverNonce| == 16 && i < 32
    requires a == k.sha1(newNonce + serverNonce) && b == k.sha1(serverNonce + newNonce)
    requires c == k.sha1(newNonce + newNonce)
    requires |m| == 41 && m[..32] == newNonce && m[32] == 1 && m[33..] == k.sha1(key)[..8]
    requires |salt| == 8 && forall j :: 0 <= j < 8 ==> salt[j] == XorByte(newNonce[j], serverNonce[j])
    ensures var (aes, iv) := TempAes(k, newNonce, serverNonce);
            && aes[i] == (if i < 20 then a[i] else b[i - 20])
            && iv[i] == if i < 8 then b[12 + i] else if i < 28 then c[i - 8] else newNonce[i - 28]
    ensures i < 16 ==> |NonceHash(k, newNonce, key)| == 16 && NonceHash(k, newNonce, key)[i] == k.sha1(m)[4 + i]
    ensures FirstSalt(newNonce, serverNonce) == Word64(salt, 0)
  {
    hide XorByte, Word64;
    assert m == newNonce + [1] + k.sha1(key)[..8];
    assert salt == Xor(newNonce[..8], serverNonce[..8]);
  }

  // ---- the environment ----

  /** The other side: what it answers, if anything, once the client has sent these messages. */
  type Peer = seq<bytes> -> Option<bytes>

  const REPLY_MAX := 4096

  /** What the client hears of a peer: every step receives into 4096 bytes and refuses more. */
  function Heard(peer: Peer): Peer {
    sent => match peer(sent) case None => None case Some(m) => if |m| <= REPLY_MAX then Some(m) else None
  }

  /** A peer that has already seen the messages `before`. */
  function Since(peer: Peer, before: seq<bytes>): Peer {
    sent => peer(before + sent)
  }

  class Link {
    const peer: Peer
    var outbox: seq<bytes>
    var sendResults: seq<bool>

    constructor (peer: Peer, sendResults: seq<bool>)
      ensures this.peer == peer && outbox == [] && this.sendResults == sendResults
    {
      this.peer, outbox, this.sendResults := peer, [], sendResults;
    }

    /** `rpc_send_unencrypted` */
    method Send(m: bytes) returns (ok: bool)
      modifies this`outbox, this`sendResults
      ensures ok == Next(old(sendResults)) && sendResults == Rest(old(sendResults))
      ensures outbox == if ok then old(outbox) + [m] else old(outbox)
    {
      if sendResults == [] { return false; }
      ok := sendResults[0];
      sendResults := sendResults[1..];
      if ok { outbox := outbox + [m]; }
    }

    /** `rpc_recv_unencrypted` */
    method Recv() returns (m: Option<bytes>)
      ensures m == Heard(peer)(outbox)
    {
      m := peer(outbox);
      if m.Some? && |m.value| > REPLY_MAX { m := None; }
    }
  }

  // ---- what is sent ----

  function ReqPqMessage(nonce: bytes): bytes { Enc32(REQ_PQ_MULTI) + nonce }

  /** Hash, data and padding behind one zero byte, so that the number is below the modulus. */
  function RsaInput(k: Suite, data: bytes, padding: bytes): (r: bytes)
    requires Sound(k) && |data| <= 235 && |padding| == 235
    ensures |r| == 256
  {
    [0] + k.sha1(data) + data + padding[..235 - |data|]
  }

  function PqInner(pq: bytes, p: bytes, q: bytes, nonce: bytes, serverNonce: bytes, newNonce: bytes): bytes {
    Enc32(PQ_INNER_DATA) + (EncString(pq) + (EncString(p) + (EncString(q) + (nonce + (serverNonce + newNonce)))))
  }

  lemma PqInnerSize(pq: bytes, p: bytes, q: bytes, nonce: bytes, serverNonce: bytes, newNonce: bytes)
    requires |pq| <= 8 && |p| <= 4 && |q| <= 4 && |nonce| == 16 && |serverNonce| == 16 && |newNonce| == 32
    ensures |PqInner(pq, p, q, nonce, serverNonce, newNonce)| <= 96
  {
  }

  /** What is encrypted to the server for these factors. */
  function Secret(k: Suite, ch: Chance, serverNonce: bytes, pq: uint64, p: uint32, q: uint32): (r: bytes)
    requires Sound(k) && Drawn(ch) && |serverNonce| == 16
    ensures |r| == 256
  {
    var pqB, pB, qB := ShortBig(pq, 8), ShortBig(p, 4), ShortBig(q, 4);
    PqInnerSize(pqB, pB, qB, ch.nonce, serverNonce, ch.newNonce);
    RsaInput(k, PqInner(pqB, pB, qB, ch.nonce, serverNonce, ch.newNonce), ch.rsaPadding)
  }

  /** `req_DH_params`: the factors of pq in the clear, and with the new nonce under the server's key;
      None when pq cannot be factored or the encryption fails. */
  function DhRequest(k: Suite, sk: ServerKey, ch: Chance, serverNonce: bytes, pq: uint64): Option<bytes>
    requires Sound(k) && Drawn(ch) && |serverNonce| == 16
  {
    match Factor.Factored(pq)
    case None => None
    case Some((p, q)) =>
      match sk.encrypt(Secret(k, ch, serverNonce, pq, p, q))
      case None => None
      case Some(enc) => Some(ReqDhMessage(ch.nonce, serverNonce, ShortBig(p, 4), ShortBig(q, 4), sk.fingerprint, enc))
  }

  function ReqDhMessage(nonce: bytes, serverNonce: bytes, p: bytes, q: bytes, fp: uint64, enc: bytes): bytes {
    Enc32(REQ_DH_PARAMS) + (nonce + (serverNonce + (EncString(p) + (EncString(q) + (Enc64(fp) + EncString(enc))))))
  }

  function ClientInner(nonce: bytes, serverNonce: bytes, gB: bytes): bytes {
    Enc32(CLIENT_DH_INNER_DATA) + nonce + serverNonce + Enc64(0) + EncString(gB)
  }

  function BlockPadding(n: nat): (m: nat)
    ensures m < BLOCK && (n + m) % BLOCK == 0
  {
    if n % BLOCK == 0 then 0 else BLOCK - n % BLOCK
  }

  /** Hash and data, padded to whole blocks. */
  function Hashed(k: Suite, data: bytes, padding: bytes): (r: bytes)
    requires Sound(k) && |padding| == 16
    ensures |r| % BLOCK == 0
  {
    k.sha1(data) + data + padding[..BlockPadding(20 + |data|)]
  }

  function ClientDhMessage(k: Suite, nonce: bytes, serverNonce: bytes, key: bytes, iv: bytes, plain: bytes): bytes
    requires Sound(k) && |iv| == 32 && |plain| % BLOCK == 0
  {
    Enc32(SET_CLIENT_DH_PARAMS) + nonce + serverNonce
        + EncString(Encrypted(k.aes(key), iv[..BLOCK], iv[BLOCK..], plain))
  }

  /** The client's messages, spelled out: both requests, the data encrypted to the server's key behind a
      zero and its hash, and the client's power behind its hash. */
  lemma MessageBytes(k: Suite, nonce: bytes, serverNonce: bytes, newNonce: bytes, pq: bytes, p: bytes, q: bytes,
                     fp: uint64, enc: bytes, gB: bytes, data: bytes, padding: bytes)
    requires Sound(k) && |data| <= 235 && |padding| == 235
    ensures ReqPqMessage(nonce) == Enc32(0xbe7e8ef1) + nonce
    ensures PqInner(pq, p, q, nonce, serverNonce, newNonce) ==
            Enc32(0x83c95aec) + (EncString(pq) + (EncString(p) + (EncString(q) + (nonce + (serverNonce + newNonce)))))
    ensures RsaInput(k, data, padding) == [0] + (k.sha1(data) + (data + padding[..235 - |data|]))
    ensures ReqDhMessage(nonce, serverNonce, p, q, fp, enc) ==
            Enc32(0xd712e4be) + (nonce + (serverNonce + (EncString(p) + (EncString(q) + (Enc64(fp) + EncString(enc))))))
    ensures ClientInner(nonce, serverNonce, gB) ==
            Enc32(0x6643b654) + (nonce + (serverNonce + (Enc64(0) + EncString(gB))))
  {
    hide Enc32, Enc64, EncString;
  }

  lemma LastMessageBytes(k: Suite, nonce: bytes, serverNonce: bytes, key: bytes, iv: bytes, data: bytes, padding: bytes)
    requires Sound(k) && |iv| == 32 && |padding| == 16
    ensures var n := (16 - (20 + |data|) % 16) % 16;
            Hashed(k, data, padding) == k.sha1(data) + (data + padding[..n])
    ensures ClientDhMessage(k, nonce, serverNonce, key, iv, Hashed(k, data, padding)) ==
            Enc32(0xf5045f1f) + (nonce + (serverNonce
            + EncString(Encrypted(k.aes(key), iv[..16], iv[16..], Hashed(k, data, padding)))))
  {
    hide Enc32, EncString, Encrypted;
  }

  // ---- the steps ----

  class AuthCtx {
    var nonce: bytes
    var serverNonce: bytes
    var newNonce: bytes
    var pq: uint64
    var p: uint32
    var q: uint32
    var dh: Dh
    var tmpKey: bytes
    var tmpIv: bytes

    constructor ()
    {
      nonce, serverNonce, newNonce := Zeros(16), Zeros(16), Zeros(32);
      pq, p, q := 0, 0, 0;
      dh := Dh(0, [], [], 0);
      tmpKey, tmpIv := Zeros(32), Zeros(32);
    }

    /** `auth_step_req_pq` */
    method ReqPq(sk: ServerKey, l: Link, random: bytes) returns (ok: bool)
      requires |random| == 16
      modifies this`nonce, this`serverNonce, this`pq, l
      ensures nonce == random && l.sendResults == Rest(old(l.sendResults))
      ensures l.outbox == if Next(old(l.sendResults)) then old(l.outbox) + [ReqPqMessage(random)] else old(l.outbox)
      ensures var reply := Heard(l.peer)(l.outbox);
              && (ok <==> Next(old(l.sendResults)) && reply.Some?
                          && ReadResPq(reply.value, random, sk.fingerprint).Some?)
              && (ok ==> ReadResPq(reply.value, random, sk.fingerprint) == Some((serverNonce, pq)))
    {
      hide Read32, Read64, ReadRaw, ReadString, FromBig;
      nonce := random;
      ok := l.Send(ReqPqMessage(random));
      if !ok { return false; }
      var reply := l.Recv();
      if reply.None? { return false; }
      var r := new TlReader(reply.value);
      var crc := r.ReadUint32();
      if crc != RES_PQ { return false; }
      var recvNonce := r.ReadRawBytes(16);
      if recvNonce != nonce { return false; }
      serverNonce := r.ReadRawBytes(16);
      var pqBytes := r.ReadBytes();
      if pqBytes.None? { return false; }
      pq := Big64(pqBytes.value);
      r.Advance(4);
      var n := r.ReadUint32();
      if n > MAX_FINGERPRINTS { return false; }
      ok := FindFingerprint(r, n, sk.fingerprint);
    }

    /** `auth_step_req_dh`: the request is sent exactly when pq can be factored and the encryption and
        the send succeed. */
    method ReqDh(k: Suite, sk: ServerKey, l: Link, ch: Chance) returns (ok: bool)
      requires Sound(k) && Drawn(ch) && nonce == ch.nonce && |serverNonce| == 16
      modifies this`p, this`q, this`newNonce, l`outbox, l`sendResults
      ensures ok <==> DhRequest(k, sk, ch, serverNonce, pq).Some? && Next(old(l.sendResults))
      ensures ok ==> newNonce == ch.newNonce && l.sendResults == Rest(old(l.sendResults))
      ensures ok ==> l.outbox == old(l.outbox) + [DhRequest(k, sk, ch, serverNonce, pq).value]
      ensures ok && pq % 2 == 1 ==> 1 < p <= q && p * q == pq
    {
      hide FromBig, Factor.Factored, Factor.Found, EncString, Enc32, Enc64, ShortBig, Sound, RsaInput;
      ok, p, q := Factor.PqFactorize(pq);
      if !ok { return false; }
      newNonce := ch.newNonce;
      WordsFit(pq, p, q);
      var pqB := ToShortBig(pq, 8);
      var pB := ToShortBig(p, 4);
      var qB := ToShortBig(q, 4);
      PqInnerSize(pqB, pB, qB, nonce, serverNonce, newNonce);
      var enc := sk.encrypt(RsaInput(k, PqInner(pqB, pB, qB, nonce, serverNonce, newNonce), ch.rsaPadding));
      if enc.None? { return false; }
      ok := l.Send(ReqDhMessage(nonce, serverNonce, pB, qB, sk.fingerprint, enc.value));
    }

    /** `auth_step_parse_dh` */
    method ParseDh(k: Suite, l: Link, junk: nat -> bytes) returns (ok: bool)
      requires Sound(k) && |nonce| == 16 && |serverNonce| == 16 && |newNonce| == 32 && forall n :: |junk(n)| == n
      modifies this`dh, this`tmpKey, this`tmpIv
      ensures ok ==> (tmpKey, tmpIv) == TempAes(k, newNonce, serverNonce)
      ensures var reply := Heard(l.peer)(l.outbox);
              && (ok <==> reply.Some? && DhParams(k, reply.value, nonce, serverNonce, newNonce, junk).Some?)
              && (ok ==> DhParams(k, reply.value, nonce, serverNonce, newNonce, junk) == Some(dh))
    {
      hide ReadDhAnswer, TempAes, Sound, DecryptInto, ReadDhInner;
      var reply := l.Recv();
      if reply.None? { return false; }
      var answer := ParseDhAnswer(reply.value, nonce, serverNonce);
      if answer.None? { return false; }
      tmpKey, tmpIv := TempAes(k, newNonce, serverNonce).0, TempAes(k, newNonce, serverNonce).1;
      var plain := DecryptAnswer(k, tmpKey, tmpIv, answer.value, junk(|answer.value|));
      var parsed := ParseDhInner(plain, nonce, serverNonce);
      if parsed.None? { return false; }
      dh := parsed.value;
      ok := true;
    }

    /** `auth_step_set_client_dh`: only a reply that confirms the key puts key and salt into the
        session. */
    method SetClientDh(k: Suite, s: Sessions.Session, l: Link, b: bytes, padding: bytes) returns (ok: bool)
      requires Sound(k) && s.Valid() && |nonce| == 16 && |serverNonce| == 16 && |newNonce| == 32 && |tmpIv| == 32
      requires |padding| == 16 && |dh.prime| <= 256 && 2 <= dh.g <= 7
      modifies s`authKey, s`hasAuthKey, s`serverSalt, l
      ensures s.Valid()
      ensures ok <==> var sent := old(l.outbox)
                                  + [ClientMessage(k, nonce, serverNonce, tmpKey, tmpIv, PublicPower(dh, b), padding)];
                      && FromBig(dh.prime) > 0 && Next(old(l.sendResults)) && Heard(l.peer)(sent).Some?
                      && Confirmed(k, Heard(l.peer)(sent).value, nonce, newNonce, dh, b)
      ensures ok ==> SharedKey(dh, b) == Some(s.authKey) && s.hasAuthKey
                     && s.serverSalt == FirstSalt(newNonce, serverNonce)
      ensures !ok ==> unchanged(s)
      ensures ok ==>
                l.outbox == old(l.outbox)
                            + [ClientMessage(k, nonce, serverNonce, tmpKey, tmpIv, PublicPower(dh, b), padding)]
    {
      hide Sound, ConfirmsKey, ClientMessage, PublicPower, SharedKey, FromBig, Word64, Xor;
      var m := BuildClientDh(k, nonce, serverNonce, tmpKey, tmpIv, dh, b, padding);
      if m.None? { return false; }
      ok := l.Send(m.value);
      if !ok { return false; }
      var reply := l.Recv();
      if reply.None? { return false; }
      SharedKeyExists(dh, b);
      var key := SharedKey(dh, b);
      ok := CheckDhGen(k, reply.value, nonce, newNonce, key.value);
      if !ok { return false; }
      s.SetAuthKey(key.value);
      s.serverSalt := Word64(Xor(newNonce[..8], serverNonce[..8]), 0);
    }
  }

  /** The client's power, sealed for the server; None on a zero modulus. */
  method BuildClientDh(k: Suite, nonce: bytes, serverNonce: bytes, key: bytes, iv: bytes, dh: Dh, b: bytes,
                       padding: bytes)
    returns (m: Option<bytes>)
    requires Sound(k) && |iv| == 32 && |padding| == 16 && 2 <= dh.g <= 7
    ensures m == if FromBig(dh.prime) == 0 then None
                 else Some(ClientMessage(k, nonce, serverNonce, key, iv, PublicPower(dh, b), padding))
  {
    hide BnExp, Sound, Hashed, EncString, Enc32, Enc64, Encrypted, Bijective, FromBig;
    var gBytes := ToBig(dh.g, 4);
    BnExpFails(dh.gA, gBytes, b, dh.prime);
    var gB := BnExp(gBytes, b, dh.prime);
    if gB.None? { return None; }
    var plain := Hashed(k, ClientInner(nonce, serverNonce, gB.value), padding);
    var encrypted := EncryptPlain(k, key, iv, plain);
    m := Some(Enc32(SET_CLIENT_DH_PARAMS) + nonce + serverNonce + EncString(encrypted));
  }

  /** The key can be computed and the reply confirms it. */
  ghost predicate Confirmed(k: Suite, buf: bytes, nonce: bytes, newNonce: bytes, dh: Dh, b: bytes)
    requires Sound(k) && |dh.prime| <= 256
  {
    SharedKey(dh, b).Some? && ConfirmsKey(k, buf, nonce, newNonce, SharedKey(dh, b).value)
  }

  /** `g^b mod prime`, as many bytes as the prime. */
  function PublicPower(dh: Dh, b: bytes): bytes
    requires 2 <= dh.g <= 7
  {
    match BnExp(ToBig(dh.g, 4), b, dh.prime) case None => [] case Some(s) => s
  }

  /** `set_client_DH_params` */
  function ClientMessage(k: Suite, nonce: bytes, serverNonce: bytes, key: bytes, iv: bytes, gB: bytes,
                         padding: bytes): bytes
    requires Sound(k) && |iv| == 32 && |padding| == 16
  {
    ClientDhMessage(k, nonce, serverNonce, key, iv, Hashed(k, ClientInner(nonce, serverNonce, gB), padding))
  }

  /** `dh_gen_ok`, with the retry and fail constructors refused like any other. */
  method CheckDhGen(k: Suite, buf: bytes, nonce: bytes, newNonce: bytes, key: bytes) returns (ok: bool)
    requires Sound(k)
    ensures ok == ConfirmsKey(k, buf, nonce, newNonce, key)
  {
    hide Read32, ReadRaw, NonceHash;
    var r := new TlReader(buf);
    var crc := r.ReadUint32();
    if crc != DH_GEN_OK { return false; }
    var recvNonce := r.ReadRawBytes(16);
    if recvNonce != nonce { return false; }
    var recvServerNonce := r.ReadRawBytes(16);
    var hash := r.ReadRawBytes(16);
    ok := hash == NonceHash(k, newNonce, key);
  }

  /** Both exponentiations fail together: on a zero modulus. */
  lemma BnExpFails(a: bytes, b: bytes, e: bytes, m: bytes)
    ensures BnExp(a, e, m).None? <==> FromBig(m) == 0
    ensures BnExp(b, e, m).None? <==> FromBig(m) == 0
    ensures FromBig(m) > 0 ==> BnExp(b, e, m) == Some(ToBig(ModPow(FromBig(b), FromBig(e), FromBig(m)), |m|))
  {
  }

  lemma PublicPowerIs(dh: Dh, b: bytes)
    requires 2 <= dh.g <= 7 && FromBig(dh.prime) > 0
    ensures PublicPower(dh, b) == ToBig(ModPow(dh.g, FromBig(b), FromBig(dh.prime)), |dh.prime|)
  {
    hide ToBig, FromBig, ModPow;
    assert Capacity(4) == TWO_TO_32;
    BigReadsBack(dh.g, 4);
  }

  method EncryptPlain(k: Suite, key: bytes, iv: bytes, plain: bytes) returns (enc: bytes)
    requires Sound(k) && |iv| == 32 && |plain| % BLOCK == 0
    ensures enc == Encrypted(k.aes(key), iv[..BLOCK], iv[BLOCK..], plain)
  {
    hide Sound, Encrypted, Bijective;
    AesIsBijective(k, key);
    var input := FromSeq(plain);
    var out := new byte[|plain|];
    assert input[..] == input[..|plain|];
    Encrypt(input, |plain|, k.aes(key), iv, out);
    enc := out[..];
    assert out[..] == out[..|plain|];
  }

  method DecryptAnswer(k: Suite, key: bytes, iv: bytes, enc: bytes, junk: bytes) returns (plain: bytes)
    requires Sound(k) && |iv| == 32 && |junk| == |enc|
    ensures plain == DecryptInto(k, key, iv, enc, junk)
  {
    hide Sound, Decrypted, Bijective;
    AesIsBijective(k, key);
    var input := FromSeq(enc);
    var out := FromSeq(junk);
    assert input[..] == input[..|enc|] && out[..] == out[..|enc|];
    Decrypt(input, |enc|, k.aes(key), iv, out);
    plain := out[..];
    assert out[..] == out[..|enc|];
  }

  method ParseDhAnswer(buf: bytes, nonce: bytes, serverNonce: bytes) returns (enc: Option<bytes>)
    ensures enc == ReadDhAnswer(buf, nonce, serverNonce)
  {
    hide Read32, ReadRaw, ReadString;
    var r := new TlReader(buf);
    var crc := r.ReadUint32();
    if crc != SERVER_DH_PARAMS_OK { return None; }
    var recvNonce := r.ReadRawBytes(16);
    if recvNonce != nonce { return None; }
    var recvServerNonce := r.ReadRawBytes(16);
    if recvServerNonce != serverNonce { return None; }
    enc := r.ReadBytes();
    if enc.Some? && enc.value == [] { return None; }
  }

  lemma WordsFit(pq: uint64, p: uint32, q: uint32)
    ensures pq < Capacity(8) && p < Capacity(4) && q < Capacity(4)
  {
    assert Capacity(4) == TWO_TO_32;
    assert Capacity(8) == TWO_TO_64;
  }

  method FindFingerprint(r: TlReader, n: nat, fp: uint64) returns (found: bool)
    modifies r`pos
    ensures found == Listed(r.data, old(r.pos), n, fp)
  {
    hide Read64;
    found := false;
    for i := 0 to n
      invariant Listed(r.data, old(r.pos), n, fp) == (found || Listed(r.data, r.pos, n - i, fp))
    {
      var v := r.ReadUint64();
      if v == fp { found := true; }
    }
  }

  /** The parameters in a reply, from envelope to inner data. */
  function DhParams(k: Suite, buf: bytes, nonce: bytes, serverNonce: bytes, newNonce: bytes,
                    junk: nat -> bytes): Option<Dh>
    requires Sound(k) && |newNonce| == 32 && forall n :: |junk(n)| == n
  {
    match ReadDhAnswer(buf, nonce, serverNonce)
    case None => None
    case Some(enc) =>
      var (key, iv) := TempAes(k, newNonce, serverNonce);
      ReadDhInner(DecryptInto(k, key, iv, enc, junk(|enc|)), nonce, serverNonce)
  }

  method ParseDhInner(plain: bytes, nonce: bytes, serverNonce: bytes) returns (r: Option<Dh>)
    ensures r == ReadDhInner(plain, nonce, serverNonce)
  {
    hide Read32, ReadRaw, ReadString;
    if |plain| < 24 { return None; }
    var inner := new TlReader(plain[20..]);
    var crc := inner.ReadUint32();
    if crc != SERVER_DH_INNER_DATA { return None; }
    var recvNonce := inner.ReadRawBytes(16);
    if recvNonce != nonce { return None; }
    var recvServerNonce := inner.ReadRawBytes(16);
    if recvServerNonce != serverNonce { return None; }
    var word := inner.ReadUint32();
    var g := Signed32(word);
    if g < 2 || g > 7 { return None; }
    var prime := inner.ReadBytes();
    if prime.None? || |prime.value| > 256 { return None; }
    var gA := inner.ReadBytes();
    if gA.None? || |gA.value| > 256 { return None; }
    word := inner.ReadUint32();
    r := Some(Dh(g, prime.value, gA.value, Signed32(word)));
  }

  // ---- the whole run ----

  /** What a run agrees on: the server's nonce, pq, the group with the server's power, the key; and the
      three messages the client sent. */
  datatype Run = Run(serverNonce: bytes, pq: uint64, dh: Dh, key: bytes, sent: seq<bytes>)

  /** The run against a peer when every send succeeds, or None when a check fails. */
  ghost function RunWith(k: Suite, sk: ServerKey, peer: Peer, ch: Chance): Option<Run>
    requires Sound(k) && Drawn(ch)
  {
    match peer([ReqPqMessage(ch.nonce)])
    case None => None
    case Some(resPq) =>
      match ReadResPq(resPq, ch.nonce, sk.fingerprint)
      case None => None
      case Some((serverNonce, pq)) =>
        match DhRequest(k, sk, ch, serverNonce, pq)
        case None => None
        case Some(m) => Agree(k, peer, ch, serverNonce, pq, [ReqPqMessage(ch.nonce), m])
  }

  /** The second half of the run, after the two messages `out`. */
  ghost function Agree(k: Suite, peer: Peer, ch: Chance, serverNonce: bytes, pq: uint64, out: seq<bytes>): Option<Run>
    requires Sound(k) && Drawn(ch)
  {
    match peer(out)
    case None => None
    case Some(dhParams) =>
      match DhParams(k, dhParams, ch.nonce, serverNonce, ch.newNonce, ch.junk)
      case None => None
      case Some(dh) =>
        DhParamsBounds(k, dhParams, ch, serverNonce);
        Confirm(k, peer, ch, serverNonce, pq, dh, out)
  }

  ghost function Confirm(k: Suite, peer: Peer, ch: Chance, serverNonce: bytes, pq: uint64, dh: Dh,
                         out: seq<bytes>): Option<Run>
    requires Sound(k) && Drawn(ch) && 2 <= dh.g <= 7 && |dh.prime| <= 256
  {
    var sent := out + [LastMessage(k, ch, serverNonce, dh)];
    if peer(sent).Some? && Confirmed(k, peer(sent).value, ch.nonce, ch.newNonce, dh, ch.b)
    then Some(Run(serverNonce, pq, dh, SharedKey(dh, ch.b).value, sent)) else None
  }

  /** `set_client_DH_params` under the temporary key of the nonces. */
  function LastMessage(k: Suite, ch: Chance, serverNonce: bytes, dh: Dh): bytes
    requires Sound(k) && Drawn(ch) && 2 <= dh.g <= 7
  {
    var (key, iv) := TempAes(k, ch.newNonce, serverNonce);
    ClientMessage(k, ch.nonce, serverNonce, key, iv, PublicPower(dh, ch.b), ch.dhPadding)
  }

  lemma DhParamsBounds(k: Suite, buf: bytes, ch: Chance, serverNonce: bytes)
    requires Sound(k) && Drawn(ch)
    ensures var r := DhParams(k, buf, ch.nonce, serverNonce, ch.newNonce, ch.junk);
            r.Some? ==> 2 <= r.value.g <= 7 && |r.value.prime| <= 256
  {
    hide Sound, Decrypted, ReadString, Read32, ReadRaw, TempAes;
  }

  /** `mtproto_auth_key_gen`: it succeeds exactly when the sends do and the run against this peer agrees
      on something. Then the session holds the key agreed on and the first salt, and the peer has seen
      the three messages of the run. A run that fails leaves the session as it was. */
  method KeyGen(k: Suite, sk: ServerKey, s: Sessions.Session, l: Link, ch: Chance) returns (ok: bool)
    requires Sound(k) && s.Valid() && Drawn(ch)
    modifies s`authKey, s`hasAuthKey, s`serverSalt, l
    ensures s.Valid()
    ensures !ok ==> unchanged(s)
    ensures ok <==> Sends(old(l.sendResults)) && RunWith(k, sk, Since(Heard(l.peer), old(l.outbox)), ch).Some?
    ensures ok ==> var run := RunWith(k, sk, Since(Heard(l.peer), old(l.outbox)), ch).value;
                   && s.authKey == run.key && s.hasAuthKey && l.outbox == old(l.outbox) + run.sent
                   && |run.serverNonce| == 16 && s.serverSalt == FirstSalt(ch.newNonce, run.serverNonce)
  {
    hide ReadResPq, DhRequest, DhParams, Sound, Drawn, SharedKey, FirstSalt, TempAes, ClientMessage, PublicPower,
         ConfirmsKey, FromBig;
    DrawnSizes(ch);
    ghost var before := l.outbox;
    var ctx := new AuthCtx();
    ok := ctx.ReqPq(sk, l, ch.nonce);
    if !ok { return; }
    ServerNonceSize(Heard(l.peer)(l.outbox).value, ch.nonce, sk.fingerprint);
    ok := ctx.ReqDh(k, sk, l, ch);
    if !ok { return; }
    ghost var out := [ReqPqMessage(ch.nonce), DhRequest(k, sk, ch, ctx.serverNonce, ctx.pq).value];
    assert l.outbox == before + out;
    ok := ctx.ParseDh(k, l, ch.junk);
    if !ok { return; }
    DhParamsBounds(k, Heard(l.peer)(l.outbox).value, ch, ctx.serverNonce);
    SharedKeyExists(ctx.dh, ch.b);
    ghost var last := LastMessage(k, ch, ctx.serverNonce, ctx.dh);
    assert before + out + [last] == before + (out + [last]);
    ok := ctx.SetClientDh(k, s, l, ch.b, ch.dhPadding);
  }

  predicate Sends(results: seq<bool>) {
    |results| >= 3 && results[0] && results[1] && results[2]
  }

  lemma DrawnSizes(ch: Chance)
    requires Drawn(ch)
    ensures |ch.nonce| == 16 && |ch.newNonce| == 32 && |ch.b| == 256 && |ch.rsaPadding| == 235 && |ch.dhPadding| == 16
    ensures forall n :: |ch.junk(n)| == n
  {
  }

  lemma ServerNonceSize(buf: bytes, nonce: bytes, fp: uint64)
    ensures var r := ReadResPq(buf, nonce, fp); r.Some? ==> |r.value.0| == 16
  {
    hide Read32, ReadString, Listed, FromBig;
  }

  lemma SharedKeyExists(dh: Dh, b: bytes)
    requires |dh.prime| <= 256
    ensures SharedKey(dh, b).Some? <==> FromBig(dh.prime) > 0
  {
    hide FromBig, ToBig, ModPow;
  }

  /** What a run that succeeds has checked: both nonces of the first two replies and of the encrypted
      answer, our key among the fingerprints, the generator and the hash that confirms the key. */
  lemma AgreedMeansChecked(k: Suite, sk: ServerKey, peer: Peer, ch: Chance)
    requires Sound(k) && Drawn(ch)
    ensures RunWith(k, sk, peer, ch).Some? ==>
            var run := RunWith(k, sk, peer, ch).value;
            && |run.sent| == 3 && 2 <= run.dh.g <= 7
            && peer(run.sent[..1]).Some? && Carries(peer(run.sent[..1]).value, ch.nonce, run.serverNonce)
            && ListsKey(peer(run.sent[..1]).value, sk.fingerprint)
            && peer(run.sent[..2]).Some? && Carries(peer(run.sent[..2]).value, ch.nonce, run.serverNonce)
            && AnswerCarries(k, peer(run.sent[..2]).value, ch, run.serverNonce)
            && peer(run.sent).Some? && ConfirmsKey(k, peer(run.sent).value, ch.nonce, ch.newNonce, run.key)
  {
    hide Sound, Drawn, ReadResPq, DhRequest, DhParams, TempAes, ConfirmsKey, Carries, SharedKey, LastMessage,
         ListsKey, AnswerCarries;
    if RunWith(k, sk, peer, ch).None? { return; }
    var run := RunWith(k, sk, peer, ch).value;
    assert run.sent[..1] == [ReqPqMessage(ch.nonce)];
    ServerNonceSize(peer(run.sent[..1]).value, ch.nonce, sk.fingerprint);
    ResPqCarries(peer(run.sent[..1]).value, ch.nonce, sk.fingerprint);
    assert run.sent[..2] == [ReqPqMessage(ch.nonce), DhRequest(k, sk, ch, run.serverNonce, run.pq).value];
    DhParamsCarries(k, peer(run.sent[..2]).value, ch, run.serverNonce);
  }

  /** The two nonces behind the constructor. */
  predicate Carries(buf: bytes, nonce: bytes, serverNonce: bytes) {
    |buf| >= 36 && buf[4..20] == nonce && buf[20..36] == serverNonce
  }

  /** The key is one of at most 64 fingerprints listed behind pq. */
  ghost predicate ListsKey(buf: bytes, fp: uint64) {
    match ReadString(buf, 36)
    case None => false
    case Some((_, p)) =>
      var q := After(buf, p, 4);
      Read32(buf, q) <= MAX_FINGERPRINTS && Listed(buf, After(buf, q, 4), Read32(buf, q), fp)
  }

  /** The two nonces stand inside the decrypted answer too, behind its hash. */
  ghost predicate AnswerCarries(k: Suite, buf: bytes, ch: Chance, serverNonce: bytes)
    requires Sound(k) && Drawn(ch)
  {
    match ReadString(buf, 36)
    case None => false
    case Some((enc, _)) =>
      var (key, iv) := TempAes(k, ch.newNonce, serverNonce);
      var plain := DecryptInto(k, key, iv, enc, ch.junk(|enc|));
      |plain| >= 20 && Carries(plain[20..], ch.nonce, serverNonce)
  }

  lemma ResPqCarries(buf: bytes, nonce: bytes, fp: uint64)
    ensures var r := ReadResPq(buf, nonce, fp); r.Some? ==> Carries(buf, nonce, r.value.0) && ListsKey(buf, fp)
  {
    hide StringHead, Listed, FromBig, Word32;
  }

  lemma DhParamsCarries(k: Suite, buf: bytes, ch: Chance, serverNonce: bytes)
    requires Sound(k) && Drawn(ch)
    ensures var r := DhParams(k, buf, ch.nonce, serverNonce, ch.newNonce, ch.junk);
            r.Some? ==> && Carries(buf, ch.nonce, serverNonce) && 2 <= r.value.g <= 7
                        && AnswerCarries(k, buf, ch, serverNonce)
  {
    hide Sound, StringHead, Word32, DecryptInto, TempAes, ReadDhInner;
    DhParamsBounds(k, buf, ch, serverNonce);
    var answer := ReadDhAnswer(buf, ch.nonce, serverNonce);
    if answer.Some? {
      var (key, iv) := TempAes(k, ch.newNonce, serverNonce);
      InnerCarries(DecryptInto(k, key, iv, answer.value, ch.junk(|answer.value|)), ch.nonce, serverNonce);
    }
  }

  lemma InnerCarries(plain: bytes, nonce: bytes, serverNonce: bytes)
    ensures ReadDhInner(plain, nonce, serverNonce).Some? ==> |plain| >= 20 && Carries(plain[20..], nonce, serverNonce)
  {
    hide StringHead, Word32;
  }
}
