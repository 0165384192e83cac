/** An honest responder for the handshake. It knows of the client only the messages the client sent:
    it takes the new nonce out of the encrypted request and the client's power out of the last message.
    The client accepts its replies and both sides end with the same key and salt. */
module HonestServer {
  import opened Bytes
  import opened TlCodec
  import opened Modular
  import opened Ige
  import opened Frames
  import opened Handshake
  import Factor
  import Sessions

  /** What the responder chooses: nonce, the number to factor, its keys' fingerprints, the group,
      its exponent, its clock, padding, and the bytes that the client reads without comparing. */
  datatype Server = Server(nonce: bytes, pq: bytes, fingerprints: seq<uint64>, g: nat, prime: bytes, a: nat,
                           time: uint32, padding: bytes, hash: bytes, lastNonce: bytes)

  ghost predicate Honest(v: Server, sk: ServerKey) {
    && |v.nonce| == 16 && |v.hash| == 20 && |v.lastNonce| == 16 && |v.pq| < 0x100_0000 && |v.padding| == 16
    && |v.fingerprints| <= 64 && sk.fingerprint in v.fingerprints
    && 2 <= v.g <= 7 && |v.prime| <= 256 && FromBig(v.prime) > 0
  }

  // ---- the replies ----

  function EncLongs(fs: seq<uint64>): bytes {
    if fs == [] then [] else Enc64(fs[0]) + EncLongs(fs[1..])
  }

  function ResPq(v: Server, nonce: bytes): bytes {
    Enc32(0x05162463)
        + (nonce + (v.nonce
                    + (EncString(v.pq) + (Enc32(0x1cb5c415) + (Enc32(|v.fingerprints|) + EncLongs(v.fingerprints))))))
  }

  /** The group and `g^a mod prime`, as the client will know them. */
  function Group(v: Server): Dh
    requires FromBig(v.prime) > 0
  {
    Dh(v.g, v.prime, ToBig(ModPow(v.g, v.a, FromBig(v.prime)), |v.prime|), Signed32(v.time))
  }

  function Inner(v: Server, nonce: bytes): bytes
    requires FromBig(v.prime) > 0
  {
    Enc32(0xb5890dba)
        + (nonce + (v.nonce + (Enc32(v.g) + (EncString(v.prime) + (EncString(Group(v).gA) + Enc32(v.time))))))
  }

  function Answer(v: Server, nonce: bytes): (r: bytes)
    requires FromBig(v.prime) > 0 && |v.hash| == 20 && |v.padding| == 16
    ensures |r| % BLOCK == 0
  {
    var inner := Inner(v, nonce);
    v.hash + (inner + v.padding[..BlockPadding(20 + |inner|)])
  }

  function DhParamsOk(k: Suite, v: Server, nonce: bytes, newNonce: bytes): bytes
    requires Sound(k) && FromBig(v.prime) > 0 && |v.hash| == 20 && |v.padding| == 16 && |newNonce| == 32
  {
    var (key, iv) := TempAes(k, newNonce, v.nonce);
    Enc32(0xd0e8075c)
        + (nonce + (v.nonce + EncString(Encrypted(k.aes(key), iv[..BLOCK], iv[BLOCK..], Answer(v, nonce)))))
  }

  /** The key the responder computes from the client's public power. */
  function ServerKeyFor(v: Server, gB: bytes): bytes
    requires FromBig(v.prime) > 0
  {
    ToBig(ModPow(FromBig(gB), v.a, FromBig(v.prime)), AUTH_KEY_SIZE)
  }

  function DhGenOk(k: Suite, v: Server, nonce: bytes, newNonce: bytes, key: bytes): bytes
    requires Sound(k)
  {
    Enc32(0x3bcbf734) + (nonce + (v.lastNonce + NonceHash(k, newNonce, key)))
  }

  /** The replies, spelled out. */
  lemma ReplyBytes(k: Suite, v: Server, nonce: bytes, newNonce: bytes, key: bytes)
    requires Sound(k) && FromBig(v.prime) > 0 && |v.hash| == 20 && |v.padding| == 16 && |newNonce| == 32
    ensures ResPq(v, nonce) ==
            Enc32(0x05162463) + (nonce + (v.nonce + (EncString(v.pq)
            + (Enc32(0x1cb5c415) + (Enc32(|v.fingerprints|) + EncLongs(v.fingerprints))))))
    ensures Inner(v, nonce) ==
            Enc32(0xb5890dba) + (nonce + (v.nonce + (Enc32(v.g) + (EncString(v.prime)
            + (EncString(ToBig(ModPow(v.g, v.a, FromBig(v.prime)), |v.prime|)) + Enc32(v.time))))))
    ensures var (aes, iv) := TempAes(k, newNonce, v.nonce);
            DhParamsOk(k, v, nonce, newNonce) ==
            Enc32(0xd0e8075c) + (nonce + (v.nonce
            + EncString(Encrypted(k.aes(aes), iv[..16], iv[16..], Answer(v, nonce)))))
    ensures DhGenOk(k, v, nonce, newNonce, key) ==
            Enc32(0x3bcbf734) + (nonce + (v.lastNonce + NonceHash(k, newNonce, key)))
  {
    hide Enc32, EncString, EncLongs, TempAes, Encrypted, Answer, NonceHash, ToBig, FromBig, ModPow;
  }

  // ---- what the responder learns ----

  /** RSA is undone by the private key on what the client encrypts: 256 bytes behind a zero. */
  ghost predicate Unlocks(sk: ServerKey, unlock: bytes -> bytes) {
    forall m :: |m| == 256 && m[0] == 0 ==> Unlocked(sk, unlock, m)
  }

  ghost predicate Unlocked(sk: ServerKey, unlock: bytes -> bytes, m: bytes) {
    sk.encrypt(m).Some? && |sk.encrypt(m).value| <= 256 && unlock(sk.encrypt(m).value) == m
  }

  /** `req_DH_params` in the clear: the two factors, the fingerprint and the encrypted data, when both
      nonces are right. */
  function OuterRead(m: bytes, nonce: bytes, serverNonce: bytes): Option<(bytes, bytes, uint64, bytes)> {
    if Read32(m, 0) != 0xd712e4be || ReadRaw(m, 4, 16) != nonce || ReadRaw(m, 20, 16) != serverNonce then None
    else match ReadString(m, 36)
      case None => None
      case Some((p, a)) =>
        match ReadString(m, a)
        case None => None
        case Some((q, b)) =>
          match ReadString(m, b + 8) case None => None case Some((enc, _)) => Some((p, q, Read64(m, b), enc))
  }

  /** `p_q_inner_data`, and where it ends. */
  datatype Inside = Inside(pq: bytes, p: bytes, q: bytes, nonce: bytes, serverNonce: bytes, newNonce: bytes, end: nat)

  function InnerRead(plain: bytes): (r: Option<Inside>)
    ensures r.Some? ==> |r.value.newNonce| == 32
  {
    if Read32(plain, 21) != 0x83c95aec then None
    else match ReadString(plain, 25)
      case None => None
      case Some((pq, a)) =>
        match ReadString(plain, a)
        case None => None
        case Some((p, b)) =>
          match ReadString(plain, b)
          case None => None
          case Some((q, c)) =>
            Some(Inside(pq, p, q, ReadRaw(plain, c, 16), ReadRaw(plain, c + 16, 16), ReadRaw(plain, c + 32, 32),
                        c + 64))
  }

  /** The SHA-1 of the data stands in front of it. */
  predicate HashOk(k: Suite, plain: bytes, from: nat, end: nat) {
    20 <= from <= end <= |plain| && k.sha1(plain[from..end]) == plain[from - 20..from]
  }

  predicate Splits(pq: nat, p: nat, q: nat) {
    1 < p <= q && p * q == pq
  }

  /** The new nonce in `req_DH_params`, when everything in it is right: the nonces outside and inside, one
      of our fingerprints, the zero and the hash in front of the data, pq, and the same two factors
      outside and inside, in order, with product pq. */
  function ReadNewNonce(k: Suite, v: Server, unlock: bytes -> bytes, nonce: bytes, m: bytes): (r: Option<bytes>)
    ensures r.Some? ==> |r.value| == 32
  {
    match OuterRead(m, nonce, v.nonce)
    case None => None
    case Some((p, q, fp, enc)) =>
      var plain := unlock(enc);
      match InnerRead(plain)
      case None => None
      case Some(n) =>
        if plain != [] && plain[0] == 0 && HashOk(k, plain, 21, n.end) && fp in v.fingerprints
           && n.nonce == nonce && n.serverNonce == v.nonce && n.p == p && n.q == q
           && FromBig(n.pq) == FromBig(v.pq) % TWO_TO_64 && Splits(FromBig(n.pq), FromBig(p), FromBig(q))
        then Some(n.newNonce) else None
  }

  /** The power in `set_client_DH_params`, when everything in it is right: the nonces outside and inside,
      the hash in front of the data and the retry id 0. */
  function ReadClientPower(k: Suite, m: bytes, nonce: bytes, serverNonce: bytes, key: bytes, iv: bytes): Option<bytes>
    requires Sound(k) && |iv| == 32
  {
    if Read32(m, 0) != 0xf5045f1f || ReadRaw(m, 4, 16) != nonce || ReadRaw(m, 20, 16) != serverNonce then None
    else match ReadString(m, 36)
      case None => None
      case Some((enc, _)) =>
        if |enc| % BLOCK != 0 then None
        else PowerRead(k, Decrypted(k.aes(key), iv[..BLOCK], iv[BLOCK..], enc), nonce, serverNonce)
  }

  function PowerRead(k: Suite, plain: bytes, nonce: bytes, serverNonce: bytes): Option<bytes> {
    if Read32(plain, 20) != 0x6643b654 || ReadRaw(plain, 24, 16) != nonce || ReadRaw(plain, 40, 16) != serverNonce
       || Read64(plain, 56) != 0 then None
    else match ReadString(plain, 64)
      case None => None
      case Some((gB, end)) => if HashOk(k, plain, 20, end) then Some(gB) else None
  }

  // ---- the responder ----

  ghost predicate Ready(k: Suite, v: Server) {
    Sound(k) && FromBig(v.prime) > 0 && |v.hash| == 20 && |v.padding| == 16
  }

  function ClientNonce(sent: seq<bytes>): (r: bytes)
    requires sent != []
    ensures |r| == 16
  {
    ReadRaw(sent[0], 4, 16)
  }

  /** The new nonce in the second message. */
  function NewNonceOf(k: Suite, v: Server, unlock: bytes -> bytes, sent: seq<bytes>): (r: Option<bytes>)
    requires |sent| >= 2
    ensures r.Some? ==> |r.value| == 32
  {
    ReadNewNonce(k, v, unlock, ClientNonce(sent), sent[1])
  }

  /** The key the responder holds after the client's three messages. */
  function KeyHeld(k: Suite, v: Server, unlock: bytes -> bytes, sent: seq<bytes>): Option<bytes>
    requires Ready(k, v) && |sent| == 3
  {
    match NewNonceOf(k, v, unlock, sent)
    case None => None
    case Some(newNonce) =>
      var (key, iv) := TempAes(k, newNonce, v.nonce);
      match ReadClientPower(k, sent[2], ClientNonce(sent), v.nonce, key, iv)
      case None => None
      case Some(gB) => Some(ServerKeyFor(v, gB))
  }

  /** What the responder answers to the messages so far. */
  function Respond(k: Suite, v: Server, unlock: bytes -> bytes, sent: seq<bytes>): Option<bytes>
    requires Ready(k, v)
  {
    if |sent| == 1 then if Read32(sent[0], 0) == 0xbe7e8ef1 then Some(ResPq(v, ClientNonce(sent))) else None
    else if |sent| == 2 then
      match NewNonceOf(k, v, unlock, sent)
      case None => None
      case Some(newNonce) => Some(DhParamsOk(k, v, ClientNonce(sent), newNonce))
    else if |sent| == 3 && KeyHeld(k, v, unlock, sent).Some? then
      Some(DhGenOk(k, v, ClientNonce(sent), NewNonceOf(k, v, unlock, sent).value, KeyHeld(k, v, unlock, sent).value))
    else None
  }

  function Responder(k: Suite, v: Server, unlock: bytes -> bytes): Peer
    requires Ready(k, v)
  {
    sent => Respond(k, v, unlock, sent)
  }

  // ---- the client accepts them ----

  /** The bytes at the front of what stands at `p`. */
  lemma BytesFirst(d: bytes, p: nat, b: bytes, rest: bytes)
    requires At(d, p, b + rest)
    ensures ReadRaw(d, p, |b|) == b && After(d, p, |b|) == p + |b| && At(d, p + |b|, rest)
  {
    AtSplit(d, p, b, rest);
  }

  lemma StringFirst(d: bytes, p: nat, s: bytes, rest: bytes)
    requires At(d, p, EncString(s) + rest) && |s| < 0x100_0000
    ensures ReadString(d, p) == Some((s, p + |EncString(s)|)) && At(d, p + |EncString(s)|, rest)
  {
    hide EncString, ReadString;
    AtSplit(d, p, EncString(s), rest);
    StringRoundTrip(s, d, p);
  }

  lemma {:induction false} FingerprintListed(fs: seq<uint64>, d: bytes, p: nat, fp: uint64)
    requires At(d, p, EncLongs(fs)) && fp in fs
    ensures Listed(d, p, |fs|, fp)
  {
    hide Enc64, At, Word64;
    AtSplit(d, p, Enc64(fs[0]), EncLongs(fs[1..]));
    assert Read64(d, p) == fs[0] && After(d, p, 8) == p + 8 by { LongAt(d, p, fs[0]); }
    if fs[0] != fp { FingerprintListed(fs[1..], d, p + 8, fp); }
  }

  lemma LongAt(d: bytes, p: nat, w: uint64)
    requires At(d, p, Enc64(w))
    ensures Read64(d, p) == w && After(d, p, 8) == p + 8
  {
    hide Enc64, Word64;
    Word64OfEnc64(w, d, p);
  }

  lemma WholeAt(d: bytes)
    ensures At(d, 0, d)
  {
    assert d[0..|d|] == d;
  }

  lemma ResPqAccepted(v: Server, sk: ServerKey, nonce: bytes)
    requires Honest(v, sk) && |nonce| == 16
    ensures ReadResPq(ResPq(v, nonce), nonce, sk.fingerprint) == Some((v.nonce, FromBig(v.pq) % TWO_TO_64))
  {
    hide At, Enc32, EncString, EncLongs, Read32, ReadRaw, ReadString, After, FromBig, Listed;
    var d := ResPq(v, nonce);
    var r6 := EncLongs(v.fingerprints);
    var r5 := Enc32(|v.fingerprints|) + r6;
    var r4 := Enc32(0x1cb5c415) + r5;
    var r3 := EncString(v.pq) + r4;
    WholeAt(d);
    WordHere(d, 0, 0x05162463, nonce + (v.nonce + r3));
    BytesFirst(d, 4, nonce, v.nonce + r3);
    BytesFirst(d, 20, v.nonce, r3);
    StringFirst(d, 36, v.pq, r4);
    var q := 36 + |EncString(v.pq)|;
    WordHere(d, q, 0x1cb5c415, r5);
    WordHere(d, q + 4, |v.fingerprints|, r6);
    FingerprintListed(v.fingerprints, d, q + 8, sk.fingerprint);
  }

  lemma InnerAccepted(v: Server, sk: ServerKey, nonce: bytes)
    requires Honest(v, sk) && |nonce| == 16
    ensures ReadDhInner(Answer(v, nonce), nonce, v.nonce) == Some(Group(v))
  {
    hide At, Enc32, EncString, Read32, ReadRaw, ReadString, After, FromBig, ToBig, ModPow;
    var gA := Group(v).gA;
    var inner := Inner(v, nonce);
    var pad := v.padding[..BlockPadding(20 + |inner|)];
    var d := Answer(v, nonce)[20..];
    assert d == inner + pad;
    var r5 := EncString(gA) + Enc32(v.time);
    var r4 := EncString(v.prime) + r5;
    var r3 := Enc32(v.g) + r4;
    WholeAt(d);
    AtSplit(d, 0, inner, pad);
    WordHere(d, 0, 0xb5890dba, nonce + (v.nonce + r3));
    BytesFirst(d, 4, nonce, v.nonce + r3);
    BytesFirst(d, 20, v.nonce, r3);
    WordHere(d, 36, v.g, r4);
    StringFirst(d, 40, v.prime, r5);
    var q := 40 + |EncString(v.prime)|;
    StringFirst(d, q, gA, Enc32(v.time));
    assert Enc32(v.time) + [] == Enc32(v.time);
    WordHere(d, q + |EncString(gA)|, v.time, []);
  }

  lemma AnswerSize(v: Server, nonce: bytes)
    requires FromBig(v.prime) > 0 && |v.hash| == 20 && |v.padding| == 16 && |v.prime| <= 256
    requires |v.nonce| == 16 && |nonce| == 16
    ensures 24 <= |Answer(v, nonce)| <= 640
  {
    hide Enc32, EncString, FromBig, ToBig, ModPow;
    StringSize(v.prime);
    StringSize(Group(v).gA);
  }

  /** All replies but the first are short enough for the client. */
  lemma RepliesFit(k: Suite, v: Server, sk: ServerKey, nonce: bytes, newNonce: bytes, key: bytes)
    requires Sound(k) && Honest(v, sk) && |nonce| == 16 && |newNonce| == 32
    ensures |DhParamsOk(k, v, nonce, newNonce)| <= REPLY_MAX && |DhGenOk(k, v, nonce, newNonce, key)| <= REPLY_MAX
  {
    hide Enc32, FromBig, Encrypted, TempAes, Answer, Bijective, Group;
    AnswerSize(v, nonce);
  }

  lemma DhParamsAccepted(k: Suite, v: Server, sk: ServerKey, ch: Chance)
    requires Sound(k) && Honest(v, sk) && Drawn(ch)
    ensures DhParams(k, DhParamsOk(k, v, ch.nonce, ch.newNonce), ch.nonce, v.nonce, ch.newNonce, ch.junk) ==
            Some(Group(v))
  {
    hide Sound, At, Enc32, EncString, Read32, ReadRaw, ReadString, After, FromBig, Encrypted, Decrypted, TempAes,
         ReadDhInner, Answer, Group, Bijective;
    var (key, iv) := TempAes(k, ch.newNonce, v.nonce);
    AesIsBijective(k, key);
    var answer := Answer(v, ch.nonce);
    var enc := Encrypted(k.aes(key), iv[..BLOCK], iv[BLOCK..], answer);
    AnswerSize(v, ch.nonce);
    var d := DhParamsOk(k, v, ch.nonce, ch.newNonce);
    WholeAt(d);
    WordHere(d, 0, 0xd0e8075c, ch.nonce + (v.nonce + EncString(enc)));
    BytesFirst(d, 4, ch.nonce, v.nonce + EncString(enc));
    BytesFirst(d, 20, v.nonce, EncString(enc));
    assert EncString(enc) + [] == EncString(enc);
    StringFirst(d, 36, enc, []);
    IgeIsBijection(k.aes(key), iv, answer);
    InnerAccepted(v, sk, ch.nonce);
  }

  /** Both sides compute the same key. */
  lemma KeysAgree(v: Server, sk: ServerKey, b: bytes)
    requires Honest(v, sk)
    ensures SharedKey(Group(v), b) == Some(ServerKeyFor(v, PublicPower(Group(v), b)))
  {
    hide FromBig, ToBig, ModPow;
    var n, dh := FromBig(v.prime), Group(v);
    var gA, gB := ModPow(v.g, v.a, n), ModPow(v.g, FromBig(b), n);
    ResidueReadsBack(gA, v.prime);
    PublicPowerIs(dh, b);
    ResidueReadsBack(gB, v.prime);
    Modular.Exchange(v.g, v.a, FromBig(b), n);
    var key := ModPow(gA, FromBig(b), n);
    BigBound(v.prime);
    PaddedIsWide(key, |v.prime|, AUTH_KEY_SIZE);
  }

  lemma DhGenAccepted(k: Suite, v: Server, nonce: bytes, newNonce: bytes, key: bytes)
    requires Sound(k) && |nonce| == 16 && |v.lastNonce| == 16
    ensures ConfirmsKey(k, DhGenOk(k, v, nonce, newNonce, key), nonce, newNonce, key)
  {
    hide At, Enc32, Read32, ReadRaw, After;
    var hash := NonceHash(k, newNonce, key);
    var d := DhGenOk(k, v, nonce, newNonce, key);
    WholeAt(d);
    WordHere(d, 0, 0x3bcbf734, nonce + (v.lastNonce + hash));
    BytesFirst(d, 4, nonce, v.lastNonce + hash);
    BytesFirst(d, 20, v.lastNonce, hash);
    assert hash + [] == hash;
    BytesFirst(d, 36, hash, []);
  }

  // ---- the responder reads what the client sent ----

  lemma NonceSent(nonce: bytes, more: seq<bytes>)
    requires |nonce| == 16
    ensures ClientNonce([ReqPqMessage(nonce)] + more) == nonce
    ensures Read32(([ReqPqMessage(nonce)] + more)[0], 0) == 0xbe7e8ef1
  {
    hide At, Enc32, Read32, ReadRaw, After;
    var d := ReqPqMessage(nonce);
    WholeAt(d);
    WordHere(d, 0, 0xbe7e8ef1, nonce);
    assert nonce + [] == nonce;
    BytesFirst(d, 4, nonce, []);
  }

  /** The responder finds everything in the client's request as it should be, and reads the new nonce the
      client drew, exactly when the factors the client found are right. */
  lemma NewNonceArrives(k: Suite, sk: ServerKey, unlock: bytes -> bytes, ch: Chance, v: Server, pq: uint64)
    requires Sound(k) && Drawn(ch) && |v.nonce| == 16 && Unlocks(sk, unlock) && sk.fingerprint in v.fingerprints
    requires pq == FromBig(v.pq) % TWO_TO_64
    ensures DhRequest(k, sk, ch, v.nonce, pq).Some? <==> Factor.Factored(pq).Some?
    ensures Factor.Factored(pq).Some? ==>
              var (p, q) := Factor.Factored(pq).value;
              ReadNewNonce(k, v, unlock, ch.nonce, DhRequest(k, sk, ch, v.nonce, pq).value) ==
              if Splits(pq, p, q) then Some(ch.newNonce) else None
  {
    hide Sound, Drawn, Unlocks, Factor.Factored, Secret, ShortBig, ReqDhMessage, FromBig, InnerRead, OuterRead, HashOk,
         Splits;
    if Factor.Factored(pq).Some? {
      var (p, q) := Factor.Factored(pq).value;
      var secret := Secret(k, ch, v.nonce, pq, p, q);
      SecretUnlocks(k, sk, unlock, ch, v.nonce, pq, p, q);
      InnerReads(k, ch, v.nonce, pq, p, q);
      DrawnSizes(ch);
      FactorSizes(pq, p, q);
      FactorValues(pq, p, q);
      OuterReads(ch.nonce, v.nonce, ShortBig(p, 4), ShortBig(q, 4), sk.fingerprint, sk.encrypt(secret).value);
    }
  }

  /** The request names p and then q, in the clear behind the two nonces: for odd pq two numbers in order
      whose product is pq. */
  lemma FactorsSent(k: Suite, sk: ServerKey, unlock: bytes -> bytes, ch: Chance, serverNonce: bytes, pq: uint64)
    requires Sound(k) && Drawn(ch) && |serverNonce| == 16 && Unlocks(sk, unlock) && Factor.Factored(pq).Some?
    ensures DhRequest(k, sk, ch, serverNonce, pq).Some?
    ensures var r := OuterRead(DhRequest(k, sk, ch, serverNonce, pq).value, ch.nonce, serverNonce);
            && r.Some? && r.value.2 == sk.fingerprint
            && (FromBig(r.value.0), FromBig(r.value.1)) == Factor.Factored(pq).value
            && (pq % 2 == 1 ==> Splits(pq, FromBig(r.value.0), FromBig(r.value.1)))
  {
    hide Sound, Drawn, Unlocks, Factor.Factored, Secret, ShortBig, ReqDhMessage, FromBig, OuterRead;
    var (p, q) := Factor.Factored(pq).value;
    var secret := Secret(k, ch, serverNonce, pq, p, q);
    SecretUnlocks(k, sk, unlock, ch, serverNonce, pq, p, q);
    DrawnSizes(ch);
    FactorSizes(pq, p, q);
    FactorValues(pq, p, q);
    OuterReads(ch.nonce, serverNonce, ShortBig(p, 4), ShortBig(q, 4), sk.fingerprint, sk.encrypt(secret).value);
    if pq % 2 == 1 { Factor.OddFactors(pq); }
  }

  lemma FactorValues(pq: uint64, p: uint32, q: uint32)
    ensures FromBig(ShortBig(pq, 8)) == pq && FromBig(ShortBig(p, 4)) == p && FromBig(ShortBig(q, 4)) == q
  {
    hide ToBig, FromBig, Stripped;
    WordsFit(pq, p, q);
    StrippedValue(ToBig(pq, 8));
    StrippedValue(ToBig(p, 4));
    StrippedValue(ToBig(q, 4));
    BigReadsBack(pq, 8);
    BigReadsBack(p, 4);
    BigReadsBack(q, 4);
  }

  lemma FactorSizes(pq: uint64, p: uint32, q: uint32)
    ensures |ShortBig(pq, 8)| <= 8 && |ShortBig(p, 4)| <= 4 && |ShortBig(q, 4)| <= 4
  {
  }

  lemma SecretUnlocks(k: Suite, sk: ServerKey, unlock: bytes -> bytes, ch: Chance, serverNonce: bytes, pq: uint64,
                      p: uint32, q: uint32)
    requires Sound(k) && Drawn(ch) && |serverNonce| == 16 && Unlocks(sk, unlock)
    ensures Unlocked(sk, unlock, Secret(k, ch, serverNonce, pq, p, q))
  {
    hide Sound, ShortBig, PqInner, Unlocked;
    assert Secret(k, ch, serverNonce, pq, p, q)[0] == 0;
  }

  /** What the responder reads in what it decrypts is what the client put in. */
  lemma InnerReads(k: Suite, ch: Chance, serverNonce: bytes, pq: uint64, p: uint32, q: uint32)
    requires Sound(k) && Drawn(ch) && |serverNonce| == 16
    ensures var plain := Secret(k, ch, serverNonce, pq, p, q);
            && plain[0] == 0 && InnerRead(plain).Some?
            && var n := InnerRead(plain).value;
               && n == Inside(ShortBig(pq, 8), ShortBig(p, 4), ShortBig(q, 4), ch.nonce, serverNonce, ch.newNonce,
                              n.end)
               && HashOk(k, plain, 21, n.end)
  {
    hide Sound, At, Enc32, EncString, ReadRaw, ReadString, ShortBig, After, Read32, PqInner, RsaInput, HashOk;
    var a, b, c := ShortBig(pq, 8), ShortBig(p, 4), ShortBig(q, 4);
    FactorSizes(pq, p, q);
    PqInnerSize(a, b, c, ch.nonce, serverNonce, ch.newNonce);
    var data := PqInner(a, b, c, ch.nonce, serverNonce, ch.newNonce);
    var d := Secret(k, ch, serverNonce, pq, p, q);
    DataInSecret(k, data, ch.rsaPadding);
    NumbersRead(d, a, b, c, ch.nonce, serverNonce, ch.newNonce);
  }

  lemma NumbersRead(d: bytes, a: bytes, b: bytes, c: bytes, nonce: bytes, serverNonce: bytes, newNonce: bytes)
    requires |a| <= 8 && |b| <= 4 && |c| <= 4 && |nonce| == 16 && |serverNonce| == 16 && |newNonce| == 32
    requires At(d, 21, PqInner(a, b, c, nonce, serverNonce, newNonce))
    ensures InnerRead(d) == Some(Inside(a, b, c, nonce, serverNonce, newNonce,
                                        21 + |PqInner(a, b, c, nonce, serverNonce, newNonce)|))
  {
    hide At, Enc32, EncString, ReadRaw, ReadString, After, Read32;
    var r4 := nonce + (serverNonce + newNonce);
    var r3 := EncString(c) + r4;
    var r2 := EncString(b) + r3;
    WordHere(d, 21, 0x83c95aec, EncString(a) + r2);
    StringFirst(d, 25, a, r2);
    var p1 := 25 + |EncString(a)|;
    StringFirst(d, p1, b, r3);
    var p2 := p1 + |EncString(b)|;
    StringFirst(d, p2, c, r4);
    var p3 := p2 + |EncString(c)|;
    BytesFirst(d, p3, nonce, serverNonce + newNonce);
    BytesFirst(d, p3 + 16, serverNonce, newNonce);
    assert newNonce + [] == newNonce;
    BytesFirst(d, p3 + 32, newNonce, []);
  }

  lemma DataInSecret(k: Suite, data: bytes, padding: bytes)
    requires Sound(k) && |data| <= 235 && |padding| == 235
    ensures var d := RsaInput(k, data, padding); d[0] == 0 && At(d, 21, data) && HashOk(k, d, 21, 21 + |data|)
  {
    var d := RsaInput(k, data, padding);
    assert d[21..21 + |data|] == data && d[1..21] == k.sha1(data);
  }

  lemma OuterReads(nonce: bytes, serverNonce: bytes, p: bytes, q: bytes, fp: uint64, enc: bytes)
    requires |nonce| == 16 && |serverNonce| == 16 && |p| <= 4 && |q| <= 4 && |enc| <= 256
    ensures OuterRead(ReqDhMessage(nonce, serverNonce, p, q, fp, enc), nonce, serverNonce) == Some((p, q, fp, enc))
  {
    hide At, Enc32, Enc64, EncString, ReadRaw, ReadString, After, Read32, Read64;
    var d := ReqDhMessage(nonce, serverNonce, p, q, fp, enc);
    var r3 := Enc64(fp) + EncString(enc);
    var r2 := EncString(q) + r3;
    var r1 := EncString(p) + r2;
    WholeAt(d);
    WordHere(d, 0, 0xd712e4be, nonce + (serverNonce + r1));
    BytesFirst(d, 4, nonce, serverNonce + r1);
    BytesFirst(d, 20, serverNonce, r1);
    StringFirst(d, 36, p, r2);
    var p1 := 36 + |EncString(p)|;
    StringFirst(d, p1, q, r3);
    var p2 := p1 + |EncString(q)|;
    BytesFirst(d, p2, Enc64(fp), EncString(enc));
    AtSplit(d, p2, Enc64(fp), EncString(enc));
    LongAt(d, p2, fp);
    assert EncString(enc) + [] == EncString(enc);
    StringFirst(d, p2 + 8, enc, []);
  }

  /** The responder finds everything in the client's last message as it should be, and reads the power the
      client sent. */
  lemma PowerArrives(k: Suite, nonce: bytes, serverNonce: bytes, key: bytes, iv: bytes, gB: bytes, padding: bytes)
    requires Sound(k) && |nonce| == 16 && |serverNonce| == 16 && |iv| == 32 && |padding| == 16 && |gB| <= 256
    ensures ReadClientPower(k, ClientMessage(k, nonce, serverNonce, key, iv, gB, padding), nonce, serverNonce, key, iv)
            == Some(gB)
  {
    hide Sound, At, Enc32, Enc64, EncString, ReadString, ReadRaw, Read32, After, Encrypted, Decrypted, Bijective,
         ClientInner, Hashed, PowerRead;
    AesIsBijective(k, key);
    var data := ClientInner(nonce, serverNonce, gB);
    var plain := Hashed(k, data, padding);
    var enc := Encrypted(k.aes(key), iv[..BLOCK], iv[BLOCK..], plain);
    var m := ClientMessage(k, nonce, serverNonce, key, iv, gB, padding);
    InnerSize(nonce, serverNonce, gB);
    HashedSize(k, data, padding);
    assert m == Enc32(0xf5045f1f) + (nonce + (serverNonce + EncString(enc)));
    WholeAt(m);
    WordHere(m, 0, 0xf5045f1f, nonce + (serverNonce + EncString(enc)));
    BytesFirst(m, 4, nonce, serverNonce + EncString(enc));
    BytesFirst(m, 20, serverNonce, EncString(enc));
    assert EncString(enc) + [] == EncString(enc);
    StringFirst(m, 36, enc, []);
    IgeIsBijection(k.aes(key), iv, plain);
    PowerInside(k, nonce, serverNonce, gB, padding);
  }

  lemma InnerSize(nonce: bytes, serverNonce: bytes, gB: bytes)
    requires |nonce| == 16 && |serverNonce| == 16 && |gB| <= 256
    ensures |ClientInner(nonce, serverNonce, gB)| <= 308
  {
    StringSize(gB);
  }

  lemma StringSize(s: bytes)
    requires |s| <= 256
    ensures |EncString(s)| <= 264
  {
  }

  lemma HashedSize(k: Suite, data: bytes, padding: bytes)
    requires Sound(k) && |padding| == 16
    ensures |Hashed(k, data, padding)| < 36 + |data|
  {
  }

  lemma PowerInside(k: Suite, nonce: bytes, serverNonce: bytes, gB: bytes, padding: bytes)
    requires Sound(k) && |nonce| == 16 && |serverNonce| == 16 && |padding| == 16 && |gB| <= 256
    ensures PowerRead(k, Hashed(k, ClientInner(nonce, serverNonce, gB), padding), nonce, serverNonce) == Some(gB)
  {
    hide At, Enc32, Enc64, EncString, ReadString, ReadRaw, Read32, Read64, After, Hashed, HashOk;
    var data := ClientInner(nonce, serverNonce, gB);
    var d := Hashed(k, data, padding);
    HashedData(k, data, padding);
    var r3 := Enc64(0) + EncString(gB);
    assert data == Enc32(0x6643b654) + (nonce + (serverNonce + r3));
    WordHere(d, 20, 0x6643b654, nonce + (serverNonce + r3));
    BytesFirst(d, 24, nonce, serverNonce + r3);
    BytesFirst(d, 40, serverNonce, r3);
    AtSplit(d, 56, Enc64(0), EncString(gB));
    LongAt(d, 56, 0);
    assert EncString(gB) + [] == EncString(gB);
    StringFirst(d, 64, gB, []);
  }

  lemma HashedData(k: Suite, data: bytes, padding: bytes)
    requires Sound(k) && |padding| == 16
    ensures var d := Hashed(k, data, padding); At(d, 20, data) && HashOk(k, d, 20, 20 + |data|)
  {
    var d := Hashed(k, data, padding);
    assert d[20..20 + |data|] == data && d[..20] == k.sha1(data) && d[0..20] == d[..20];
  }

  // ---- the whole run ----

  /** The client's last message gives the responder the client's key. */
  lemma KeyArrives(k: Suite, sk: ServerKey, unlock: bytes -> bytes, ch: Chance, v: Server, sent: seq<bytes>)
    requires Sound(k) && Honest(v, sk) && Drawn(ch) && |sent| == 3
    requires NewNonceOf(k, v, unlock, sent) == Some(ch.newNonce) && ClientNonce(sent) == ch.nonce
    requires sent[2] == LastMessage(k, ch, v.nonce, Group(v))
    ensures KeyHeld(k, v, unlock, sent).Some? && SharedKey(Group(v), ch.b) == KeyHeld(k, v, unlock, sent)
  {
    hide Sound, FromBig, ReadClientPower, ClientMessage, SharedKey, ServerKeyFor, TempAes, NewNonceOf, BnExp, ModPow,
         ToBig, ClientNonce;
    var (key, iv) := TempAes(k, ch.newNonce, v.nonce);
    var gB := PublicPower(Group(v), ch.b);
    PublicPowerIs(Group(v), ch.b);
    PowerArrives(k, ch.nonce, v.nonce, key, iv, gB, ch.dhPadding);
    KeysAgree(v, sk, ch.b);
  }

  lemma SecondHalf(k: Suite, sk: ServerKey, unlock: bytes -> bytes, ch: Chance, v: Server, pq: uint64, m: bytes)
    requires Sound(k) && Honest(v, sk) && Drawn(ch)
    requires ReadNewNonce(k, v, unlock, ch.nonce, m) == Some(ch.newNonce)
    ensures var out := [ReqPqMessage(ch.nonce), m];
            var sent := out + [LastMessage(k, ch, v.nonce, Group(v))];
            && KeyHeld(k, v, unlock, sent).Some? && NewNonceOf(k, v, unlock, sent) == Some(ch.newNonce)
            && Agree(k, Heard(Responder(k, v, unlock)), ch, v.nonce, pq, out)
               == Some(Run(v.nonce, pq, Group(v), KeyHeld(k, v, unlock, sent).value, sent))
  {
    hide Sound, FromBig, DhParams, KeyHeld, LastMessage, SharedKey, DhGenOk, DhParamsOk, ConfirmsKey, ReadNewNonce,
         ReqPqMessage, ClientNonce, ModPow, ToBig, TempAes, NonceHash;
    DrawnSizes(ch);
    var out := [ReqPqMessage(ch.nonce), m];
    var last := LastMessage(k, ch, v.nonce, Group(v));
    var sent := out + [last];
    assert sent == [ReqPqMessage(ch.nonce)] + [m, last] && out == [ReqPqMessage(ch.nonce)] + [m];
    NonceSent(ch.nonce, [m]);
    NonceSent(ch.nonce, [m, last]);
    DhParamsAccepted(k, v, sk, ch);
    KeyArrives(k, sk, unlock, ch, v, sent);
    RepliesFit(k, v, sk, ch.nonce, ch.newNonce, KeyHeld(k, v, unlock, sent).value);
    DhGenAccepted(k, v, ch.nonce, ch.newNonce, KeyHeld(k, v, unlock, sent).value);
  }

  /** A request that is not right gets no reply. */
  lemma NoSecondHalf(k: Suite, unlock: bytes -> bytes, ch: Chance, v: Server, pq: uint64, m: bytes)
    requires Ready(k, v) && Drawn(ch) && ReadNewNonce(k, v, unlock, ch.nonce, m) == None
    ensures Agree(k, Heard(Responder(k, v, unlock)), ch, v.nonce, pq, [ReqPqMessage(ch.nonce), m]) == None
  {
    hide Sound, FromBig, DhParams, LastMessage, SharedKey, DhParamsOk, ReadNewNonce, ReqPqMessage, ClientNonce, TempAes;
    DrawnSizes(ch);
    var out := [ReqPqMessage(ch.nonce), m];
    assert out == [ReqPqMessage(ch.nonce)] + [m];
    NonceSent(ch.nonce, [m]);
  }

  /** The client can take this responder: its first reply fits, and the client finds the factors of pq. */
  ghost predicate Takes(v: Server, nonce: bytes) {
    var found := Factor.Factored(FromBig(v.pq) % TWO_TO_64);
    |ResPq(v, nonce)| <= REPLY_MAX && found.Some? && Splits(FromBig(v.pq) % TWO_TO_64, found.value.0, found.value.1)
  }

  /** Against an honest responder the run succeeds exactly when the client can take its first reply and
      factor pq, and then the client's key is the one the responder computes from the client's
      messages. */
  lemma HonestRun(k: Suite, sk: ServerKey, unlock: bytes -> bytes, ch: Chance, v: Server)
    requires Sound(k) && Honest(v, sk) && Drawn(ch) && Unlocks(sk, unlock)
    ensures RunWith(k, sk, Heard(Responder(k, v, unlock)), ch).Some? <==> Takes(v, ch.nonce)
    ensures Takes(v, ch.nonce) ==>
              var run := RunWith(k, sk, Heard(Responder(k, v, unlock)), ch).value;
              && run.serverNonce == v.nonce && |run.sent| == 3 && Some(run.key) == KeyHeld(k, v, unlock, run.sent)
              && NewNonceOf(k, v, unlock, run.sent) == Some(ch.newNonce)
  {
    hide Sound, FromBig, ReadResPq, DhRequest, Agree, ResPq, KeyHeld, LastMessage, ReadNewNonce, NewNonceOf, Splits,
         Factor.Factored, Unlocks, ReqPqMessage, ClientNonce, ModPow, ToBig;
    DrawnSizes(ch);
    var pq := FromBig(v.pq) % TWO_TO_64;
    NonceSent(ch.nonce, []);
    assert [ReqPqMessage(ch.nonce)] + [] == [ReqPqMessage(ch.nonce)];
    ResPqAccepted(v, sk, ch.nonce);
    NewNonceArrives(k, sk, unlock, ch, v, pq);
    if Factor.Factored(pq).Some? && Splits(pq, Factor.Factored(pq).value.0, Factor.Factored(pq).value.1) {
      SecondHalf(k, sk, unlock, ch, v, pq, DhRequest(k, sk, ch, v.nonce, pq).value);
    } else if Factor.Factored(pq).Some? {
      NoSecondHalf(k, unlock, ch, v, pq, DhRequest(k, sk, ch, v.nonce, pq).value);
    }
  }

  lemma FromTheStart(k: Suite, sk: ServerKey, peer: Peer, ch: Chance)
    requires Sound(k) && Drawn(ch)
    ensures RunWith(k, sk, Since(peer, []), ch) == RunWith(k, sk, peer, ch)
  {
    hide Sound, Drawn, ReadResPq, DhRequest, DhParams, Confirmed, LastMessage, SharedKey;
    forall sent ensures Since(peer, [])(sent) == peer(sent) { assert [] + sent == sent; }
  }

  /** `mtproto_auth_key_gen` against the honest responder: when the sends succeed and the client can
      take the responder, and only then, both hold the same key and the same first salt. */
  method Meet(k: Suite, sk: ServerKey, unlock: bytes -> bytes, s: Sessions.Session, ch: Chance, v: Server,
              sends: seq<bool>)
    returns (ok: bool, sent: seq<bytes>)
    requires Sound(k) && Honest(v, sk) && Drawn(ch) && Unlocks(sk, unlock) && s.Valid()
    modifies s`authKey, s`hasAuthKey, s`serverSalt
    ensures ok <==> Sends(sends) && Takes(v, ch.nonce)
    ensures ok ==> s.hasAuthKey && |sent| == 3 && Some(s.authKey) == KeyHeld(k, v, unlock, sent)
    ensures ok ==> NewNonceOf(k, v, unlock, sent).Some?
                   && s.serverSalt == FirstSalt(NewNonceOf(k, v, unlock, sent).value, v.nonce)
    ensures !ok ==> unchanged(s)
  {
    hide Sound, FromBig, RunWith, KeyHeld, NewNonceOf, Takes, FirstSalt, Unlocks, Drawn;
    var l := new Link(Responder(k, v, unlock), sends);
    HonestRun(k, sk, unlock, ch, v);
    FromTheStart(k, sk, Heard(Responder(k, v, unlock)), ch);
    ok := KeyGen(k, sk, s, l, ch);
    sent := l.outbox;
    assert ok ==> sent == RunWith(k, sk, Heard(Responder(k, v, unlock)), ch).value.sent;
  }
}
