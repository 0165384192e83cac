/** Sending and receiving MTProto messages (`src/infrastructure/mtproto_rpc.c`): session numbering,
    sealing and framing put together. Clock, random word and padding bytes are inputs. */
module Rpc {
  import opened Bytes
  import opened TlCodec
  import opened Frames
  import S = Sessions
  import T = Transports

  const BUF_SIZE := 0x10_0000

  /** key id 0, message id, length, data. */
  function ClearPacket(msgId: uint64, data: bytes): (p: bytes)
    requires |data| < TWO_TO_32
    ensures |p| == 20 + |data|
  {
    Enc64(0) + Enc64(msgId) + Enc32(|data|) + data
  }

  /** What `rpc_recv_unencrypted` returns for the packet `buf`. */
  function ClearContent(buf: bytes, maxLen: nat): (r: Option<bytes>) {
    if |buf| < 20 || Word32(buf, 16) > maxLen then None else Some(ReadRaw(buf, 20, Word32(buf, 16)))
  }

  /** The bytes of a message in the clear. */
  lemma ClearBytes(msgId: uint64, data: bytes)
    requires |data| < TWO_TO_32
    ensures ClearPacket(msgId, data) == [0, 0, 0, 0, 0, 0, 0, 0] + (Enc64(msgId) + (Enc32(|data|) + data))
  {
    var zero := Enc64(0);
    assert zero == [0, 0, 0, 0, 0, 0, 0, 0];
    assert ClearPacket(msgId, data) == zero + (Enc64(msgId) + (Enc32(|data|) + data));
  }


  lemma ClearRoundTrip(msgId: uint64, data: bytes, maxLen: nat)
    requires |data| < TWO_TO_32
    ensures ClearContent(ClearPacket(msgId, data), maxLen) == if |data| <= maxLen then Some(data) else None
  {
    hide Enc32, Enc64, Word32;
    var p := ClearPacket(msgId, data);
    assert p[16..20] == Enc32(|data|) && p[20..20 + |data|] == data;
    Word32OfEnc32(|data|, p, 16);
  }

  /** `rpc_send_unencrypted` */
  method SendClear(s: S.Session, t: T.Transport, data: bytes, now: uint64, low: uint32) returns (ok: bool)
    requires s.Valid() && |data| < TWO_TO_32
    modifies s`lastMsgId, t`sent, t`script
    ensures s.Valid() && s.lastMsgId == S.NextId(old(s.lastMsgId), now, low)
    ensures ok ==> t.sent == old(t.sent) + T.Frame(ClearPacket(s.lastMsgId, data))
    ensures !t.open || |data| % 4 != 0 ==> !ok && t.sent == old(t.sent)
    ensures t.open && |data| % 4 == 0 && T.Willing(old(t.script)) && T.Moves(old(t.script)) > 20 + |data| ==> ok
  {
    hide S.IsTime, S.NextId, T.Frame, Enc32, Enc64;
    var msgId := s.NextMsgId(now, low);
    ok := t.Send(Enc64(0) + Enc64(msgId) + Enc32(|data|) + data);
  }

  /** `rpc_recv_unencrypted` */
  method RecvClear(t: T.Transport, maxLen: nat) returns (ok: bool, out: bytes)
    modifies t`incoming, t`script
    ensures ok ==> exists buf :: T.Parse(old(t.incoming), BUF_SIZE) == Some((buf, t.incoming))
                                 && ClearContent(buf, maxLen) == Some(out)
    ensures t.open && T.Parse(old(t.incoming), BUF_SIZE).Some? && T.Willing(old(t.script))
            && T.Moves(old(t.script)) > BUF_SIZE + 1
            ==> (ok <==> ClearContent(T.Parse(old(t.incoming), BUF_SIZE).value.0, maxLen).Some?)
  {
    hide T.Parse, Word32, ReadRaw;
    var buf;
    ok, buf := t.Recv(BUF_SIZE);
    if !ok || |buf| < 20 { return false, []; }
    var len := Word32(buf, 16);
    if len > maxLen { return false, []; }
    out := ReadRaw(buf, 20, len);
  }

  /** `rpc_send_encrypted`: nothing happens without a key; otherwise the message is numbered, and if
      it goes out, it goes out as the sealed frame of its header and data. */
  method SendSealed(k: Suite, s: S.Session, t: T.Transport, data: bytes, content: bool, now: uint64, low: uint32,
                    padding: bytes)
    returns (ok: bool)
    requires Sound(k) && s.Valid() && 32 + |data| + 27 <= BUF_SIZE && |padding| == PaddingLength(32 + |data|)
    modifies s`lastMsgId, s`seqNo, t`sent, t`script
    ensures s.Valid()
    ensures !s.hasAuthKey ==> !ok && unchanged(s) && unchanged(t)
    ensures s.hasAuthKey ==>
              s.lastMsgId == S.NextId(old(s.lastMsgId), now, low) && s.seqNo == S.Counted(old(s.seqNo), content)
    ensures ok ==>
              var h := Header(s.serverSalt, s.sessionId, s.lastMsgId, S.SeqNo(old(s.seqNo), content));
              t.sent == old(t.sent) + T.Frame(Wire(k, s.authKey, 0, Inner(h, data) + padding))
    ensures s.hasAuthKey && t.open && T.Willing(old(t.script)) && T.Moves(old(t.script)) > BUF_SIZE + 24 ==> ok
  {
    hide Sound, MsgKey, CipherOf, KeyId, T.Frame, Enc32, Enc64, S.NextId, S.SeqNo, S.Counted;
    if !s.hasAuthKey { return false; }
    var msgId := s.NextMsgId(now, low);
    var seqNo := s.NextSeqNo(content);
    var plain := Inner(Header(s.serverSalt, s.sessionId, msgId, seqNo), data);
    var cipher, msgKey := Seal(k, s.authKey, 0, plain, padding);
    FourAligned(|plain + padding|);
    ok := t.Send(KeyId(k, s.authKey) + msgKey + cipher);
  }

  /** `rpc_recv_encrypted` */
  method RecvSealed(k: Suite, s: S.Session, t: T.Transport, maxLen: nat) returns (ok: bool, out: bytes)
    requires Sound(k) && s.Valid()
    modifies t`incoming, t`script
    ensures !s.hasAuthKey ==> !ok && unchanged(t)
    ensures ok ==> exists buf :: T.Parse(old(t.incoming), BUF_SIZE) == Some((buf, t.incoming))
                                 && Received(k, s.authKey, s.sessionId, 8, maxLen, buf) == Some(out)
    ensures s.hasAuthKey && t.open && T.Parse(old(t.incoming), BUF_SIZE).Some?
            && T.Willing(old(t.script)) && T.Moves(old(t.script)) > BUF_SIZE + 1
            ==> (ok <==>
                 Received(k, s.authKey, s.sessionId, 8, maxLen, T.Parse(old(t.incoming), BUF_SIZE).value.0).Some?)
  {
    hide Sound, Opened, KeyId, T.Parse, Word32, Word64, ReadRaw;
    if !s.hasAuthKey { return false, []; }
    var buf;
    ok, buf := t.Recv(BUF_SIZE);
    if !ok || |buf| < 24 { return false, []; }
    if buf[..8] != KeyId(k, s.authKey) { return false, []; }
    var plain := Open(k, s.authKey, buf[8..24], 8, buf[24..]);
    if plain.None? || |plain.value| < 32 { return false, []; }
    if Word64(plain.value, 8) != s.sessionId { return false, []; }
    var len := Word32(plain.value, 28);
    if len > maxLen { return false, []; }
    out := ReadRaw(plain.value, 32, len);
  }

  /** The channel from end to end: what `SendSealed` puts on the wire, followed by anything, is cut
      off whole by the receiving transport and opens to the data that was sent. */
  lemma ChannelRoundTrip(k: Suite, authKey: bytes, x: Direction, h: Header, data: bytes, padding: bytes, rest: bytes,
                         maxLen: nat)
    requires Sound(k) && |authKey| == AUTH_KEY_SIZE && 24 + 32 + |data| + 27 <= BUF_SIZE && |data| <= maxLen
    requires |padding| == PaddingLength(32 + |data|)
    ensures var f := Wire(k, authKey, x, Inner(h, data) + padding);
            && T.Parse(T.Frame(f) + rest, BUF_SIZE) == Some((f, rest))
            && Received(k, authKey, h.sessionId, x, maxLen, f) == Some(data)
  {
    hide Sound, Wire, Received, T.Parse, T.Frame;
    SealedFrameRoundTrip(k, authKey, x, maxLen, h, data, padding);
    T.FrameRoundTrip(Wire(k, authKey, x, Inner(h, data) + padding), rest, BUF_SIZE);
  }
}
