/** `rpc_parse_container` of `src/infrastructure/mtproto_rpc.c`: splitting a message container into
    its messages without copying them. */
module Containers {
  import opened Bytes
  import opened TlCodec
  import opened TlSerial

  const MSG_CONTAINER: uint32 := 0x73f1f8dc

  /** A message of a container: its numbers and where its body stands in the buffer. */
  datatype Msg = Msg(msgId: uint64, seqNo: uint32, start: nat, len: nat)

  /** The next `n` messages from the cursor on. A header cut short by the end of the buffer reads
      as zeros. */
  function Messages(d: bytes, p: nat, n: nat): (r: Option<seq<Msg>>)
    decreases n
  {
    if n == 0 then Some([])
    else if p >= |d| then None
    else
      var p1 := After(d, p, 8);
      var p2 := After(d, p1, 4);
      var len, start := Read32(d, p2), After(d, p2, 4);
      if len % 4 != 0 || len > |d| - start then None
      else match Messages(d, start + len, n - 1)
        case None => None
        case Some(ms) => Some([Msg(Read64(d, p), Read32(d, p1), start, len)] + ms)
  }

  /** What `rpc_parse_container` fills in: anything else than a container is one message. */
  function Container(d: bytes, maxMsgs: nat): (r: Option<seq<Msg>>) {
    if |d| < 4 then None
    else if Word32(d, 0) != MSG_CONTAINER then
      if maxMsgs < 1 then None else Some([Msg(0, 0, 0, |d| % TWO_TO_32)])
    else
      var n := Read32(d, 4);
      if n > maxMsgs then None else Messages(d, After(d, 4, 4), n)
  }

  method ParseContainer(d: bytes, maxMsgs: nat) returns (ok: bool, msgs: seq<Msg>)
    ensures Container(d, maxMsgs) == if ok then Some(msgs) else None
    ensures ok ==> |msgs| <= maxMsgs
  {
    hide Word32, Read32, Read64, Messages;
    msgs := [];
    if |d| < 4 { return false, []; }
    if Word32(d, 0) != MSG_CONTAINER {
      if maxMsgs < 1 { return false, []; }
      return true, [Msg(0, 0, 0, |d| % TWO_TO_32)];
    }
    var r := new TlReader(d);
    r.Advance(4);
    var n := r.ReadUint32();
    if n > maxMsgs { return false, []; }
    ghost var whole := Messages(d, r.pos, n);
    JoinedNone(whole);
    for i := 0 to n
      invariant r.data == d && r.pos <= |d| && |msgs| == i
      invariant whole == Joined(msgs, Messages(d, r.pos, n - i))
    {
      NextMessage(d, r.pos, n - i);
      if !r.Ok() { return false, []; }
      var msgId := r.ReadUint64();
      var seqNo := r.ReadUint32();
      var len := r.ReadUint32();
      if len % 4 != 0 { return false, []; }
      if len > |d| - r.pos { return false, []; }
      var m := Msg(msgId, seqNo, r.pos, len);
      JoinedTwice(msgs, m, Messages(d, r.pos + len, n - i - 1));
      msgs := msgs + [m];
      r.Advance(len);
    }
    NoMessages(d, r.pos);
    assert msgs + [] == msgs;
    ok := true;
  }

  lemma NextMessage(d: bytes, p: nat, n: nat)
    requires n > 0
    ensures p >= |d| ==> Messages(d, p, n) == None
    ensures p < |d| ==>
              var p1 := After(d, p, 8);
              var p2 := After(d, p1, 4);
              var len, start := Read32(d, p2), After(d, p2, 4);
              Messages(d, p, n) ==
              if len % 4 != 0 || len > |d| - start then None
              else Joined([Msg(Read64(d, p), Read32(d, p1), start, len)], Messages(d, start + len, n - 1))
  {
    hide Read32, Read64;
  }

  lemma JoinedNone(r: Option<seq<Msg>>)
    ensures Joined([], r) == r
  {
    if r.Some? { assert [] + r.value == r.value; }
  }

  function Joined(ms: seq<Msg>, r: Option<seq<Msg>>): Option<seq<Msg>> {
    match r case None => None case Some(rest) => Some(ms + rest)
  }

  lemma JoinedTwice(ms: seq<Msg>, m: Msg, r: Option<seq<Msg>>)
    ensures Joined(ms, Joined([m], r)) == Joined(ms + [m], r)
  {
    if r.Some? { assert ms + ([m] + r.value) == ms + [m] + r.value; }
  }

  // ---- on any bytes ----

  /** The bodies are whole slices of the buffer from `p` on, one after the other, each a multiple
      of four bytes long. */
  ghost predicate Slices(d: bytes, p: nat, ms: seq<Msg>) {
    && (forall i :: 0 <= i < |ms| ==> p <= ms[i].start && ms[i].start + ms[i].len <= |d| && ms[i].len % 4 == 0)
    && (forall i, j :: 0 <= i < j < |ms| ==> ms[i].start + ms[i].len <= ms[j].start)
  }

  lemma {:induction false} MessagesAreSlices(d: bytes, p: nat, n: nat)
    requires p <= |d|
    ensures Messages(d, p, n).Some? ==> |Messages(d, p, n).value| == n && Slices(d, p, Messages(d, p, n).value)
    decreases n
  {
    hide Read32, Read64;
    if n > 0 && p < |d| {
      var p2 := After(d, After(d, p, 8), 4);
      var len, start := Read32(d, p2), After(d, p2, 4);
      if len <= |d| - start { MessagesAreSlices(d, start + len, n - 1); }
    }
  }

  /** Whatever the bytes of a container are, the bodies returned are in bounds, in order, disjoint
      and of four-aligned length. */
  lemma ContainerBodiesAreSlices(d: bytes, maxMsgs: nat)
    requires |d| >= 4 && Word32(d, 0) == MSG_CONTAINER
    ensures Container(d, maxMsgs).Some? ==>
              Slices(d, 8, Container(d, maxMsgs).value) || Container(d, maxMsgs).value == []
  {
    hide Word32, Messages, Slices;
    MessagesAreSlices(d, After(d, 4, 4), Read32(d, 4));
    if |d| < 8 { NoMessages(d, After(d, 4, 4)); }
  }

  lemma NoMessages(d: bytes, p: nat)
    ensures Messages(d, p, 0) == Some([])
  {
  }

  // ---- round trip ----

  datatype Entry = Entry(msgId: uint64, seqNo: uint32, body: bytes)

  predicate Packable(e: Entry) {
    |e.body| % 4 == 0 && |e.body| < TWO_TO_32
  }

  function EncEntry(e: Entry): bytes {
    Enc64(e.msgId) + Enc32(e.seqNo) + Enc32(|e.body|) + e.body
  }

  function EncEntries(es: seq<Entry>): bytes {
    if es == [] then [] else EncEntry(es[0]) + EncEntries(es[1..])
  }

  function EncContainer(es: seq<Entry>): bytes {
    Enc32(MSG_CONTAINER) + Enc32(|es|) + EncEntries(es)
  }

  /** Anything that is no container is one message, which is all of it; a container that announces more than
      the caller takes is refused. */
  lemma OtherBuffers(c: uint32, rest: bytes, maxMsgs: nat, n: uint32)
    ensures c != 0x73f1f8dc && maxMsgs > 0 && |rest| < 0xFFFF_FFFC ==>
              Container(Enc32(c) + rest, maxMsgs) == Some([Msg(0, 0, 0, 4 + |rest|)])
    ensures n > maxMsgs ==> Container(Enc32(0x73f1f8dc) + (Enc32(n) + rest), maxMsgs) == None
  {
    hide Enc32, Word32;
    var d := Enc32(c) + rest;
    assert d[0..4] == Enc32(c);
    Word32OfEnc32(c, d, 0);
    var e := Enc32(0x73f1f8dc) + (Enc32(n) + rest);
    assert e[0..4] == Enc32(0x73f1f8dc) && e[4..8] == Enc32(n);
    Word32OfEnc32(0x73f1f8dc, e, 0);
    Word32OfEnc32(n, e, 4);
  }

  /** The bytes of a container: constructor, count, and each entry as id, sequence number, length, body. */
  lemma ContainerBytes(e: Entry, es: seq<Entry>)
    ensures EncContainer([e] + es) ==
            Enc32(0x73f1f8dc) + (Enc32(1 + |es|)
            + (Enc64(e.msgId) + (Enc32(e.seqNo) + (Enc32(|e.body|) + (e.body + EncEntries(es))))))
  {
    hide Enc32, Enc64, EncEntries;
    FirstEntry(e, es);
    EntryBytes(e, EncEntries(es));
  }

  lemma FirstEntry(e: Entry, es: seq<Entry>)
    ensures EncEntries([e] + es) == EncEntry(e) + EncEntries(es)
  {
    hide EncEntry;
    assert ([e] + es)[1..] == es;
  }

  lemma EntryBytes(e: Entry, rest: bytes)
    ensures EncEntry(e) + rest == Enc64(e.msgId) + (Enc32(e.seqNo) + (Enc32(|e.body|) + (e.body + rest)))
  {
    hide Enc32, Enc64;
  }

  /** The entry a parsed message stands for. */
  function Content(d: bytes, m: Msg): Entry
    requires m.start + m.len <= |d|
  {
    Entry(m.msgId, m.seqNo, d[m.start..m.start + m.len])
  }

  ghost predicate Recovers(d: bytes, p: nat, r: Option<seq<Msg>>, es: seq<Entry>) {
    && r.Some? && |r.value| == |es| && Slices(d, p, r.value)
    && forall i :: 0 <= i < |es| ==> Content(d, r.value[i]) == es[i]
  }

  lemma EntryHead(e: Entry, d: bytes, p: nat)
    requires Packable(e) && At(d, p, EncEntry(e))
    ensures p + 16 + |e.body| <= |d|
    ensures Read64(d, p) == e.msgId && Read32(d, p + 8) == e.seqNo && Read32(d, p + 12) == |e.body|
    ensures d[p + 16..p + 16 + |e.body|] == e.body
  {
    hide Enc32, Enc64, Word32, Word64;
    var a, b, c := Enc64(e.msgId), Enc32(e.seqNo), Enc32(|e.body|);
    AtSplit(d, p, a + b + c, e.body);
    AtSplit(d, p, a + b, c);
    AtSplit(d, p, a, b);
    Word64OfEnc64(e.msgId, d, p);
    Word32OfEnc32(e.seqNo, d, p + 8);
    Word32OfEnc32(|e.body|, d, p + 12);
  }

  lemma {:induction false} EntriesReadBack(es: seq<Entry>, d: bytes, p: nat)
    requires p <= |d| && At(d, p, EncEntries(es)) && forall i :: 0 <= i < |es| ==> Packable(es[i])
    ensures Recovers(d, p, Messages(d, p, |es|), es)
    decreases |es|
  {
    hide Read32, Read64, Enc32, Enc64, At, EncEntry, Messages, Recovers, Slices;
    if es == [] {
      NoMessages(d, p);
      assert Recovers(d, p, Some([]), []) by { NothingToRecover(d, p); }
    } else {
      var e := es[0];
      AtSplit(d, p, EncEntry(e), EncEntries(es[1..]));
      EntryHead(e, d, p);
      EntryLength(e);
      EntriesReadBack(es[1..], d, p + 16 + |e.body|);
      var ms := RecoveredPart(d, p + 16 + |e.body|, Messages(d, p + 16 + |e.body|, |es| - 1), es[1..]);
      NextMessage(d, p, |es|);
      Extend(d, p, Msg(e.msgId, e.seqNo, p + 16, |e.body|), ms, es);
    }
  }

  lemma NothingToRecover(d: bytes, p: nat)
    ensures Recovers(d, p, Some([]), [])
  {
  }

  lemma RecoveredPart(d: bytes, p: nat, r: Option<seq<Msg>>, es: seq<Entry>) returns (ms: seq<Msg>)
    requires Recovers(d, p, r, es)
    ensures r == Some(ms)
  {
    ms := r.value;
  }

  lemma EntryLength(e: Entry)
    ensures |EncEntry(e)| == 16 + |e.body|
  {
  }

  lemma Extend(d: bytes, p: nat, m: Msg, ms: seq<Msg>, es: seq<Entry>)
    requires p <= m.start && m.start + m.len <= |d| && m.len % 4 == 0 && es != [] && Content(d, m) == es[0]
    requires Recovers(d, m.start + m.len, Some(ms), es[1..])
    ensures Recovers(d, p, Some([m] + ms), es)
  {
    var all := [m] + ms;
    forall i | 0 <= i < |all|
      ensures p <= all[i].start && all[i].start + all[i].len <= |d| && all[i].len % 4 == 0
      ensures Content(d, all[i]) == es[i]
    {
      if i > 0 { assert all[i] == ms[i - 1] && es[i] == es[1..][i - 1]; }
    }
    forall i, j | 0 <= i < j < |all| ensures all[i].start + all[i].len <= all[j].start {
      assert all[j] == ms[j - 1];
      if i > 0 { assert all[i] == ms[i - 1]; }
    }
  }

  /** Parsing a container of any entries gives back the same entries, empty bodies included. */
  lemma ContainerRoundTrip(es: seq<Entry>, maxMsgs: nat)
    requires |es| <= maxMsgs && |es| < TWO_TO_32 && forall i :: 0 <= i < |es| ==> Packable(es[i])
    ensures Recovers(EncContainer(es), 8, Container(EncContainer(es), maxMsgs), es)
  {
    hide Enc32, Word32, EncEntries, Recovers, Messages;
    var d := EncContainer(es);
    var head := Enc32(MSG_CONTAINER) + Enc32(|es|);
    assert At(d, 0, head + EncEntries(es)) by { assert d[0..|d|] == d; }
    AtSplit(d, 0, head, EncEntries(es));
    AtSplit(d, 0, Enc32(MSG_CONTAINER), Enc32(|es|));
    Word32OfEnc32(MSG_CONTAINER, d, 0);
    Word32OfEnc32(|es|, d, 4);
    EntriesReadBack(es, d, 8);
  }
}
