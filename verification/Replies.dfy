/** The frames a server sends, written out as bytes, and what the call loop of
    `src/infrastructure/api_call.c` makes of them. */
module Replies {
  import opened ApiCalls
  import opened Bytes
  import opened Outcomes
  import opened TlCodec
  import Containers

  // ---- single frames ----

  /** The constructor at the front of a frame. */
  lemma Front(c: uint32, rest: bytes)
    ensures var f := Enc32(c) + rest; |f| == 4 + |rest| && Word32(f, 0) == c && f[4..] == rest
  {
    hide Enc32, Word32;
    var f := Enc32(c) + rest;
    assert f[0..4] == Enc32(c);
    Word32OfEnc32(c, f, 0);
  }

  /** A long number in a frame. */
  lemma LongAt(f: bytes, p: nat, v: uint64)
    requires p + 8 <= |f| && f[p..p + 8] == Enc64(v)
    ensures Word64(f, p) == v
  {
    hide Enc64, Word64;
    Word64OfEnc64(v, f, p);
  }

  /** rpc_result is an answer, and what is handed on is its body. */
  lemma ResultAnswers(id: uint64, body: bytes)
    ensures var f := Enc32(0xf35c6d01) + (Enc64(id) + body);
            Classify(f) == Verdict(Result, []) && Payload(f) == body
  {
    hide Enc32, Enc64, Word32;
    var f := Enc32(0xf35c6d01) + (Enc64(id) + body);
    Front(0xf35c6d01, Enc64(id) + body);
    assert f[12..] == body;
  }

  /** bad_server_salt asks for a retry with the salt it carries behind the bad id, its number and the
      error code; without it, it is an error. */
  lemma BadSaltRetries(badId: uint64, badSeq: uint32, code: uint32, salt: uint64, rest: bytes, cut: bytes)
    requires |cut| < 24
    ensures Classify(Enc32(0xedab447b) + (Enc64(badId) + (Enc32(badSeq) + (Enc32(code) + (Enc64(salt) + rest))))) ==
            Verdict(BadSalt, [salt])
    ensures Classify(Enc32(0xedab447b) + cut) == Verdict(Error, [])
  {
    hide Enc32, Enc64, Word32, Word64;
    var tail := Enc64(badId) + (Enc32(badSeq) + (Enc32(code) + (Enc64(salt) + rest)));
    Front(0xedab447b, tail);
    Front(0xedab447b, cut);
    var f := Enc32(0xedab447b) + tail;
    assert f[20..28] == Enc64(salt);
    LongAt(f, 20, salt);
  }

  /** new_session_created is skipped, and its salt, behind the first id and the unique id, is taken over. */
  lemma NewSessionSalts(firstId: uint64, uniqueId: uint64, salt: uint64, rest: bytes, cut: bytes)
    requires |cut| < 24
    ensures Classify(Enc32(0x9ec20908) + (Enc64(firstId) + (Enc64(uniqueId) + (Enc64(salt) + rest)))) ==
            Verdict(Skip, [salt])
    ensures Classify(Enc32(0x9ec20908) + cut) == Verdict(Skip, [])
  {
    hide Enc32, Enc64, Word32, Word64;
    var tail := Enc64(firstId) + (Enc64(uniqueId) + (Enc64(salt) + rest));
    Front(0x9ec20908, tail);
    Front(0x9ec20908, cut);
    var f := Enc32(0x9ec20908) + tail;
    assert f[20..28] == Enc64(salt);
    LongAt(f, 20, salt);
  }

  /** msgs_ack and pong are skipped, bad_msg_notification is an error, and so is less than a word.
      Whatever else it is, container apart, a frame is an answer as it stands. */
  lemma OtherFrames(c: uint32, rest: bytes, short: bytes)
    requires |short| < 4
    ensures Classify(Enc32(0x62d6b459) + rest) == Verdict(Skip, []) == Classify(Enc32(0x347773c5) + rest)
    ensures Classify(Enc32(0xa7eff811) + rest) == Verdict(Error, []) == Classify(short)
    ensures c !in {0xf35c6d01, 0xedab447b, 0x9ec20908, 0x62d6b459, 0x347773c5, 0xa7eff811, 0x73f1f8dc} ==>
              Classify(Enc32(c) + rest) == Verdict(Result, []) && Payload(Enc32(c) + rest) == Enc32(c) + rest
  {
    hide Enc32, Word32;
    Front(0x62d6b459, rest);
    Front(0x347773c5, rest);
    Front(0xa7eff811, rest);
    Front(c, rest);
  }

  /** gzip_packed is unpacked; any other body is handed on as it is, if it fits. */
  lemma Unpacked(z: bytes, rest: bytes, body: bytes, maxLen: nat, inflate: Inflate)
    requires 0 < |z| < 0x100_0000
    ensures Unzip(Enc32(0x3072cfa1) + (EncString(z) + rest), maxLen, inflate) == inflate(z, maxLen)
    ensures |body| < 4 || body[..4] != Enc32(0x3072cfa1) ==>
              Unzip(body, maxLen, inflate) == if |body| <= maxLen then Some(body) else None
  {
    hide Enc32, EncString, Word32, ReadString;
    var f := Enc32(0x3072cfa1) + (EncString(z) + rest);
    Front(0x3072cfa1, EncString(z) + rest);
    assert f[4..4 + |EncString(z)|] == EncString(z);
    StringRoundTrip(z, f, 4);
    if |body| >= 4 { Enc32OfWord32(body, 0); }
  }

  // ---- containers ----

  /** The messages of an encoded container are its entries. */
  lemma EntriesOf(es: seq<Containers.Entry>) returns (ms: seq<Containers.Msg>)
    requires |es| <= 16 && forall i :: 0 <= i < |es| ==> Containers.Packable(es[i])
    ensures var f := Containers.EncContainer(es);
            && |f| >= 4 && Word32(f, 0) == 0x73f1f8dc && Containers.Container(f, CONTAINER_MAX) == Some(ms)
            && |ms| == |es| && forall i :: 0 <= i < |es| ==> Inside(f, ms[i]) && Part(f, ms[i]) == es[i].body
  {
    hide Word32, Enc32, Containers.EncEntries, Containers.Container;
    var f := Containers.EncContainer(es);
    Containers.ContainerRoundTrip(es, CONTAINER_MAX);
    var r := Containers.Container(f, CONTAINER_MAX);
    ms := r.value;
    var tail := Enc32(|es|) + Containers.EncEntries(es);
    assert f == Enc32(0x73f1f8dc) + tail;
    Front(0x73f1f8dc, tail);
    BodiesShrink(f);
    forall i | 0 <= i < |es| ensures Part(f, ms[i]) == es[i].body {
      assert Containers.Content(f, ms[i]) == es[i];
    }
  }

  /** A container of more than sixteen messages is an error. */
  lemma LargeContainer(n: uint32, rest: bytes)
    requires n > 16
    ensures Classify(Enc32(0x73f1f8dc) + (Enc32(n) + rest)) == Verdict(Error, [])
  {
    hide Enc32, Word32;
    Front(0x73f1f8dc, Enc32(n) + rest);
    Containers.OtherBuffers(0, rest, 16, n);
  }

  /** A container without errors and retry requests that holds an rpc_result hands on the body of the
      first one. */
  lemma ContainerAnswers(es: seq<Containers.Entry>, k: nat, id: uint64, body: bytes)
    requires |es| <= 16 && forall i :: 0 <= i < |es| ==> Containers.Packable(es[i])
    requires forall i :: 0 <= i < |es| ==> Classify(es[i].body).kind in {Skip, Result}
    requires k < |es| && es[k].body == Enc32(0xf35c6d01) + (Enc64(id) + body)
    requires forall i :: 0 <= i < k ==> !IsResult(es[i].body)
    ensures var f := Containers.EncContainer(es); |f| >= 4 && Classify(f).kind == Result && Payload(f) == body
  {
    hide Word32, Enc32, Enc64, Containers.EncContainer, Part, ClassifyAll, IsResult;
    var f := Containers.EncContainer(es);
    var ms := EntriesOf(es);
    ResultAnswers(id, body);
    ContainerKind(f, ms);
    assert forall i: nat :: !Decides(f, ms, i);
    assert Classify(Part(f, ms[k])).kind == Result;
    assert Classify(f) == ClassifyAll(f, ms) by { ContainerVerdict(f, ms); }
    assert IsResult(es[k].body) by { ResultIsResult(id, body); }
    FirstIs(f, ms, k);
    ContainerPayload(f, ms);
    assert Unwrap(es[k].body) == body by { Unwrapped(id, body); }
  }

  lemma ContainerVerdict(f: bytes, ms: seq<Containers.Msg>)
    requires |f| >= 4 && Word32(f, 0) == 0x73f1f8dc && Containers.Container(f, CONTAINER_MAX) == Some(ms)
    requires |ms| <= CONTAINER_MAX && forall i :: 0 <= i < |ms| ==> Inside(f, ms[i])
    ensures Classify(f) == ClassifyAll(f, ms)
  {
    hide Word32, Containers.Container, ClassifyAll;
  }

  lemma ContainerPayload(f: bytes, ms: seq<Containers.Msg>)
    requires |f| >= 4 && Word32(f, 0) == 0x73f1f8dc && Containers.Container(f, CONTAINER_MAX) == Some(ms)
    requires forall i :: 0 <= i < |ms| ==> Inside(f, ms[i])
    ensures FirstResult(f, ms).Some? ==> Payload(f) == Unwrap(FirstResult(f, ms).value)
  {
    hide Word32, Containers.Container, FirstResult, Unwrap;
  }

  lemma ResultIsResult(id: uint64, body: bytes)
    ensures IsResult(Enc32(0xf35c6d01) + (Enc64(id) + body))
  {
    hide Enc32, Enc64, Word32;
    Front(0xf35c6d01, Enc64(id) + body);
  }

  lemma Unwrapped(id: uint64, body: bytes)
    ensures Unwrap(Enc32(0xf35c6d01) + (Enc64(id) + body)) == body
  {
    hide Enc32, Enc64, Word32;
    var f := Enc32(0xf35c6d01) + (Enc64(id) + body);
    Front(0xf35c6d01, Enc64(id) + body);
    assert f[12..] == body;
  }

  lemma {:induction false} FirstIs(f: bytes, ms: seq<Containers.Msg>, k: nat)
    requires k < |ms| && forall i :: 0 <= i < |ms| ==> Inside(f, ms[i])
    requires IsResult(Part(f, ms[k])) && forall i :: 0 <= i < k ==> !IsResult(Part(f, ms[i]))
    ensures FirstResult(f, ms) == Some(Part(f, ms[k]))
    decreases |ms|
  {
    hide IsResult, Part;
    if k > 0 {
      assert forall i :: 0 <= i < |ms| - 1 ==> ms[1..][i] == ms[i + 1];
      FirstIs(f, ms[1..], k - 1);
    }
  }

  // ---- whole calls ----

  /** A drain that has not failed, or has given up, with nothing taken for granted about where it stopped. */
  ghost predicate Over(frames: seq<Option<bytes>>, rest: seq<Option<bytes>>, maxLen: nat, inflate: Inflate,
                       answer: bytes) {
    && Drained(frames, Failed)
    && (|| AnsweredBy(frames, maxLen, inflate, answer) || Drained(frames, Salted)
        || AttemptFailed(true, frames, rest, maxLen, inflate))
  }

  /** A drain does not stop at a service frame while there is more to receive. */
  lemma NotAtService(frames: seq<Option<bytes>>, rest: seq<Option<bytes>>, maxLen: nat, inflate: Inflate, answer: bytes)
    requires Over(frames, rest, maxLen, inflate, answer) && rest != [] && |frames| < 64
    ensures frames != [] && !Service(frames[|frames| - 1])
  {
    hide Classify, Payload, Unzip;
  }

  /** The frames a drain takes are determined: if service frames, fewer than 64, come in front of one that
      is none, they are those and that one. */
  lemma DrainTakes(frames: seq<Option<bytes>>, rest: seq<Option<bytes>>, pre: seq<Option<bytes>>, f: bytes,
                   more: seq<Option<bytes>>, maxLen: nat, inflate: Inflate, answer: bytes)
    requires frames + rest == pre + [Some(f)] + more && |pre| < 64 && Classify(f).kind in {Result, BadSalt}
    requires (forall i :: 0 <= i < |pre| ==> Service(pre[i])) && Over(frames, rest, maxLen, inflate, answer)
    ensures frames == pre + [Some(f)] && rest == more
  {
    hide Classify, Payload, Unzip, AnsweredBy, AttemptFailed;
    var all := pre + [Some(f)] + more;
    var n := |pre|;
    assert forall i :: 0 <= i < |frames| ==> frames[i] == all[i];
    assert all[n] == Some(f) && forall i :: 0 <= i < n ==> all[i] == pre[i];
    if rest != [] && |frames| < 64 { NotAtService(frames, rest, maxLen, inflate, answer); }
    assert |frames| > n;
    assert |frames| <= n + 1;
    assert (frames + rest)[..n + 1] == frames && (frames + rest)[n + 1..] == rest;
    assert all[..n + 1] == pre + [Some(f)] && all[n + 1..] == more;
  }

  /** A call whose reply comes after fewer than 64 service frames returns the body of the reply, unpacked;
      it fails exactly when the body cannot be unpacked or is too long. */
  method Ask(c: Caller, query: bytes, pre: seq<Option<bytes>>, id: uint64, body: bytes,
             more: seq<Option<bytes>>, maxLen: nat, inflate: Inflate)
    returns (ok: bool, answer: bytes)
    requires Next(c.sendResults) && |pre| < 64 && forall i :: 0 <= i < |pre| ==> Service(pre[i])
    requires c.replies == pre + [Some(Enc32(0xf35c6d01) + (Enc64(id) + body))] + more
    modifies c
    ensures ok <==> Unzip(body, maxLen, inflate).Some?
    ensures ok ==> Some(answer) == Unzip(body, maxLen, inflate)
    ensures c.replies == more && c.sends == old(c.sends) + [Sent(old(c.serverSalt), query)]
  {
    hide Classify, Payload, Unzip, Drained, AnsweredBy, AttemptFailed, SaltAfter, Enc32, Enc64, Service;
    var f := Enc32(0xf35c6d01) + (Enc64(id) + body);
    ResultAnswers(id, body);
    ghost var first, second;
    ok, answer, first, second := c.Call(query, maxLen, inflate);
    assert first + (second + c.replies) == pre + [Some(f)] + more;
    assert second == [] ==> second + c.replies == c.replies;
    DrainTakes(first, second + c.replies, pre, f, more, maxLen, inflate, answer);
    ResultEnds(first, pre, f, maxLen, inflate, answer, c.replies);
  }

  /** A call whose first reply, after fewer than 64 service frames, asks for a new salt, and whose next one
      after fewer than 64 service frames is the result, sends the query again with that salt and returns
      the body of the result. */
  method AskAgain(c: Caller, query: bytes, pre: seq<Option<bytes>>, badId: uint64, badSeq: uint32, code: uint32,
                  salt: uint64, rest: bytes, mid: seq<Option<bytes>>, id: uint64, body: bytes, more: seq<Option<bytes>>,
                  maxLen: nat, inflate: Inflate)
    returns (ok: bool, answer: bytes)
    requires Next(c.sendResults) && Next(Rest(c.sendResults)) && |pre| < 64 && |mid| < 64
    requires (forall i :: 0 <= i < |pre| ==> Service(pre[i])) && forall i :: 0 <= i < |mid| ==> Service(mid[i])
    requires c.replies == pre + [Some(Enc32(0xedab447b)
                                      + (Enc64(badId) + (Enc32(badSeq) + (Enc32(code) + (Enc64(salt) + rest)))))]
                          + (mid + [Some(Enc32(0xf35c6d01) + (Enc64(id) + body))] + more)
    modifies c
    ensures ok <==> Unzip(body, maxLen, inflate).Some?
    ensures ok ==> Some(answer) == Unzip(body, maxLen, inflate)
    ensures c.replies == more
    ensures c.sends == old(c.sends) + [Sent(old(c.serverSalt), query), Sent(salt, query)]
  {
    hide Classify, Payload, Unzip, Drained, AnsweredBy, AttemptFailed, SaltAfter, Enc32, Enc64, Service, NoticeIn;
    ghost var was := c.serverSalt;
    ghost var g := Enc32(0xedab447b) + (Enc64(badId) + (Enc32(badSeq) + (Enc32(code) + (Enc64(salt) + rest))));
    ghost var f := Enc32(0xf35c6d01) + (Enc64(id) + body);
    BadSaltRetries(badId, badSeq, code, salt, rest, []);
    ResultAnswers(id, body);
    ghost var first, second;
    ok, answer, first, second := c.Call(query, maxLen, inflate);
    ghost var tail := mid + [Some(f)] + more;
    assert first + (second + c.replies) == pre + [Some(g)] + tail;
    assert second == [] ==> second + c.replies == c.replies;
    DrainTakes(first, second + c.replies, pre, g, tail, maxLen, inflate, answer);
    SaltEnds(first, pre, g, salt, was);
    DrainTakes(second, c.replies, mid, f, more, maxLen, inflate, answer);
    ResultEnds(second, mid, f, maxLen, inflate, answer, c.replies);
  }

  /** How a drain that ends in an answering frame turns out. */
  lemma ResultEnds(frames: seq<Option<bytes>>, pre: seq<Option<bytes>>, f: bytes, maxLen: nat, inflate: Inflate,
                   answer: bytes, rest: seq<Option<bytes>>)
    requires frames == pre + [Some(f)] && Classify(f).kind == Result && |f| >= 4
    ensures !Drained(frames, Salted)
    ensures AnsweredBy(frames, maxLen, inflate, answer) ==> Unzip(Payload(f), maxLen, inflate) == Some(answer)
    ensures AttemptFailed(true, frames, rest, maxLen, inflate) ==> Unzip(Payload(f), maxLen, inflate) == None
  {
    hide Classify, Payload, Unzip, Drained, GaveUp;
    EndsIn(frames, pre, f, rest);
    if AnsweredBy(frames, maxLen, inflate, answer) {
      var g :| Drained(frames, Answered(g)) && |g| >= 4 && Unzip(Payload(g), maxLen, inflate) == Some(answer);
      AnswerIs(frames, pre, f, g);
    }
    if AttemptFailed(true, frames, rest, maxLen, inflate) {
      var g :| Drained(frames, Answered(g)) && |g| >= 4 && Unzip(Payload(g), maxLen, inflate) == None;
      AnswerIs(frames, pre, f, g);
    }
  }

  lemma EndsIn(frames: seq<Option<bytes>>, pre: seq<Option<bytes>>, f: bytes, rest: seq<Option<bytes>>)
    requires frames == pre + [Some(f)] && Classify(f).kind == Result
    ensures !Drained(frames, Salted) && !GaveUp(frames, rest)
  {
    hide Classify;
    assert frames[|frames| - 1] == Some(f);
  }

  lemma AnswerIs(frames: seq<Option<bytes>>, pre: seq<Option<bytes>>, f: bytes, g: bytes)
    requires frames == pre + [Some(f)] && Drained(frames, Answered(g))
    ensures g == f
  {
    hide Classify;
    assert frames[|frames| - 1] == Some(f);
  }

  /** The salt after a drain that ends in a retry request. */
  lemma SaltEnds(frames: seq<Option<bytes>>, pre: seq<Option<bytes>>, g: bytes, salt: uint64, was: uint64)
    requires frames == pre + [Some(g)] && Classify(g) == Verdict(BadSalt, [salt]) && Drained(frames, Failed)
    ensures Drained(frames, Salted) && SaltAfter(was, frames) == salt
  {
    hide Classify;
    assert frames[|frames| - 1] == Some(g);
  }
}
