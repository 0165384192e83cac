/** The call loop of `src/infrastructure/api_call.c`: send a query, drain service frames until an
    answer arrives, retry once when the server issues a new salt. What `rpc_send_encrypted` and
    `rpc_recv_encrypted` return is the environment. */
module ApiCalls {
  import opened Bytes
  import opened Outcomes
  import opened TlCodec
  import Containers

  const BAD_SERVER_SALT: uint32 := 0xedab447b
  const BAD_MSG_NOTIFICATION: uint32 := 0xa7eff811
  const NEW_SESSION_CREATED: uint32 := 0x9ec20908
  const MSGS_ACK: uint32 := 0x62d6b459
  const PONG: uint32 := 0x347773c5
  const RPC_RESULT: uint32 := 0xf35c6d01
  const GZIP_PACKED: uint32 := 0x3072cfa1

  const CONTAINER_MAX := 16
  const SERVICE_FRAME_LIMIT := 64

  // ---- what a frame is ----

  datatype Kind = Result | BadSalt | Skip | Error

  /** How a frame is classified, and the salts it issues, in the order they are processed. */
  datatype Verdict = Verdict(kind: Kind, salts: seq<uint64>)

  function Classify(f: bytes): (v: Verdict)
    ensures v.kind == BadSalt ==> v.salts != []
    decreases |f|, CONTAINER_MAX + 1
  {
    if |f| < 4 then Verdict(Error, [])
    else if Word32(f, 0) == BAD_SERVER_SALT then
      if |f| < 28 then Verdict(Error, []) else Verdict(BadSalt, [Word64(f, 20)])
    else if Word32(f, 0) == BAD_MSG_NOTIFICATION then Verdict(Error, [])
    else if Word32(f, 0) == NEW_SESSION_CREATED then Verdict(Skip, if |f| >= 28 then [Word64(f, 20)] else [])
    else if Word32(f, 0) == MSGS_ACK || Word32(f, 0) == PONG then Verdict(Skip, [])
    else if Word32(f, 0) == Containers.MSG_CONTAINER then
      var r := Containers.Container(f, CONTAINER_MAX);
      if r.None? then Verdict(Error, []) else (BodiesShrink(f); ClassifyAll(f, r.value))
    else Verdict(Result, [])
  }

  /** The messages of a container, up to the first that is an error or a new salt. */
  function ClassifyAll(f: bytes, ms: seq<Containers.Msg>): (v: Verdict)
    requires |ms| <= CONTAINER_MAX && forall i :: 0 <= i < |ms| ==> Inside(f, ms[i])
    ensures v.kind == BadSalt ==> v.salts != []
    decreases |f|, |ms|
  {
    if ms == [] then Verdict(Skip, [])
    else
      var v := Classify(Part(f, ms[0]));
      if v.kind == Error || v.kind == BadSalt then v
      else
        var rest := ClassifyAll(f, ms[1..]);
        Verdict(if rest.kind == Skip then v.kind else rest.kind, v.salts + rest.salts)
  }

  predicate Inside(f: bytes, m: Containers.Msg) {
    m.start + m.len <= |f| && m.len < |f|
  }

  function Part(f: bytes, m: Containers.Msg): (b: bytes)
    requires Inside(f, m)
    ensures |b| < |f|
  {
    f[m.start..m.start + m.len]
  }

  /** Bodies are shorter than their container, which is why nested containers end. */
  lemma BodiesShrink(f: bytes)
    requires |f| >= 4 && Word32(f, 0) == Containers.MSG_CONTAINER && Containers.Container(f, CONTAINER_MAX).Some?
    ensures var ms := Containers.Container(f, CONTAINER_MAX).value;
            |ms| <= CONTAINER_MAX && forall i :: 0 <= i < |ms| ==> Inside(f, ms[i])
  {
    hide Word32;
    var n := Read32(f, 4);
    Containers.MessagesAreSlices(f, After(f, 4, 4), n);
    if |f| < 8 { Containers.NoMessages(f, After(f, 4, 4)); }
  }

  /** The first message of a container that is an error or asks for a retry. */
  ghost predicate Decides(f: bytes, ms: seq<Containers.Msg>, i: nat)
    requires forall j :: 0 <= j < |ms| ==> Inside(f, ms[j])
  {
    && i < |ms| && Classify(Part(f, ms[i])).kind in {Error, BadSalt}
    && forall j :: 0 <= j < i ==> Classify(Part(f, ms[j])).kind !in {Error, BadSalt}
  }

  /** What the kinds of a container's messages make of the container: the first error or retry request
      decides; otherwise it holds an answer exactly when one of its messages does. */
  lemma {:induction false} ContainerKind(f: bytes, ms: seq<Containers.Msg>)
    requires |ms| <= CONTAINER_MAX && forall i :: 0 <= i < |ms| ==> Inside(f, ms[i])
    ensures var k := ClassifyAll(f, ms).kind;
            && (k == Error || k == BadSalt <==> exists i: nat :: Decides(f, ms, i))
            && (forall i: nat :: Decides(f, ms, i) ==> k == Classify(Part(f, ms[i])).kind)
            && (k == Result ==> exists i :: 0 <= i < |ms| && Classify(Part(f, ms[i])).kind == Result)
            && (k == Skip ==> forall i :: 0 <= i < |ms| ==> Classify(Part(f, ms[i])).kind == Skip)
    decreases |ms|
  {
    hide Classify, Part;
    if ms != [] {
      var rest := ms[1..];
      ContainerKind(f, rest);
      assert forall i :: 0 < i < |ms| ==> ms[i] == rest[i - 1];
      assert forall i :: 0 <= i < |rest| ==> rest[i] == ms[i + 1];
      if Classify(Part(f, ms[0])).kind in {Error, BadSalt} {
        assert Decides(f, ms, 0);
      } else {
        forall i: nat ensures i > 0 && Decides(f, ms, i) ==> Decides(f, rest, i - 1) {}
        forall i: nat ensures Decides(f, rest, i) ==> Decides(f, ms, i + 1) {}
      }
    }
  }

  function Latest(salt: uint64, salts: seq<uint64>): uint64 {
    if salts == [] then salt else salts[|salts| - 1]
  }

  /** A bad_server_salt notice for `salt` stands in the frame, possibly inside containers. */
  ghost predicate NoticeIn(f: bytes, salt: uint64)
    decreases |f|
  {
    || (|f| >= 28 && Word32(f, 0) == BAD_SERVER_SALT && Word64(f, 20) == salt)
    || (|f| >= 4 && Word32(f, 0) == Containers.MSG_CONTAINER && Containers.Container(f, CONTAINER_MAX).Some?
        && exists i :: 0 <= i < |Containers.Container(f, CONTAINER_MAX).value|
                       && Inside(f, Containers.Container(f, CONTAINER_MAX).value[i])
                       && NoticeIn(Part(f, Containers.Container(f, CONTAINER_MAX).value[i]), salt))
  }

  /** When a frame asks for a retry, the salt in force afterwards is the one its notice carries. */
  lemma {:induction false} BadSaltIsNoticed(f: bytes, salt: uint64)
    requires Classify(f).kind == BadSalt
    ensures NoticeIn(f, Latest(salt, Classify(f).salts))
    decreases |f|, CONTAINER_MAX + 1
  {
    hide Word32, Word64;
    if Word32(f, 0) == Containers.MSG_CONTAINER {
      BodiesShrink(f);
      var ms := Containers.Container(f, CONTAINER_MAX).value;
      var i := SaltMessage(f, ms, salt);
      BadSaltIsNoticed(Part(f, ms[i]), salt);
    }
  }

  lemma {:induction false} SaltMessage(f: bytes, ms: seq<Containers.Msg>, salt: uint64) returns (i: nat)
    requires |ms| <= CONTAINER_MAX && forall i :: 0 <= i < |ms| ==> Inside(f, ms[i])
    requires ClassifyAll(f, ms).kind == BadSalt
    ensures i < |ms| && Classify(Part(f, ms[i])).kind == BadSalt
    ensures Latest(salt, Classify(Part(f, ms[i])).salts) == Latest(salt, ClassifyAll(f, ms).salts)
    decreases |ms|
  {
    hide Classify, Part, Inside;
    if Classify(Part(f, ms[0])).kind == BadSalt {
      i := 0;
    } else {
      var j := SaltMessage(f, ms[1..], salt);
      i := j + 1;
    }
  }

  // ---- what an answer is ----

  /** The first rpc_result among the messages of a container. */
  function FirstResult(f: bytes, ms: seq<Containers.Msg>): (r: Option<bytes>)
    requires forall i :: 0 <= i < |ms| ==> Inside(f, ms[i])
  {
    if ms == [] then None
    else if IsResult(Part(f, ms[0])) then Some(Part(f, ms[0]))
    else FirstResult(f, ms[1..])
  }

  predicate IsResult(b: bytes) {
    |b| >= 4 && Word32(b, 0) == RPC_RESULT
  }

  /** The part of an answering frame that is handed on: the rpc_result of a container, without its
      header. */
  function Payload(f: bytes): bytes
    requires |f| >= 4
  {
    if Word32(f, 0) != Containers.MSG_CONTAINER || Containers.Container(f, CONTAINER_MAX).None? then Unwrap(f)
    else
      BodiesShrink(f);
      match FirstResult(f, Containers.Container(f, CONTAINER_MAX).value)
      case None => Unwrap(f)
      case Some(b) => Unwrap(b)
  }

  /** `rpc_unwrap_result`, or the bytes as they are. */
  function Unwrap(b: bytes): bytes {
    if |b| >= 12 && Word32(b, 0) == RPC_RESULT then b[12..] else b
  }

  /** Decompression, which may fail or overrun the buffer. */
  type Inflate = (bytes, nat) -> Option<bytes>

  /** `rpc_unwrap_gzip` */
  function Unzip(b: bytes, maxLen: nat, inflate: Inflate): Option<bytes> {
    if |b| < 4 || Word32(b, 0) != GZIP_PACKED then (if |b| > maxLen then None else Some(b))
    else match ReadString(b, 4)
      case None => None
      case Some((z, _)) => if z == [] then None else inflate(z, maxLen)
  }

  // ---- runs ----

  /** The salt in force after the frames of a run. */
  function SaltAfter(salt: uint64, frames: seq<Option<bytes>>): uint64
    decreases |frames|
  {
    if frames == [] then salt
    else
      var last := frames[|frames| - 1];
      var before := SaltAfter(salt, frames[..|frames| - 1]);
      if last.Some? then Latest(before, Classify(last.value).salts) else before
  }

  /** How a drain of service frames ends. */
  datatype Ending = Failed | Salted | Answered(frame: bytes)

  predicate Service(r: Option<bytes>) {
    r.Some? && Classify(r.value).kind == Skip
  }

  /** A drain reads at most 64 frames. All but the last are service frames; the last one, if it
      is none, decides how the drain ends. */
  ghost predicate Drained(frames: seq<Option<bytes>>, end: Ending) {
    && |frames| <= SERVICE_FRAME_LIMIT
    && (forall i :: 0 <= i < |frames| - 1 ==> Service(frames[i]))
    && match end
       case Salted => frames != [] && frames[|frames| - 1].Some? && Classify(frames[|frames| - 1].value).kind == BadSalt
       case Answered(f) => frames != [] && frames[|frames| - 1] == Some(f) && Classify(f).kind == Result
       case Failed => true
  }

  /** A drain gives up on a failed receive or an error frame, after 64 service frames, or when
      there is nothing more to receive. */
  ghost predicate GaveUp(frames: seq<Option<bytes>>, rest: seq<Option<bytes>>) {
    || (frames != [] && (frames[|frames| - 1].None? || Classify(frames[|frames| - 1].value).kind == Error))
    || ((forall i :: 0 <= i < |frames| ==> Service(frames[i])) && (|frames| == SERVICE_FRAME_LIMIT || rest == []))
  }

  /** An attempt fails when the query is not sent, the drain gives up, or the answer cannot be
      unpacked. */
  ghost predicate AttemptFailed(sent: bool, frames: seq<Option<bytes>>, rest: seq<Option<bytes>>, maxLen: nat,
                                inflate: Inflate) {
    || (!sent && frames == [])
    || GaveUp(frames, rest)
    || exists f :: Drained(frames, Answered(f)) && |f| >= 4 && Unzip(Payload(f), maxLen, inflate) == None
  }

  // ---- the caller ----

  /** A sealed query on its way to the server. */
  datatype Sent = Sent(salt: uint64, query: bytes)

  class Caller {
    var serverSalt: uint64
    /** Queries handed to `rpc_send_encrypted` that it accepted. */
    var sends: seq<Sent>
    /** What `rpc_send_encrypted` will return. */
    var sendResults: seq<bool>
    /** What `rpc_recv_encrypted` will return: frames, or failures. */
    var replies: seq<Option<bytes>>

    method SendEncrypted(query: bytes) returns (ok: bool)
      modifies this`sends, this`sendResults
      ensures ok == Next(old(sendResults)) && sendResults == Rest(old(sendResults))
      ensures sends == if ok then old(sends) + [Sent(serverSalt, query)] else old(sends)
    {
      if sendResults == [] { return false; }
      ok := sendResults[0];
      sendResults := sendResults[1..];
      if ok { sends := sends + [Sent(serverSalt, query)]; }
    }

    method RecvEncrypted() returns (frame: Option<bytes>)
      modifies this`replies
      ensures old(replies) == [] ==> frame == None && replies == []
      ensures old(replies) != [] ==> frame == old(replies)[0] && replies == old(replies)[1..]
    {
      if replies == [] { return None; }
      frame := replies[0];
      replies := replies[1..];
    }

    /** `classify_service_frame`: the kind of a frame, with every salt it issues taken over. */
    method ClassifyFrame(f: bytes) returns (k: Kind)
      modifies this`serverSalt
      ensures k == Classify(f).kind && serverSalt == Latest(old(serverSalt), Classify(f).salts)
      decreases |f|
    {
      hide Word32, Word64;
      if |f| < 4 { return Error; }
      var crc := Word32(f, 0);
      if crc == BAD_SERVER_SALT {
        if |f| < 28 { return Error; }
        serverSalt := Word64(f, 20);
        return BadSalt;
      }
      if crc == BAD_MSG_NOTIFICATION { return Error; }
      if crc == NEW_SESSION_CREATED {
        if |f| >= 28 { serverSalt := Word64(f, 20); }
        return Skip;
      }
      if crc == MSGS_ACK || crc == PONG { return Skip; }
      if crc == Containers.MSG_CONTAINER {
        var ok, msgs := Containers.ParseContainer(f, CONTAINER_MAX);
        if !ok { return Error; }
        BodiesShrink(f);
        k := ClassifyMessages(f, msgs);
        return;
      }
      k := Result;
    }

    method ClassifyMessages(f: bytes, msgs: seq<Containers.Msg>) returns (k: Kind)
      requires |msgs| <= CONTAINER_MAX && forall i :: 0 <= i < |msgs| ==> Inside(f, msgs[i])
      modifies this`serverSalt
      ensures k == ClassifyAll(f, msgs).kind && serverSalt == Latest(old(serverSalt), ClassifyAll(f, msgs).salts)
      decreases |f|, 0
    {
      hide Classify, Inside, ClassifyAll, Resumed, Latest;
      var hasResult := false;
      ghost var done: seq<uint64> := [];
      ghost var before := serverSalt;
      assert msgs[0..] == msgs;
      NothingBehind(before, ClassifyAll(f, msgs));
      for i := 0 to |msgs|
        invariant serverSalt == Latest(before, done)
        invariant ClassifyAll(f, msgs) == Resumed(done, hasResult, ClassifyAll(f, msgs[i..]))
      {
        NextMessage(f, msgs, i, done, hasResult);
        LatestTwice(before, done, Classify(Part(f, msgs[i])).salts);
        var sub := ClassifyFrame(Part(f, msgs[i]));
        done := done + Classify(Part(f, msgs[i])).salts;
        if sub == Error { return Error; }
        if sub == BadSalt { return BadSalt; }
        if sub == Result { hasResult := true; }
      }
      AllBehind(f, msgs, done, hasResult);
      k := if hasResult then Result else Skip;
    }

    /** The receive loop of `api_call_once`. */
    method Drain() returns (end: Ending, ghost frames: seq<Option<bytes>>)
      modifies this`replies, this`serverSalt
      ensures old(replies) == frames + replies
      ensures Drained(frames, end) && serverSalt == SaltAfter(old(serverSalt), frames)
      ensures end == Failed ==> GaveUp(frames, replies)
    {
      hide Classify, Latest;
      frames := [];
      for attempt := 0 to SERVICE_FRAME_LIMIT
        invariant |frames| == attempt && old(replies) == frames + replies
        invariant forall i :: 0 <= i < |frames| ==> Service(frames[i])
        invariant serverSalt == SaltAfter(old(serverSalt), frames)
      {
        ghost var coming := replies;
        var raw := RecvEncrypted();
        ghost var before := frames;
        if coming != [] {
          frames := frames + [raw];
          assert frames[..|frames| - 1] == before && coming == [raw] + replies;
        }
        if raw.None? { return Failed, frames; }
        var kind := ClassifyFrame(raw.value);
        if kind == Error { return Failed, frames; }
        if kind == BadSalt { return Salted, frames; }
        if kind == Result { return Answered(raw.value), frames; }
      }
      return Failed, frames;
    }

    /** `api_call_once`: one send, one drain. */
    method CallOnce(query: bytes, maxLen: nat, inflate: Inflate)
      returns (ok: bool, badSalt: bool, answer: bytes, ghost frames: seq<Option<bytes>>)
      modifies this
      ensures old(replies) == frames + replies && serverSalt == SaltAfter(old(serverSalt), frames)
      ensures sendResults == Rest(old(sendResults))
      ensures sends == if Next(old(sendResults)) then old(sends) + [Sent(old(serverSalt), query)] else old(sends)
      ensures !Next(old(sendResults)) ==> !ok && frames == []
      ensures ok && badSalt ==> Drained(frames, Salted)
      ensures ok && !badSalt ==> AnsweredBy(frames, maxLen, inflate, answer)
      ensures !ok ==> Drained(frames, Failed) && AttemptFailed(Next(old(sendResults)), frames, replies, maxLen, inflate)
    {
      hide Classify, SaltAfter, Payload, Unzip;
      badSalt, answer, frames := false, [], [];
      NoFrames(serverSalt);
      ok := SendEncrypted(query);
      if !ok { return; }
      var end;
      end, frames := Drain();
      if end == Failed { return false, false, [], frames; }
      if end == Salted { return true, true, [], frames; }
      Answers(end.frame);
      var payload := FindPayload(end.frame);
      var unzipped := Unzip(payload, maxLen, inflate);
      if unzipped.None? { return false, false, [], frames; }
      return true, false, unzipped.value, frames;
    }

    /** `api_call`: the query is sent when the first send succeeds, and once more exactly when the
        frames after it end in a retry request and the second send succeeds, then with the salt the
        server asked for. */
    method Call(query: bytes, maxLen: nat, inflate: Inflate)
      returns (ok: bool, answer: bytes, ghost first: seq<Option<bytes>>, ghost second: seq<Option<bytes>>)
      modifies this
      ensures old(replies) == first + second + replies && Drained(first, Failed) && Drained(second, Failed)
      ensures serverSalt == SaltAfter(SaltAfter(old(serverSalt), first), second)
      ensures var r := old(sendResults);
              && sendResults == (if Drained(first, Salted) then Rest(Rest(r)) else Rest(r))
              && sends == old(sends) + Attempts(r, old(serverSalt), first, query)
      ensures !Next(old(sendResults)) ==> !ok && first == []
      ensures Drained(first, Salted) ==> NoticeIn(first[|first| - 1].value, SaltAfter(old(serverSalt), first))
      ensures !Drained(first, Salted) ==>
                && second == []
                && (if ok then AnsweredBy(first, maxLen, inflate, answer)
                    else AttemptFailed(Next(old(sendResults)), first, replies, maxLen, inflate))
      ensures Drained(first, Salted) ==>
                if ok then AnsweredBy(second, maxLen, inflate, answer)
                else Drained(second, Salted)
                     || AttemptFailed(Next(Rest(old(sendResults))), second, replies, maxLen, inflate)
    {
      hide Classify, SaltAfter, Payload, Unzip, GaveUp, NoticeIn, Drained, AnsweredBy, AttemptFailed;
      var badSalt;
      ghost var salt := serverSalt;
      second := [];
      ok, badSalt, answer, first := CallOnce(query, maxLen, inflate);
      AttemptEnds(Next(old(sendResults)), first, replies, maxLen, inflate, answer);
      assert SaltAfter(SaltAfter(salt, first), []) == SaltAfter(salt, first) by { NoFrames(SaltAfter(salt, first)); }
      assert first + [] == first;
      if !ok || !badSalt { return; }
      SaltIsNoticed(salt, first);
      ok, badSalt, answer, second := CallOnce(query, maxLen, inflate);
      AttemptEnds(Next(Rest(old(sendResults))), second, replies, maxLen, inflate, answer);
      if ok && badSalt { return false, [], first, second; }
    }
  }

  /** The queries a call sends when the sends turn out as in `results`. */
  ghost function Attempts(results: seq<bool>, salt: uint64, first: seq<Option<bytes>>, query: bytes): seq<Sent> {
    if !Next(results) then []
    else if Drained(first, Salted) && Next(Rest(results)) then [Sent(salt, query), Sent(SaltAfter(salt, first), query)]
    else [Sent(salt, query)]
  }

  /** An attempt that failed or answered did not end in a retry request, and none goes on behind a frame
      that is no service frame. */
  lemma AttemptEnds(sent: bool, frames: seq<Option<bytes>>, rest: seq<Option<bytes>>, maxLen: nat, inflate: Inflate,
                    answer: bytes)
    ensures AttemptFailed(sent, frames, rest, maxLen, inflate) ==> !Drained(frames, Salted)
    ensures AnsweredBy(frames, maxLen, inflate, answer) ==> !Drained(frames, Salted) && Drained(frames, Failed)
    ensures (Drained(frames, Salted) ==> Drained(frames, Failed)) && Drained([], Failed)
  {
    hide Classify, Payload, Unzip;
  }

  /** After a drain that ends in a retry request, the salt in force is the one of the notice. */
  lemma SaltIsNoticed(salt: uint64, frames: seq<Option<bytes>>)
    requires Drained(frames, Salted)
    ensures NoticeIn(frames[|frames| - 1].value, SaltAfter(salt, frames))
  {
    hide Classify, Latest, NoticeIn;
    BadSaltIsNoticed(frames[|frames| - 1].value, SaltAfter(salt, frames[..|frames| - 1]));
  }

  lemma NoFrames(salt: uint64)
    ensures SaltAfter(salt, []) == salt
  {
  }

  /** The answer is the unpacked payload of the last frame of the drain, which is its first
      frame of kind Result. */
  ghost predicate AnsweredBy(frames: seq<Option<bytes>>, maxLen: nat, inflate: Inflate, answer: bytes) {
    exists f :: Drained(frames, Answered(f)) && |f| >= 4 && Unzip(Payload(f), maxLen, inflate) == Some(answer)
  }

  lemma Answers(f: bytes)
    ensures Classify(f).kind == Result ==> |f| >= 4
  {
  }

  /** The search for the rpc_result of a container. */
  method FindPayload(f: bytes) returns (payload: bytes)
    requires |f| >= 4
    ensures payload == Payload(f)
  {
    hide Word32;
    payload := f;
    if Word32(f, 0) == Containers.MSG_CONTAINER {
      var ok, msgs := Containers.ParseContainer(f, CONTAINER_MAX);
      if ok {
        BodiesShrink(f);
        var i := 0;
        while i < |msgs|
          invariant i <= |msgs| && payload == f
          invariant FirstResult(f, msgs) == FirstResult(f, msgs[i..])
        {
          assert msgs[i..][0] == msgs[i] && msgs[i..][1..] == msgs[i + 1..];
          if msgs[i].len >= 4 && Word32(Part(f, msgs[i]), 0) == RPC_RESULT {
            payload := Part(f, msgs[i]);
            break;
          }
          i := i + 1;
        }
      }
    }
    if |payload| >= 12 && Word32(payload, 0) == RPC_RESULT { payload := payload[12..]; }
  }

  lemma LatestTwice(salt: uint64, a: seq<uint64>, b: seq<uint64>)
    ensures Latest(Latest(salt, a), b) == Latest(salt, a + b)
  {
  }

  lemma NothingBehind(salt: uint64, v: Verdict)
    ensures Resumed([], false, v) == v && Latest(salt, []) == salt
  {
  }

  lemma AllBehind(f: bytes, msgs: seq<Containers.Msg>, done: seq<uint64>, hasResult: bool)
    requires |msgs| <= CONTAINER_MAX
    ensures Resumed(done, hasResult, ClassifyAll(f, msgs[|msgs|..])) ==
            Verdict(if hasResult then Result else Skip, done)
  {
  }

  lemma NextMessage(f: bytes, msgs: seq<Containers.Msg>, i: nat, done: seq<uint64>, hasResult: bool)
    requires i < |msgs| <= CONTAINER_MAX && forall i :: 0 <= i < |msgs| ==> Inside(f, msgs[i])
    ensures var v := Classify(Part(f, msgs[i]));
            Resumed(done, hasResult, ClassifyAll(f, msgs[i..])) ==
            if v.kind == Error || v.kind == BadSalt then Verdict(v.kind, done + v.salts)
            else Resumed(done + v.salts, hasResult || v.kind == Result, ClassifyAll(f, msgs[i + 1..]))
  {
    hide Classify, Inside;
    assert msgs[i..][0] == msgs[i] && msgs[i..][1..] == msgs[i + 1..];
  }

  /** The verdict on a container of which a part, with these salts, is behind. */
  function Resumed(done: seq<uint64>, hasResult: bool, v: Verdict): Verdict {
    Verdict(if v.kind == Skip && hasResult then Result else v.kind, done + v.salts)
  }
}
