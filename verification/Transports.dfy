/** The abridged transport (`src/infrastructure/transport.c`): length-prefixed frames over a byte
    stream whose socket calls may be interrupted, move any number of bytes, or fail. */
module Transports {
  import opened Bytes
  import TlCodec

  /** What one socket call does: it is interrupted (`EINTR`, `EAGAIN`), fails, or moves up to `n`
      of the bytes asked for. */
  datatype Reply = Interrupted | Failed | Moved(n: nat)

  /** No call to come fails, and each that is not interrupted moves at least four bytes if asked. */
  ghost predicate Willing(script: seq<Reply>) {
    forall i :: 0 <= i < |script| ==> script[i].Interrupted? || (script[i].Moved? && script[i].n >= 4)
  }

  /** How many of the calls to come are not interrupted. */
  ghost function Moves(script: seq<Reply>): nat {
    if script == [] then 0 else Moves(script[1..]) + if script[0].Interrupted? then 0 else 1
  }

  /** `rest` is what is left of `whole` at its end. */
  ghost predicate Tail(rest: bytes, whole: bytes) {
    |rest| <= |whole| && rest == whole[|whole| - |rest|..]
  }

  /** Some of `more`, from its start, has been appended to `before`. */
  ghost predicate PartlySent(before: bytes, more: bytes, sent: bytes) {
    |before| <= |sent| <= |before| + |more| && sent == before + more[..|sent| - |before|]
  }

  lemma SentSoFar(before: bytes, more: bytes, n: nat)
    requires n <= |more|
    ensures PartlySent(before, more, before + more[..n]) && before + more[..0] == before
  {
  }

  lemma PrefixSent(before: bytes, prefix: bytes, data: bytes, sent: bytes)
    requires PartlySent(before + prefix, data, sent)
    ensures PartlySent(before, prefix + data, sent)
  {
    var n := |sent| - |before|;
    assert (prefix + data)[..n] == prefix + data[..n - |prefix|];
  }

  class Transport {
    var open: bool
    /** Everything written to the socket so far. */
    var sent: bytes
    /** What the peer has written and this side has not read. */
    var incoming: bytes
    /** What the socket calls to come will do; a call after the last one fails. */
    var script: seq<Reply>

    constructor (open: bool, incoming: bytes, script: seq<Reply>)
      ensures this.open == open && sent == [] && this.incoming == incoming && this.script == script
    {
      this.open, sent, this.incoming, this.script := open, [], incoming, script;
    }

    /** `do n = send(...); while (n < 0 && interrupted)` */
    method SendSome(data: bytes) returns (n: int)
      modifies this`sent, this`script
      ensures n <= |data| && |script| <= |old(script)| && (n > 0 ==> |script| < |old(script)|)
      ensures sent == if n > 0 then old(sent) + data[..n] else old(sent)
      ensures Willing(old(script)) && Moves(old(script)) > 0 ==>
                Willing(script) && Moves(script) == Moves(old(script)) - 1 && (n == |data| || n >= 4)
    {
      while script != [] && script[0].Interrupted?
        invariant sent == old(sent) && |script| <= |old(script)|
        invariant Moves(script) == Moves(old(script)) && (Willing(old(script)) ==> Willing(script))
      {
        script := script[1..];
      }
      if script == [] { return -1; }
      n := match script[0] case Moved(k) => if k <= |data| then k else |data| case _ => -1;
      script := script[1..];
      if n > 0 { sent := sent + data[..n]; }
    }

    /** `do n = recv(...); while (n < 0 && interrupted)`; 0 at the end of the stream. */
    method RecvSome(want: nat) returns (n: int, got: bytes)
      modifies this`incoming, this`script
      ensures n <= want && |script| <= |old(script)| && (n > 0 ==> |script| < |old(script)|)
      ensures n > 0 ==> |got| == n && old(incoming) == got + incoming
      ensures n <= 0 ==> got == [] && incoming == old(incoming)
      ensures Willing(old(script)) && Moves(old(script)) > 0 ==>
                Willing(script) && Moves(script) == Moves(old(script)) - 1
                    && (n == want || n == |old(incoming)| || n >= 4)
    {
      while script != [] && script[0].Interrupted?
        invariant incoming == old(incoming) && |script| <= |old(script)|
        invariant Moves(script) == Moves(old(script)) && (Willing(old(script)) ==> Willing(script))
      {
        script := script[1..];
      }
      if script == [] { return -1, []; }
      n := match script[0] case Moved(k) => if k <= want then k else want case _ => -1;
      if n > |incoming| { n := |incoming|; }
      script := script[1..];
      got := [];
      if n > 0 {
        got := incoming[..n];
        incoming := incoming[n..];
      }
    }

    /** The send loop. */
    method SendPayload(data: bytes) returns (ok: bool)
      modifies this`sent, this`script
      ensures PartlySent(old(sent), data, sent) && (ok ==> sent == old(sent) + data)
      ensures Willing(old(script)) && Moves(old(script)) >= |data| ==>
                ok && Willing(script) && Moves(script) >= Moves(old(script)) - |data|
    {
      hide Willing, Moves;
      ghost var before := sent;
      var total := 0;
      while total < |data|
        invariant total <= |data| && sent == before + data[..total]
        invariant Willing(old(script)) && Moves(old(script)) >= |data| ==>
                  Willing(script) && Moves(script) >= Moves(old(script)) - total
        decreases |script|
      {
        var k := SendSome(data[total..]);
        if k <= 0 { return false; }
        assert data[..total + k] == data[..total] + data[total..][..k];
        total := total + k;
      }
      ok := true;
    }

    /** `transport_send` */
    method Send(data: bytes) returns (ok: bool)
      modifies this`sent, this`script
      ensures ok ==> open && Sendable(data) && sent == old(sent) + Frame(data)
      ensures !ok ==> PartlySent(old(sent), Frame(data), sent)
      ensures !open || !Sendable(data) ==> !ok && sent == old(sent)
      ensures open && Sendable(data) && Willing(old(script)) && Moves(old(script)) > |data| ==>
                ok && Willing(script) && Moves(script) >= Moves(old(script)) - |data| - 1
    {
      hide Prefix, Willing, Moves, PartlySent;
      ghost var before := sent;
      SentSoFar(before, Frame(data), 0);
      if !open || |data| == 0 || |data| % 4 != 0 { return false; }
      var prefix := Prefix(|data| / 4);
      var n := SendSome(prefix);
      if n != |prefix| {
        SentSoFar(before, prefix + data, if n > 0 then n else 0);
        assert n > 0 ==> (prefix + data)[..n] == prefix[..n];
        return false;
      }
      assert prefix[..n] == prefix;
      ok := SendPayload(data);
      PrefixSent(before, prefix, data, sent);
    }

    /** The length prefix, read one byte and, if there are more, three bytes at a time. */
    method RecvLength() returns (ok: bool, words: nat)
      modifies this`incoming, this`script
      ensures ok ==> Length(old(incoming)) == Some((|old(incoming)| - |incoming|, words))
                     && Tail(incoming, old(incoming))
      ensures !ok ==> Tail(incoming, old(incoming))
      ensures Length(old(incoming)).Some? && Willing(old(script)) && Moves(old(script)) > 1 ==>
                ok && Willing(script) && Moves(script) >= Moves(old(script)) - 2
    {
      hide Low24, Willing, Moves;
      ghost var stream := incoming;
      assert stream == stream[0..];
      var r, first := RecvSome(1);
      if r != 1 { return false, 0; }
      assert first[0] == stream[0] && incoming == stream[1..];
      if first[0] < 0x7F { return true, first[0] as int; }
      var extra;
      r, extra := RecvSome(3);
      if r != 3 { return false, 0; }
      assert incoming == stream[4..] && extra == stream[1..4];
      return true, Low24(extra);
    }

    /** The receive loop. */
    method RecvPayload(len: nat) returns (ok: bool, payload: bytes)
      modifies this`incoming, this`script
      ensures ok ==> |payload| == len && old(incoming) == payload + incoming
      ensures !ok ==> Tail(incoming, old(incoming))
      ensures |old(incoming)| >= len && Willing(old(script)) && Moves(old(script)) >= len ==> ok
      ensures Willing(old(script)) && Moves(old(script)) >= len ==>
                Willing(script) && Moves(script) >= Moves(old(script)) - len
    {
      hide Willing, Moves;
      ghost var stream := incoming;
      payload := [];
      while |payload| < len
        invariant |payload| <= len && stream == payload + incoming
        invariant Willing(old(script)) && Moves(old(script)) >= len ==>
                  Willing(script) && Moves(script) >= Moves(old(script)) - |payload|
        decreases |script|
      {
        var r, got := RecvSome(len - |payload|);
        if r <= 0 { return false, []; }
        payload := payload + got;
      }
      ok := true;
    }

    /** `transport_recv` into a buffer of `maxLen` bytes. */
    method Recv(maxLen: nat) returns (ok: bool, payload: bytes)
      modifies this`incoming, this`script
      ensures ok ==> open && Parse(old(incoming), maxLen) == Some((payload, incoming))
      ensures !ok ==> Tail(incoming, old(incoming))
      ensures && open && Parse(old(incoming), maxLen).Some?
              && Willing(old(script)) && Moves(old(script)) > maxLen + 1
              ==> ok && Willing(script) && Moves(script) >= Moves(old(script)) - maxLen - 2
    {
      hide Length, Willing, Moves;
      ghost var stream := incoming;
      if !open { return false, []; }
      var words;
      ok, words := RecvLength();
      if !ok { return false, []; }
      ghost var body := incoming;
      var len := words * 4;
      if len > maxLen { return false, []; }
      ok, payload := RecvPayload(len);
      if ok { Front(stream, |stream| - |body|, payload, incoming); }
    }
  }

  lemma Front(s: bytes, k: nat, a: bytes, b: bytes)
    requires k <= |s| && s[k..] == a + b
    ensures k + |a| <= |s| && s[k..k + |a|] == a && s[k + |a|..] == b
  {
    assert s[k..k + |a|] == s[k..][..|a|];
    assert s[k + |a|..] == s[k..][|a|..];
  }

  // ---- frames ----

  predicate Sendable(data: bytes) {
    |data| > 0 && |data| % 4 == 0
  }

  /** The length in words: one byte below 0x7F, otherwise 0x7F and the low 24 bits. */
  function Prefix(words: nat): (p: bytes)
    ensures |p| == 1 || |p| == 4
  {
    if words < 0x7F then [words as byte]
    else [0x7F, (words % 0x100) as byte, (words / 0x100 % 0x100) as byte, (words / 0x1_0000 % 0x100) as byte]
  }

  function Frame(data: bytes): bytes {
    Prefix(|data| / 4) + data
  }

  function Low24(s: bytes): nat
    requires |s| == 3
  {
    s[0] as int + 0x100 * s[1] as int + 0x1_0000 * s[2] as int
  }

  /** Size of the length prefix at the front of a stream, and the number of words it announces. */
  function Length(s: bytes): (r: Option<(nat, nat)>)
    ensures r.Some? ==> r.value.0 <= |s|
  {
    if s == [] then None
    else if s[0] < 0x7F then Some((1, s[0] as int))
    else if |s| < 4 then None
    else Some((4, Low24(s[1..4])))
  }

  /** The frame at the front of a stream and what follows it. */
  function Parse(s: bytes, maxLen: nat): (r: Option<(bytes, bytes)>) {
    match Length(s)
    case None => None
    case Some((h, words)) =>
      if words * 4 > maxLen || h + words * 4 > |s| then None
      else Some((s[h..h + words * 4], s[h + words * 4..]))
  }

  lemma PrefixReadsBack(words: nat, rest: bytes)
    ensures words < 0x7F ==> Prefix(words) == [words as byte]
    ensures words >= 0x7F ==> var p := Prefix(words); |p| == 4 && p[0] == 0x7F && Low24(p[1..4]) == words % 0x100_0000
  {
    if words >= 0x7F {
      var p := Prefix(words);
      assert p[1..4][0] == p[1] && p[1..4][1] == p[2] && p[1..4][2] == p[3];
      TlCodec.Low24(words);
    }
  }

  /** The bytes of a frame: the number of words in one byte, or 0x7F and three bytes, least significant
      first; then the data. */
  lemma FrameBytes(data: bytes)
    requires |data| % 4 == 0 && |data| < 0x400_0000
    ensures var f, words := Frame(data), |data| / 4;
            && (words < 0x7F ==> f == [words as byte] + data)
            && (words >= 0x7F ==>
                  && |f| == 4 + |data| && f[0] == 0x7F && f[4..] == data
                  && f[1] as int + 0x100 * f[2] as int + 0x1_0000 * f[3] as int == words)
  {
    PrefixReadsBack(|data| / 4, []);
    var p := Prefix(|data| / 4);
    if |data| / 4 >= 0x7F { assert Frame(data)[..4] == p && p[1..4] == [p[1], p[2], p[3]]; }
  }


  /** A frame is read back as it was sent, with the stream resting on the next frame, exactly when
      its payload is shorter than 2^26 bytes: the length prefix holds 24 bits of words. */
  lemma FrameRoundTrip(data: bytes, rest: bytes, maxLen: nat)
    requires Sendable(data) && |data| <= maxLen
    ensures Parse(Frame(data) + rest, maxLen) == Some((data, rest)) <==> |data| < 0x400_0000
  {
    hide Prefix, Low24;
    var words := |data| / 4;
    PrefixReadsBack(words, data);
    var p := Prefix(words);
    var s := Frame(data) + rest;
    assert s == p + data + rest;
    if words < 0x7F {
      assert s[1..1 + |data|] == data && s[1 + |data|..] == rest;
    } else {
      assert s[1..4] == p[1..4];
      assert s[4..4 + |data|] == data && s[4 + |data|..] == rest;
    }
  }

  // ---- whole runs ----

  function Stream(ps: seq<bytes>): bytes {
    if ps == [] then [] else Frame(ps[0]) + Stream(ps[1..])
  }

  function ParseMany(s: bytes, n: nat, maxLen: nat): (r: Option<(seq<bytes>, bytes)>)
    decreases n
  {
    if n == 0 then Some(([], s))
    else match Parse(s, maxLen)
      case None => None
      case Some((p, rest)) => Prepend([p], ParseMany(rest, n - 1, maxLen))
  }

  function Prepend(ps: seq<bytes>, r: Option<(seq<bytes>, bytes)>): Option<(seq<bytes>, bytes)> {
    match r case None => None case Some((qs, end)) => Some((ps + qs, end))
  }

  ghost predicate Deliverable(ps: seq<bytes>, maxLen: nat) {
    forall i :: 0 <= i < |ps| ==> Sendable(ps[i]) && |ps[i]| < 0x400_0000 && |ps[i]| <= maxLen
  }

  lemma {:induction false} StreamReadsBack(ps: seq<bytes>, rest: bytes, maxLen: nat)
    requires Deliverable(ps, maxLen)
    ensures ParseMany(Stream(ps) + rest, |ps|, maxLen) == Some((ps, rest))
  {
    hide Parse, Frame;
    if ps == [] {
      assert Stream(ps) + rest == rest;
    } else {
      var tail := Stream(ps[1..]) + rest;
      assert Stream(ps) + rest == Frame(ps[0]) + tail;
      FrameRoundTrip(ps[0], tail, maxLen);
      StreamReadsBack(ps[1..], rest, maxLen);
      assert [ps[0]] + ps[1..] == ps;
    }
  }

  /** One step of a run: a sends a payload, the network carries bytes on, b receives a payload. */
  datatype Act = Put(payload: bytes) | Carry(n: nat) | Take

  function Puts(acts: seq<Act>): seq<bytes> {
    if acts == [] then []
    else Puts(acts[..|acts| - 1]) + if acts[|acts| - 1].Put? then [acts[|acts| - 1].payload] else []
  }

  function Takes(acts: seq<Act>): nat {
    if acts == [] then 0 else Takes(acts[..|acts| - 1]) + if acts[|acts| - 1].Take? then 1 else 0
  }

  /** How many bytes the network has carried: what it was asked to, as far as it has been sent. */
  function Carried(acts: seq<Act>): nat {
    if acts == [] then 0
    else
      var last, before := acts[|acts| - 1], Carried(acts[..|acts| - 1]);
      if last.Carry? then Min(before + last.n, |Stream(Puts(acts[..|acts| - 1]))|) else before
  }

  function Min(a: nat, b: nat): nat { if a < b then a else b }

  /** The next payload to take has been sent and carried whole. */
  predicate Arrived(acts: seq<Act>) {
    Takes(acts) < |Puts(acts)| && |Stream(Puts(acts)[..Takes(acts) + 1])| <= Carried(acts)
  }

  /** Every payload is taken after it has arrived. */
  predicate Timely(acts: seq<Act>) {
    acts == [] || (Timely(acts[..|acts| - 1]) && (acts[|acts| - 1].Take? ==> Arrived(acts[..|acts| - 1])))
  }

  /** Socket calls enough for all sends, and for all receives, however the transfers are cut. */
  function SendCalls(acts: seq<Act>): nat {
    if acts == [] then 0
    else SendCalls(acts[..|acts| - 1]) + if acts[|acts| - 1].Put? then |acts[|acts| - 1].payload| + 1 else 0
  }

  function RecvCalls(acts: seq<Act>, maxLen: nat): nat {
    if acts == [] then 0 else RecvCalls(acts[..|acts| - 1], maxLen) + if acts[|acts| - 1].Take? then maxLen + 2 else 0
  }

  lemma NextAct(acts: seq<Act>, i: nat, maxLen: nat)
    requires i < |acts|
    ensures var now, next, x := acts[..i], acts[..i + 1], acts[i];
            && Puts(next) == Puts(now) + (if x.Put? then [x.payload] else [])
            && Takes(next) == Takes(now) + (if x.Take? then 1 else 0)
            && Carried(next) == (if x.Carry? then Min(Carried(now) + x.n, |Stream(Puts(now))|) else Carried(now))
            && Timely(next) == (Timely(now) && (x.Take? ==> Arrived(now)))
            && SendCalls(next) == SendCalls(now) + (if x.Put? then |x.payload| + 1 else 0)
            && RecvCalls(next, maxLen) == RecvCalls(now, maxLen) + (if x.Take? then maxLen + 2 else 0)
  {
    hide Stream, Arrived;
    assert acts[..i + 1][..i] == acts[..i];
  }

  /** What holds of a run holds of its starts. */
  lemma {:induction false} Starts(acts: seq<Act>, i: nat, maxLen: nat)
    requires i <= |acts|
    ensures Puts(acts[..i]) <= Puts(acts) && SendCalls(acts[..i]) <= SendCalls(acts)
    ensures RecvCalls(acts[..i], maxLen) <= RecvCalls(acts, maxLen) && (Timely(acts) ==> Timely(acts[..i]))
    decreases |acts| - i
  {
    hide Puts, Timely, SendCalls, RecvCalls, Carried, Takes;
    if i == |acts| {
      assert acts[..i] == acts;
    } else {
      NextAct(acts, i, maxLen);
      Starts(acts, i + 1, maxLen);
    }
  }

  lemma NothingYet(acts: seq<Act>, maxLen: nat)
    ensures var none := acts[..0];
            && Stream([]) == [] && Puts(none) == [] && Takes(none) == 0 && Carried(none) == 0 && Timely(none)
            && SendCalls(none) == 0 && RecvCalls(none, maxLen) == 0
  {
  }

  // ---- what is under way ----

  /** What has been read from the front of a stream does not depend on what arrives later. */
  lemma ParseExtends(s: bytes, more: bytes, maxLen: nat)
    requires Parse(s, maxLen).Some?
    ensures Parse(s + more, maxLen) == Some((Parse(s, maxLen).value.0, Parse(s, maxLen).value.1 + more))
  {
    hide Low24;
    if |s| >= 4 { assert (s + more)[1..4] == s[1..4]; }
    assert Length(s + more) == Length(s);
    var (h, words) := Length(s).value;
    assert (s + more)[h..h + words * 4] == s[h..h + words * 4];
    assert (s + more)[h + words * 4..] == s[h + words * 4..] + more;
  }

  lemma {:induction false} StreamJoins(ps: seq<bytes>, qs: seq<bytes>)
    ensures Stream(ps + qs) == Stream(ps) + Stream(qs)
  {
    hide Frame;
    if ps == [] {
      assert ps + qs == qs;
    } else {
      assert (ps + qs)[1..] == ps[1..] + qs;
      StreamJoins(ps[1..], qs);
    }
  }

  lemma StreamOfOne(p: bytes)
    ensures Stream([p]) == Frame(p)
  {
    hide Frame;
    assert Stream([]) == [];
  }

  /** `sent` is what a wrote for `put`, of which `carried` bytes have reached b and `got` has been taken:
      what b holds and what is on the wire are the frames still to take. */
  ghost predicate Pending(sent: bytes, carried: nat, incoming: bytes, put: seq<bytes>, got: seq<bytes>) {
    && carried <= |sent| && sent == Stream(put) && got <= put
    && incoming + sent[carried..] == Stream(put[|got|..])
  }

  lemma PutKeeps(sent: bytes, carried: nat, incoming: bytes, put: seq<bytes>, got: seq<bytes>, p: bytes)
    requires Pending(sent, carried, incoming, put, got)
    ensures Pending(sent + Frame(p), carried, incoming, put + [p], got)
  {
    hide Frame, Stream;
    StreamOfOne(p);
    StreamJoins(put, [p]);
    StreamJoins(put[|got|..], [p]);
    assert (put + [p])[|got|..] == put[|got|..] + [p];
    assert (sent + Frame(p))[carried..] == sent[carried..] + Frame(p);
  }

  lemma CarryKeeps(sent: bytes, carried: nat, incoming: bytes, put: seq<bytes>, got: seq<bytes>, m: nat)
    requires Pending(sent, carried, incoming, put, got) && carried + m <= |sent|
    ensures Pending(sent, carried + m, incoming + sent[carried..carried + m], put, got)
  {
    hide Stream;
    assert sent[carried..] == sent[carried..carried + m] + sent[carried + m..];
  }

  /** How much b holds beyond what it has taken. */
  lemma HeldBytes(sent: bytes, carried: nat, incoming: bytes, put: seq<bytes>, got: seq<bytes>)
    requires Pending(sent, carried, incoming, put, got)
    ensures |incoming| == carried - |Stream(put[..|got|])|
    ensures |got| < |put| ==> |Stream(put[..|got| + 1])| == |Stream(put[..|got|])| + |Frame(put[|got|])|
  {
    hide Stream, Frame;
    assert put == put[..|got|] + put[|got|..];
    StreamJoins(put[..|got|], put[|got|..]);
    if |got| < |put| {
      assert put[..|got| + 1] == put[..|got|] + [put[|got|]];
      StreamJoins(put[..|got|], [put[|got|]]);
      StreamOfOne(put[|got|]);
    }
  }

  /** A frame that b can take is the first of those under way, and it had arrived. */
  lemma TakeKeeps(sent: bytes, carried: nat, incoming: bytes, put: seq<bytes>, got: seq<bytes>, maxLen: nat)
    requires Pending(sent, carried, incoming, put, got) && Deliverable(put, maxLen) && Parse(incoming, maxLen).Some?
    ensures var (p, rest) := Parse(incoming, maxLen).value;
            && Pending(sent, carried, rest, put, got + [p])
            && |got| < |put| && |Stream(put[..|got| + 1])| <= carried
  {
    hide Parse, Frame, Stream;
    var (p, rest) := Parse(incoming, maxLen).value;
    var ps, wire := put[|got|..], sent[carried..];
    ParseExtends(incoming, wire, maxLen);
    NothingToParse(ps, maxLen);
    FirstFrame(ps);
    FrameRoundTrip(ps[0], Stream(ps[1..]), maxLen);
    assert ps[1..] == put[|got| + 1..];
    HeldBytes(sent, carried, incoming, put, got);
  }

  lemma NothingToParse(ps: seq<bytes>, maxLen: nat)
    ensures ps == [] ==> Parse(Stream(ps), maxLen) == None
  {
  }

  lemma FirstFrame(ps: seq<bytes>)
    ensures ps != [] ==> Stream(ps) == Frame(ps[0]) + Stream(ps[1..])
  {
  }

  /** A frame that has arrived can be taken. */
  lemma TakeReady(sent: bytes, carried: nat, incoming: bytes, put: seq<bytes>, got: seq<bytes>, maxLen: nat)
    requires Pending(sent, carried, incoming, put, got) && Deliverable(put, maxLen)
    requires |got| < |put| && |Stream(put[..|got| + 1])| <= carried
    ensures Parse(incoming, maxLen).Some?
  {
    hide Parse, Frame, Stream;
    var ps, frame := put[|got|..], Frame(put[|got|]);
    HeldBytes(sent, carried, incoming, put, got);
    FirstFrame(ps);
    assert incoming == frame + incoming[|frame|..] by {
      assert incoming[..|frame|] == (incoming + sent[carried..])[..|frame|] == Stream(ps)[..|frame|] == frame;
    }
    FrameRoundTrip(put[|got|], incoming[|frame|..], maxLen);
  }

  /** Sends, receives and the network in any order, with the socket cutting every transfer as it
      likes: what b has received is always the start of what a has sent, and what has been sent and
      not received is on the wire, whole and in order. A run that gets through takes every payload
      after it has arrived; with sockets that are willing, every such run gets through. If as much is
      received as was sent, nothing is left over. */
  method Exchange(a: Transport, b: Transport, acts: seq<Act>, maxLen: nat)
    returns (ok: bool, put: seq<bytes>, got: seq<bytes>, wire: bytes)
    requires a != b && a.sent == [] && b.incoming == [] && Deliverable(Puts(acts), maxLen)
    modifies a`sent, a`script, b`incoming, b`script
    ensures put <= Puts(acts) && got <= put
    ensures ok ==> put == Puts(acts) && |got| == Takes(acts) && b.incoming + wire == Stream(put[|got|..])
    ensures ok && Takes(acts) == |Puts(acts)| ==> got == Puts(acts) && b.incoming == [] && wire == []
    ensures ok ==> Timely(acts)
    ensures a.open && b.open && Willing(old(a.script)) && Moves(old(a.script)) >= SendCalls(acts)
            && Willing(old(b.script)) && Moves(old(b.script)) >= RecvCalls(acts, maxLen)
            ==> (ok <==> Timely(acts))
  {
    hide Deliverable, Stream, Parse, Frame, Puts, Takes, Carried, Timely, SendCalls, RecvCalls, PartlySent, Tail,
         Willing, Moves, Pending;
    put, got, wire := [], [], [];
    var carried := 0;
    ghost var able := a.open && b.open && Willing(a.script) && Moves(a.script) >= SendCalls(acts)
                      && Willing(b.script) && Moves(b.script) >= RecvCalls(acts, maxLen);
    NothingYet(acts, maxLen);
    Untouched(a.sent, b.incoming);
    for i := 0 to |acts|
      invariant put == Puts(acts[..i]) && |got| == Takes(acts[..i]) && carried == Carried(acts[..i])
      invariant put <= Puts(acts) && Timely(acts[..i]) && Pending(a.sent, carried, b.incoming, put, got)
      invariant able ==> && Willing(a.script) && Moves(a.script) + SendCalls(acts[..i]) >= SendCalls(acts)
                         && Willing(b.script)
                         && Moves(b.script) + RecvCalls(acts[..i], maxLen) >= RecvCalls(acts, maxLen)
    {
      NextAct(acts, i, maxLen);
      Starts(acts, i + 1, maxLen);
      match acts[i] {
        case Put(p) =>
          PutKeeps(a.sent, carried, b.incoming, put, got, p);
          LastIsDeliverable(Puts(acts), put, p, maxLen);
          PendingStarts(a.sent, carried, b.incoming, put, got);
          ok := a.Send(p);
          if !ok { return; }
          put := put + [p];
        case Carry(n) =>
          PendingStarts(a.sent, carried, b.incoming, put, got);
          var m := Min(n, |a.sent| - carried);
          CarryKeeps(a.sent, carried, b.incoming, put, got, m);
          b.incoming := b.incoming + a.sent[carried..carried + m];
          carried := carried + m;
        case Take =>
          StartDeliverable(Puts(acts), put, maxLen);
          PendingStarts(a.sent, carried, b.incoming, put, got);
          if Arrived(acts[..i]) { TakeReady(a.sent, carried, b.incoming, put, got, maxLen); }
          if Parse(b.incoming, maxLen).Some? { TakeKeeps(a.sent, carried, b.incoming, put, got, maxLen); }
          var p;
          ok, p := b.Recv(maxLen);
          if !ok { return; }
          got := got + [p];
      }
    }
    assert acts[..|acts|] == acts;
    PendingStarts(a.sent, carried, b.incoming, put, got);
    wire := a.sent[carried..];
    ok := true;
  }

  lemma Untouched(sent: bytes, incoming: bytes)
    requires sent == [] && incoming == []
    ensures Pending(sent, 0, incoming, [], [])
  {
  }

  lemma PendingStarts(sent: bytes, carried: nat, incoming: bytes, put: seq<bytes>, got: seq<bytes>)
    requires Pending(sent, carried, incoming, put, got)
    ensures carried <= |sent| && got <= put && sent == Stream(put) && incoming + sent[carried..] == Stream(put[|got|..])
    ensures |got| == |put| ==> got == put && incoming == [] && sent[carried..] == []
  {
    if |got| == |put| { assert put[|got|..] == []; }
  }

  lemma StartDeliverable(all: seq<bytes>, put: seq<bytes>, maxLen: nat)
    requires Deliverable(all, maxLen) && put <= all
    ensures Deliverable(put, maxLen)
  {
    forall i | 0 <= i < |put| ensures put[i] == all[i] {}
  }

  lemma LastIsDeliverable(all: seq<bytes>, put: seq<bytes>, p: bytes, maxLen: nat)
    requires Deliverable(all, maxLen) && put + [p] <= all
    ensures Sendable(p)
  {
    assert (put + [p])[|put|] == all[|put|];
  }
}
