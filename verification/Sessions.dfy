/** The MTProto session: identifiers, counters, key and salt (`src/core/mtproto_session.c`), and
    how message ids and sequence numbers run over the life of one session id. */
module Sessions {
  import opened Bytes

  /** `(now << 32) | (low & ~3)` in 64 bits. */
  function Stamp(now: uint64, low: uint32): (id: uint64)
    ensures id % 4 == 0
  {
    assert now % TWO_TO_32 * TWO_TO_32 == 4 * (now % TWO_TO_32 * 0x4000_0000);
    now % TWO_TO_32 * TWO_TO_32 + low / 4 * 4
  }

  /** The id after `last`: the stamp if it is newer, otherwise the next multiple of four, which
      wraps to 0 after the last one. */
  function NextId(last: uint64, now: uint64, low: uint32): (id: uint64)
    ensures id % 4 == 0
  {
    var id := if Stamp(now, low) <= last then (last + 4) % TWO_TO_64 else Stamp(now, low);
    id / 4 * 4
  }

  /** A message id is the time: when the clock is past the last id, seconds in the high word and the
      random word, rounded down to a multiple of four, in the low one. When the clock is behind, the id
      is the next one, unless the last one was the last of all. */
  predicate IsTime(last: uint64, now: uint64, low: uint32, id: uint64) {
    && (now < 0x1_0000_0000 && last < now * 0x1_0000_0000 ==>
          id / 0x1_0000_0000 == now && id % 0x1_0000_0000 == low - low % 4)
    && (now * 0x1_0000_0000 + 0xFFFF_FFFC <= last < 0xFFFF_FFFF_FFFF_FFFC ==> id == last + 4)
  }

  lemma IdIsTime(last: uint64, now: uint64, low: uint32)
    requires last % 4 == 0
    ensures IsTime(last, now, low, NextId(last, now, low))
  {
    hide IsTime;
    if now < 0x1_0000_0000 {
      HighWord(now, low);
      assert Stamp(now, low) == now * 0x1_0000_0000 + low / 4 * 4;
      TimeIs(last, now, low, Stamp(now, low));
    } else {
      assert IsTime(last, now, low, NextId(last, now, low)) by { ClockTooLate(last, now, low, NextId(last, now, low)); }
    }
  }

  lemma ClockTooLate(last: uint64, now: uint64, low: uint32, id: uint64)
    requires now >= 0x1_0000_0000
    ensures IsTime(last, now, low, id)
  {
  }

  lemma TimeIs(last: uint64, now: uint64, low: uint32, stamp: uint64)
    requires last % 4 == 0 && now < 0x1_0000_0000 && stamp == now * 0x1_0000_0000 + low / 4 * 4
    ensures IsTime(last, now, low, (if stamp <= last then (last + 4) % TWO_TO_64 else stamp) / 4 * 4)
  {
    if stamp > last {
      HighWord(now, low);
    } else if last < 0xFFFF_FFFF_FFFF_FFFC {
      NoCut(last + 4);
    }
  }

  lemma NoCut(x: nat)
    requires x % 4 == 0
    ensures x / 4 * 4 == x
  {
  }

  lemma HighWord(now: nat, low: nat)
    requires low < 0x1_0000_0000
    ensures var id := now * 0x1_0000_0000 + low / 4 * 4;
            id / 0x1_0000_0000 == now && id % 0x1_0000_0000 == low - low % 4 && id / 4 * 4 == id
  {
    assert now * 0x1_0000_0000 == 4 * (now * 0x4000_0000);
  }

  class Session {
    var sessionId: uint64
    var serverSalt: uint64
    var seqNo: uint32
    var lastMsgId: uint64
    var authKey: bytes
    var hasAuthKey: bool

    ghost predicate Valid()
      reads this
    {
      |authKey| == AUTH_KEY_SIZE && lastMsgId % 4 == 0
    }

    /** `mtproto_session_init` with the random id it drew. */
    constructor (random: uint64)
      ensures Valid() && sessionId != 0 && (random != 0 ==> sessionId == random)
      ensures serverSalt == 0 && seqNo == 0 && lastMsgId == 0 && !hasAuthKey
    {
      sessionId := if random == 0 then 1 else random;
      serverSalt, seqNo, lastMsgId := 0, 0, 0;
      authKey, hasAuthKey := seq(AUTH_KEY_SIZE, _ => 0), false;
    }

    /** `mtproto_session_renew_id`: new id, counters from the start, key and salt kept. */
    method RenewId(random: uint64)
      requires Valid()
      modifies this`sessionId, this`seqNo, this`lastMsgId
      ensures Valid() && sessionId != 0 && (random != 0 ==> sessionId == random) && seqNo == 0 && lastMsgId == 0
    {
      sessionId := if random == 0 then 1 else random;
      seqNo, lastMsgId := 0, 0;
    }

    /** `mtproto_session_next_msg_id` with the clock and the random word it read. */
    method NextMsgId(now: uint64, low: uint32) returns (id: uint64)
      requires Valid()
      modifies this`lastMsgId
      ensures Valid() && id == lastMsgId == NextId(old(lastMsgId), now, low)
      ensures IsTime(old(lastMsgId), now, low, id)
    {
      hide IsTime;
      IdIsTime(lastMsgId, now, low);
      id := now % TWO_TO_32 * TWO_TO_32 + low / 4 * 4;
      if id <= lastMsgId { id := (lastMsgId + 4) % TWO_TO_64; }
      id := id / 4 * 4;
      lastMsgId := id;
    }

    /** `mtproto_session_next_seq_no` in 32 bits. */
    method NextSeqNo(contentRelated: bool) returns (n: uint32)
      requires Valid()
      modifies this`seqNo
      ensures Valid() && n == SeqNo(old(seqNo), contentRelated) && seqNo == Counted(old(seqNo), contentRelated)
    {
      n := (seqNo * 2 + if contentRelated then 1 else 0) % TWO_TO_32;
      if contentRelated { seqNo := (seqNo + 1) % TWO_TO_32; }
    }

    method SetAuthKey(key: bytes)
      requires Valid() && |key| == AUTH_KEY_SIZE
      modifies this`authKey, this`hasAuthKey
      ensures Valid() && authKey == key && hasAuthKey
    {
      authKey, hasAuthKey := key, true;
    }
  }

  function SeqNo(count: uint32, contentRelated: bool): uint32 {
    (count * 2 + if contentRelated then 1 else 0) % TWO_TO_32
  }

  function Counted(count: uint32, contentRelated: bool): uint32 {
    if contentRelated then (count + 1) % TWO_TO_32 else count
  }

  // ---- whole runs ----

  /** One message handed to the session: what the clock and the random source said, and its kind.
      Handshake messages are sent in the clear and take no sequence number. */
  datatype Message = Clear(now: uint64, low: uint32) | Sealed(now: uint64, low: uint32, contentRelated: bool)

  /** The ids a run of messages gets when the last id before it was `last`. */
  function Ids(run: seq<Message>, last: uint64): (ids: seq<uint64>)
    ensures |ids| == |run|
  {
    if run == [] then [] else
      var id := NextId(last, run[0].now, run[0].low);
      [id] + Ids(run[1..], id)
  }

  /** The sequence numbers of a run whose session had counted `count` content messages. */
  function Numbers(run: seq<Message>, count: uint32): (ns: seq<Option<uint32>>)
    ensures |ns| == |run|
  {
    if run == [] then []
    else if run[0].Sealed? then [Some(SeqNo(count, run[0].contentRelated))]
        + Numbers(run[1..], Counted(count, run[0].contentRelated))
    else [None] + Numbers(run[1..], count)
  }

  /** `rpc_send_unencrypted` and `rpc_send_encrypted` numbering one message after the other. */
  method NumberAll(s: Session, run: seq<Message>) returns (ids: seq<uint64>, ns: seq<Option<uint32>>)
    requires s.Valid()
    modifies s`lastMsgId, s`seqNo
    ensures s.Valid() && ids == Ids(run, old(s.lastMsgId)) && ns == Numbers(run, old(s.seqNo))
  {
    hide NextId, SeqNo, Counted, Ids, Numbers, IsTime;
    ids, ns := [], [];
    assert run[0..] == run;
    for i := 0 to |run|
      invariant s.Valid()
      invariant ids + Ids(run[i..], s.lastMsgId) == Ids(run, old(s.lastMsgId))
      invariant ns + Numbers(run[i..], s.seqNo) == Numbers(run, old(s.seqNo))
    {
      var m := run[i];
      NextInRun(run, i, s.lastMsgId, s.seqNo);
      var id := s.NextMsgId(m.now, m.low);
      Shift(ids, id, Ids(run[i + 1..], id));
      ids := ids + [id];
      var n: Option<uint32> := None;
      if m.Sealed? {
        var x := s.NextSeqNo(m.contentRelated);
        n := Some(x);
      }
      Shift(ns, n, Numbers(run[i + 1..], s.seqNo));
      ns := ns + [n];
    }
    assert run[|run|..] == [];
    assert Ids([], s.lastMsgId) == [] && Numbers([], s.seqNo) == [];
  }

  lemma Shift<T>(a: seq<T>, x: T, b: seq<T>)
    ensures a + [x] + b == a + ([x] + b)
  {
  }

  lemma NextInRun(run: seq<Message>, i: nat, last: uint64, count: uint32)
    requires i < |run|
    ensures var id := NextId(last, run[i].now, run[i].low); Ids(run[i..], last) == [id] + Ids(run[i + 1..], id)
    ensures Numbers(run[i..], count) ==
            if run[i].Sealed? then [Some(SeqNo(count, run[i].contentRelated))]
                + Numbers(run[i + 1..], Counted(count, run[i].contentRelated))
            else [None] + Numbers(run[i + 1..], count)
  {
    hide NextId, SeqNo, Counted;
    assert run[i..][0] == run[i] && run[i..][1..] == run[i + 1..];
  }

  const LAST_ID := 0xFFFF_FFFF_FFFF_FFFC

  /** An id is newer than the one before it exactly when the 64-bit ids are not used up. */
  lemma NextIdIncreases(last: uint64, now: uint64, low: uint32)
    requires last % 4 == 0
    ensures NextId(last, now, low) > last <==> last != LAST_ID
    ensures last != LAST_ID ==> NextId(last, now, low) == if Stamp(now, low) > last then Stamp(now, low) else last + 4
  {
  }

  /** Ids of a run from `last` on: strictly increasing multiples of four. */
  ghost predicate Increasing(last: int, ids: seq<uint64>) {
    && (forall i :: 0 <= i < |ids| ==> ids[i] > last && ids[i] % 4 == 0)
    && (forall i, j :: 0 <= i < j < |ids| ==> ids[i] < ids[j])
  }

  lemma IncreasingTail(last: int, id: uint64, rest: seq<uint64>)
    requires Increasing(last, [id] + rest)
    ensures id > last && id % 4 == 0 && Increasing(id, rest)
  {
    var all := [id] + rest;
    assert all[0] == id;
    forall i | 0 <= i < |rest| ensures rest[i] > id && rest[i] % 4 == 0 { assert all[i + 1] == rest[i]; }
    forall i, j | 0 <= i < j < |rest|
      ensures rest[i] < rest[j]
    {
      assert all[i + 1] == rest[i] && all[j + 1] == rest[j];
    }
  }

  lemma IncreasingCons(last: int, id: uint64, rest: seq<uint64>)
    requires id > last && id % 4 == 0 && Increasing(id, rest)
    ensures Increasing(last, [id] + rest)
  {
    var all := [id] + rest;
    forall i | 0 <= i < |all| ensures all[i] > last && all[i] % 4 == 0 {
      if i > 0 { assert all[i] == rest[i - 1]; }
    }
    forall i, j | 0 <= i < j < |all| ensures all[i] < all[j] {
      assert all[j] == rest[j - 1];
      if i > 0 { assert all[i] == rest[i - 1]; }
    }
  }

  /** No id before the final one is the last that 64 bits can hold. */
  ghost predicate Room(last: int, ids: seq<uint64>) {
    ids == [] || (last != LAST_ID && forall i :: 0 <= i < |ids| - 1 ==> ids[i] != LAST_ID)
  }

  lemma RoomTail(last: int, id: uint64, rest: seq<uint64>)
    ensures Room(last, [id] + rest) <==> last != LAST_ID && Room(id, rest)
  {
    var all := [id] + rest;
    if Room(last, all) && rest != [] {
      assert all[0] != LAST_ID;
      forall i | 0 <= i < |rest| - 1 ensures rest[i] != LAST_ID { assert all[i + 1] != LAST_ID; }
    }
    if last != LAST_ID && Room(id, rest) {
      forall i | 0 <= i < |all| - 1 ensures all[i] != LAST_ID {
        if i > 0 { assert rest[i - 1] != LAST_ID; }
      }
    }
  }

  lemma NextOfRun(run: seq<Message>, last: uint64)
    requires run != []
    ensures var id := NextId(last, run[0].now, run[0].low); Ids(run, last) == [id] + Ids(run[1..], id)
  {
    hide NextId;
  }

  /** Whatever clock and random source say, even when the clock runs backwards, the ids of a run
      are strictly increasing and divisible by four exactly when no id before the final one is
      the last that 64 bits can hold. */
  lemma {:induction false} IdsIncrease(run: seq<Message>, last: uint64)
    requires last % 4 == 0
    ensures Increasing(last, Ids(run, last)) <==> Room(last, Ids(run, last))
    decreases |run|
  {
    if run == [] {
      assert Ids(run, last) == [];
    } else {
      hide NextId, Ids, Increasing, Room;
      var id := NextId(last, run[0].now, run[0].low);
      var rest := Ids(run[1..], id);
      NextOfRun(run, last);
      NextIdIncreases(last, run[0].now, run[0].low);
      IdsIncrease(run[1..], id);
      RoomTail(last, id, rest);
      if Increasing(last, [id] + rest) { IncreasingTail(last, id, rest); }
      if id > last && Increasing(id, rest) { IncreasingCons(last, id, rest); }
    }
  }

  lemma {:induction false} IdsStayBelow(run: seq<Message>, last: uint64, bound: nat)
    requires last % 4 == 0 && last <= bound && bound + 4 * |run| <= LAST_ID
    requires forall i :: 0 <= i < |run| ==> Stamp(run[i].now, run[i].low) <= bound
    ensures Increasing(last, Ids(run, last))
    decreases |run|
  {
    if run == [] {
      assert Ids(run, last) == [];
    } else {
      hide NextId, Stamp, Ids, Increasing;
      var id := NextId(last, run[0].now, run[0].low);
      NextOfRun(run, last);
      NextIdIncreases(last, run[0].now, run[0].low);
      IdsStayBelow(run[1..], id, bound + 4);
      IncreasingCons(last, id, Ids(run[1..], id));
    }
  }

  /** A fresh session whose clock stays below 2^32 - 1 seconds can number 2^30 messages. */
  lemma FreshIdsIncrease(run: seq<Message>)
    requires |run| <= 0x4000_0000 && forall i :: 0 <= i < |run| ==> run[i].now < 0xFFFF_FFFF
    ensures Increasing(0, Ids(run, 0))
  {
    forall i | 0 <= i < |run| ensures Stamp(run[i].now, run[i].low) <= LAST_ID - 0x1_0000_0000 {}
    IdsStayBelow(run, 0, LAST_ID - 0x1_0000_0000);
  }

  /** How many messages of a run are content messages. */
  function Contents(run: seq<Message>): (n: nat)
    ensures n <= |run|
  {
    if run == [] then 0 else Contents(run[1..]) + if run[0].Sealed? && run[0].contentRelated then 1 else 0
  }

  /** Until the counter is full, the k-th content message is numbered 2k + 1 and every other
      sealed message twice the number of content messages before it. */
  lemma {:induction false} NumbersCountContent(run: seq<Message>, count: uint32, i: nat)
    requires i < |run| && 2 * (count + Contents(run)) < TWO_TO_32 && run[i].Sealed?
    ensures Numbers(run, count)[i] == Some(2 * (count + Contents(run[..i])) + if run[i].contentRelated then 1 else 0)
    decreases |run|
  {
    hide SeqNo, Counted;
    NoWrap(count, Contents(run));
    if i > 0 {
      var next := if run[0].Sealed? then Counted(count, run[0].contentRelated) else count;
      NumbersCountContent(run[1..], next, i - 1);
      assert run[..i][0] == run[0] && run[..i][1..] == run[1..][..i - 1];
    } else {
      assert run[..0] == [];
    }
  }

  /** While the counter has room for `more` messages, the 32-bit arithmetic is exact. */
  lemma NoWrap(count: uint32, more: nat)
    requires 2 * (count + more) < TWO_TO_32
    ensures forall content :: SeqNo(count, content) == 2 * count + if content then 1 else 0
    ensures Counted(count, false) == count && (more > 0 ==> Counted(count, true) == count + 1)
  {
  }
}
