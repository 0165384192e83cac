/** `walk_photo_size_vector` of `src/core/tl_skip.c`: it must move over a Vector<PhotoSize> exactly
    as the plain skipper does, and name the largest size on the way. */
module PhotoSizes {
  import opened Bytes
  import opened TlCodec
  import opened TlGrammar
  import opened TlSerial
  import opened TlTrees
  import opened TlSkip
  import ServiceRows

  datatype Size = Size(name: bytes, score: int)

  const NAME_MAX := 8

  /** The first bytes of a C string, leaving room for the NUL. */
  function Cut(s: bytes, cap: nat): bytes {
    if |s| < cap then s else if cap == 0 then [] else s[..cap - 1]
  }

  predicate HasDimensions(c: nat) {
    c == 0x75c78e60 || c == 0x021e1ad6 || c == 0xfa3efb95
  }

  /** The score of the size whose type string ends at `q`: width times height where the
      constructor has them, -1 for the empty size, otherwise 0. */
  function ScoreAt(c: nat, d: bytes, q: nat): int {
    if c == 0x0e17e23c then -1 else if HasDimensions(c) then Area(d, q) else 0
  }

  function Score(d: bytes, p: nat): int {
    match StringEnd(d, p + 4) case None => 0 case Some(q) => ScoreAt(Read32(d, p), d, q)
  }

  function Area(d: bytes, q: nat): int {
    Signed32(Read32(d, q)) * Signed32(Read32(d, After(d, q, 4)))
  }

  function Name(d: bytes, p: nat): bytes {
    match ReadString(d, p + 4) case None => [] case Some((s, _)) => Cut(ServiceRows.CString(s), NAME_MAX)
  }

  /** What is reported of a size, from its bytes: width times height for the three constructors that have
      them, -1 for the empty size, 0 for the others; at most seven bytes of its type, up to a NUL. */
  lemma SizeScored(d: bytes, p: nat, c: uint32, name: bytes, width: uint32, height: uint32, more: bytes)
    requires |name| < 0x100_0000
    requires At(d, p, Enc32(c) + (EncString(name) + (Enc32(width) + (Enc32(height) + more))))
    ensures var s := ServiceRows.CString(name); Name(d, p) == if |s| < 8 then s else s[..7]
    ensures Score(d, p) ==
            if c in {0x75c78e60, 0x021e1ad6, 0xfa3efb95} then Signed32(width) * Signed32(height)
            else if c == 0x0e17e23c then -1 else 0
  {
    hide At, Enc32, EncString, ReadString, Read32, ServiceRows.CString;
    var q := p + 4 + |EncString(name)|;
    WordHere(d, p, c, EncString(name) + (Enc32(width) + (Enc32(height) + more)));
    AtSplit(d, p + 4, EncString(name), Enc32(width) + (Enc32(height) + more));
    StringRoundTrip(name, d, p + 4);
    NameEnds(d, p + 4);
    WordHere(d, q, width, Enc32(height) + more);
    WordHere(d, q + 4, height, more);
  }

  lemma NameEnds(d: bytes, p: nat)
    ensures StringEnd(d, p) == if ReadString(d, p).Some? then Some(ReadString(d, p).value.1) else None
  {
  }

  /** The `n` sizes that stand one after the other from `p` on. */
  function Sizes(d: bytes, p: nat, n: nat, depth: nat): seq<Size>
    decreases n
  {
    if n == 0 then []
    else
      [Size(Name(d, p), Score(d, p))]
      + match Skip(PhotoSize, d, p, depth) case None => [] case Some(q) => Sizes(d, q, n - 1, depth)
  }

  /** `k` is the first entry with the largest score. */
  ghost predicate FirstLargest(es: seq<Size>, k: nat) {
    && k < |es|
    && (forall i :: 0 <= i < |es| ==> es[i].score <= es[k].score)
    && (forall i :: 0 <= i < k ==> es[i].score < es[k].score)
  }

  /** `best` names the first entry of the largest score among those that are not negative, as far as
      the buffer holds it; without a buffer (`cap` 0) it is empty. */
  ghost predicate Names(es: seq<Size>, cap: nat, best: bytes) {
    if cap == 0 then best == []
    else
      || (best == [] && forall i :: 0 <= i < |es| ==> es[i].score < 0)
      || exists k: nat :: FirstLargest(es, k) && es[k].score >= 0 && best == Cut(es[k].name, cap)
  }

  /** `best` and `score` after the entries `es`; without a buffer neither is kept. */
  ghost predicate Leads(es: seq<Size>, cap: nat, best: bytes, score: int) {
    if cap == 0 then score == -1 && best == []
    else
      || (score == -1 && best == [] && forall i :: 0 <= i < |es| ==> es[i].score < 0)
      || (score >= 0 && exists k: nat :: FirstLargest(es, k) && es[k].score == score && best == Cut(es[k].name, cap))
  }

  lemma LeadsNext(es: seq<Size>, x: Size, cap: nat, best: bytes, score: int)
    requires Leads(es, cap, best, score)
    ensures x.score > score && cap > 0 ==> Leads(es + [x], cap, Cut(x.name, cap), x.score)
    ensures x.score <= score || cap == 0 ==> Leads(es + [x], cap, best, score)
  {
    var es' := es + [x];
    if cap > 0 && x.score > score {
      assert FirstLargest(es', |es|);
    } else if cap > 0 && score >= 0 {
      var k: nat :| FirstLargest(es, k) && es[k].score == score && best == Cut(es[k].name, cap);
      assert FirstLargest(es', k) && es'[k] == es[k];
    }
  }

  // ---- reading one entry ----

  /** The type string, read before the constructor is looked at. */
  method ReadName(r: TlReader, ghost w: Trail) returns (ok: bool, name: bytes, ghost v: Trail)
    requires On(r.data, r.pos, r.mediaDepth, w) && r.pos <= |r.data| && (w.lay.Text? || w.lay.Reject?)
    modifies r`pos
    ensures ok ==> ReadString(r.data, old(r.pos)).Some?
                   && name == Cut(ServiceRows.CString(ReadString(r.data, old(r.pos)).value.0), NAME_MAX)
    ensures ok ==> StringEnd(r.data, old(r.pos)) == Some(r.pos)
    ensures v == if w.lay.Text? then w.(lay := w.lay.next) else w
    ensures w.lay.Text? ==> Advanced(r.data, old(r.pos), r.mediaDepth, w, ok, r.pos, v)
    ensures w.lay.Reject? ==> Ended(r.data, old(r.pos), w, false, r.pos)
  {
    hide Below, ReadString, CursorOk;
    v := if w.lay.Text? then w.(lay := w.lay.next) else w;
    ghost var p := r.pos;
    var s := r.ReadBytes();
    NameCursor(r.data, p);
    Onward(r.data, w.start, p, r.pos);
    ok, name := s.Some?, if s.Some? then Cut(ServiceRows.CString(s.value), NAME_MAX) else [];
  }

  lemma NameCursor(d: bytes, p: nat)
    requires p <= |d|
    ensures CursorOk(d, p, |d|)
    ensures ReadString(d, p).Some? ==>
              CursorOk(d, p, ReadString(d, p).value.1) && StringEnd(d, p) == Some(ReadString(d, p).value.1)
    ensures ReadString(d, p).None? ==> StringEnd(d, p) == None
  {
    StepCursor(d, p, 0);
  }

  /** The guarded read of `n` bytes that begin with width and height. */
  method TakeArea(r: TlReader, n: nat, ghost w: Trail) returns (ok: bool, area: int, ghost v: Trail)
    requires On(r.data, r.pos, r.mediaDepth, w) && w.lay.Word? && n == 4 * w.lay.n && (n == 8 || n == 12)
    modifies r`pos
    ensures v == w.(lay := w.lay.next) && Advanced(r.data, old(r.pos), r.mediaDepth, w, ok, r.pos, v)
    ensures ok ==> area == Area(r.data, old(r.pos))
  {
    hide Below, Read32;
    v, area := w.(lay := w.lay.next), 0;
    if r.Left() < n { return false, 0, v; }
    var width := r.ReadUint32();
    var height := r.ReadUint32();
    if n == 12 { r.Advance(4); }
    ok, area := true, Signed32(width) * Signed32(height);
  }

  /** The byte counts of a progressive size, checked in one go. */
  method TakeInts(r: TlReader, ghost w: Trail) returns (ok: bool, ghost v: Trail)
    requires On(r.data, r.pos, r.mediaDepth, w) && w.lay.Many? && w.lay.item == Word(1, Stop)
    modifies r`pos
    ensures v == w.(lay := w.lay.next) && Advanced(r.data, old(r.pos), r.mediaDepth, w, ok, r.pos, v)
  {
    hide Below, VectorEnd;
    v := w.(lay := w.lay.next);
    ghost var p := r.pos;
    ok := SkipInts(r, w.f, w.g, w.start, w.depth);
    Onward(r.data, w.start, p, r.pos);
  }

  method SkipInts(r: TlReader, ghost f: nat, ghost g: nat, ghost p0: nat, ghost depth: nat) returns (ok: bool)
    requires p0 <= |r.data| && r.pos < |r.data| + 4
    modifies r`pos
    ensures Outcome(r.data, old(r.pos), ok, r.pos,
                    VectorEnd(Word(1, Stop), 0xFFFF_FFFF, f, g, r.data, old(r.pos), Below(r.data, p0, depth)))
  {
    hide Below, VectorCount, VectorEnd, RunItems, CursorOk;
    IntsVector(f, g, r.data, r.pos, Below(r.data, p0, depth));
    ghost var p := r.pos;
    var n;
    ok, n := OpenVector(r); if !ok { return; }
    var size := 4 * n;
    if r.Left() < size { return false; }
    CursorAhead(r.data, p, 2 + n);
    r.Advance(size);
    ok := true;
  }

  lemma IntsVector(f: nat, g: nat, d: bytes, p: nat, sub: (Type, nat) -> Option<nat>)
    ensures var n := VectorCount(d, p);
            VectorEnd(Word(1, Stop), 0xFFFF_FFFF, f, g, d, p, sub) ==
            if n.None? || |d| - p - 8 < 4 * n.value then None else Some(p + 8 + 4 * n.value)
  {
    hide RunItems, VectorCount;
    var n := VectorCount(d, p);
    if n.Some? { IntsEnd(n.value, f, g, d, p + 8, sub); }
  }

  lemma {:induction false} IntsEnd(n: nat, f: nat, g: nat, d: bytes, p: nat, sub: (Type, nat) -> Option<nat>)
    requires p <= |d|
    ensures RunItems(Word(1, Stop), n, f, g, d, p, sub) == if |d| - p < 4 * n then None else Some(p + 4 * n)
  {
    if n > 0 && |d| - p >= 4 { IntsEnd(n - 1, f, g, d, p + 4, sub); }
  }

  lemma PhotoSizeLayouts(c: nat)
    ensures Body(PhotoSize, c) == PhotoSizeBody(c)
    ensures Body(PhotoSize, c).Text? || Body(PhotoSize, c).Reject?
  {
  }

  /** One turn of the loop: the same walk as `tl_skip_photo_size`, keeping name and score. */
  method WalkSize(r: TlReader) returns (ok: bool, size: Size)
    requires r.pos < |r.data| + 4 && r.mediaDepth <= MEDIA_DEPTH
    modifies r`pos
    ensures Outcome(r.data, old(r.pos), ok, r.pos, Skip(PhotoSize, r.data, old(r.pos), r.mediaDepth))
    ensures ok ==> size == Size(Name(r.data, old(r.pos)), Score(r.data, old(r.pos)))
  {
    hide CursorOk, Skip, Body, On, Due, Read32, ReadString, StringEnd, ScoreAt, PhotoSizeBody;
    ghost var w;
    var c, name, score;
    size := Size([], 0);
    ok, c, w := TakeCtor(r, PhotoSize, r.mediaDepth); if !ok { return; }
    PhotoSizeLayouts(c);
    ghost var v;
    ok, name, v := ReadName(r, w); if !ok { return; }
    ok, score := WalkFields(r, c, v); if !ok { return; }
    size := Size(name, score);
  }

  /** The fields after the type string. */
  method WalkFields(r: TlReader, c: uint32, ghost start: Trail) returns (ok: bool, score: int)
    requires PhotoSizeBody(c).Text? ==> On(r.data, r.pos, r.mediaDepth, start) && start.lay == PhotoSizeBody(c).next
    modifies r`pos
    ensures PhotoSizeBody(c).Text? ==> Ended(r.data, old(r.pos), start, ok, r.pos)
    ensures !PhotoSizeBody(c).Text? ==> !ok && r.pos == old(r.pos)
    ensures ok ==> score == ScoreAt(c, r.data, old(r.pos))
  {
    hide CursorOk, On, Due, Area, Read32, StringEnd;
    ghost var w := start;
    ok, score := true, 0;
    if c == 0x0e17e23c {
      score := -1;
    } else if c == 0x75c78e60 {
      ok, score, w := TakeArea(r, 12, w); if !ok { return; }
    } else if c == 0x021e1ad6 {
      ok, score, w := TakeArea(r, 8, w); if !ok { return; }
      ok, w := TakeString(r, w); if !ok { return; }
    } else if c == 0xfa3efb95 {
      ok, score, w := TakeArea(r, 8, w); if !ok { return; }
      ok, w := TakeInts(r, w); if !ok { return; }
    } else if c == 0xe0b0bc2e || c == 0xd8214d41 {
      ok, w := TakeString(r, w); if !ok { return; }
    } else {
      return false, 0;
    }
    Finished(r.data, r.pos, r.mediaDepth, w);
  }

  /** The walk accepts what the skipper of the same vector accepts, stops where it stops, and
      names the first of the largest sizes, cut to the buffer. */
  method WalkSizes(r: TlReader, cap: nat, ghost f: nat, ghost g: nat, ghost p0: nat) returns (ok: bool, best: bytes)
    requires p0 < r.pos < |r.data| + 4 && p0 < |r.data| && r.mediaDepth <= MEDIA_DEPTH
    modifies r`pos
    ensures Outcome(r.data, old(r.pos), ok, r.pos,
                    VectorEnd(Obj(PhotoSize, Stop), 0xFFFF_FFFF, f, g, r.data, old(r.pos),
                              Below(r.data, p0, r.mediaDepth)))
    ensures ok ==> VectorCount(r.data, old(r.pos)).Some?
                   && Names(Sizes(r.data, old(r.pos) + 8, VectorCount(r.data, old(r.pos)).value, r.mediaDepth), cap,
                            best)
  {
    hide CursorOk, Skip, Below, Body, VectorCount, Leads, Name, Score, Cut, RunItems, Sizes, Run;
    ghost var d, depth := r.data, r.mediaDepth;
    ghost var sub := Below(d, p0, depth);
    Cursors(d);
    best := [];
    if !r.Ok() { NoVector(d, r.pos); return false, best; }
    var n;
    ok, n := OpenVector(r); if !ok { return; }
    ghost var p1 := r.pos;
    InBounds(d, p1);
    var bestScore := -1;
    ghost var done: seq<Size> := [];
    NoneLeads(cap);
    assert [] + Sizes(d, p1, n, depth) == Sizes(d, p1, n, depth);
    for i := 0 to n
      invariant r.mediaDepth == depth && p0 < r.pos && CursorOk(d, p1, r.pos)
      invariant RunItems(Obj(PhotoSize, Stop), n, f, g, d, p1, sub) ==
                RunItems(Obj(PhotoSize, Stop), n - i, f, g, d, r.pos, sub)
      invariant Sizes(d, p1, n, depth) == done + Sizes(d, r.pos, n - i, depth)
      invariant Leads(done, cap, best, bestScore)
    {
      BelowIsSkip(PhotoSize, d, r.pos, p0, depth);
      NextSize(n - i, f, g, d, r.pos, sub, depth, done);
      var size;
      ok, size := WalkSize(r); if !ok { return; }
      LeadsNext(done, size, cap, best, bestScore);
      done := done + [size];
      if size.score > bestScore && cap > 0 { bestScore, best := size.score, Cut(size.name, cap); }
    }
    NoSizes(f, g, d, r.pos, sub, depth, done);
    LeadsNames(done, cap, best, bestScore);
    return true, best;
  }

  lemma NextSize(n: nat, f: nat, g: nat, d: bytes, p: nat, sub: (Type, nat) -> Option<nat>, depth: nat, done: seq<Size>)
    requires n > 0 && sub(PhotoSize, p) == Skip(PhotoSize, d, p, depth)
    ensures RunItems(Obj(PhotoSize, Stop), n, f, g, d, p, sub) ==
            match Skip(PhotoSize, d, p, depth) case None => None case Some(q) =>
                RunItems(Obj(PhotoSize, Stop), n - 1, f, g, d, q, sub)
    ensures Skip(PhotoSize, d, p, depth).Some? ==>
              done + Sizes(d, p, n, depth) ==
              done + [Size(Name(d, p), Score(d, p))] + Sizes(d, Skip(PhotoSize, d, p, depth).value, n - 1, depth)
  {
    hide Skip, Name, Score;
    StepObj(Obj(PhotoSize, Stop), f, g, d, p, sub);
  }

  lemma NoSizes(f: nat, g: nat, d: bytes, p: nat, sub: (Type, nat) -> Option<nat>, depth: nat, done: seq<Size>)
    ensures RunItems(Obj(PhotoSize, Stop), 0, f, g, d, p, sub) == Some(p)
    ensures done + Sizes(d, p, 0, depth) == done
  {
  }

  lemma NoVector(d: bytes, p: nat)
    requires p >= |d|
    ensures VectorCount(d, p) == None
    ensures CursorOk(d, p, p) <==> p < |d| + 4
  {
  }

  lemma NoneLeads(cap: nat)
    ensures Leads([], cap, [], -1)
  {
  }

  lemma LeadsNames(es: seq<Size>, cap: nat, best: bytes, score: int)
    requires Leads(es, cap, best, score)
    ensures Names(es, cap, best)
  {
  }
}
