/** The recursive skippers of `src/core/tl_skip.c`, moving a reader in place, proved to accept
    exactly what the grammar accepts and to leave the cursor where the grammar says. The
    RichText, PageBlock, StoryItem, MessageMedia, reply-header and Message functions are
    written out as in the source; every other type goes through `SkipByLayout`. */
module TlSkip {
  import opened Bytes
  import opened TlCodec
  import opened TlGrammar
  import opened TlSerial
  import opened TlTrees

  /** The result of one skipper call: success exactly when the grammar accepts, at the
      grammar's cursor; in either case the cursor has not gone back or left the buffer. */
  ghost predicate Outcome(d: bytes, p: nat, ok: bool, q: nat, spec: Option<nat>) {
    spec == (if ok then Some(q) else None) && CursorOk(d, p, q)
  }

  ghost function Room(d: bytes, p: nat): nat {
    if p <= |d| then |d| - p else 0
  }

  // ---- the proof side of a walk ----

  /** What is still to be read of the object that began at `start`, with `depth` media open:
      the rest of its layout and the flag words read so far. */
  datatype Trail = Trail(lay: Layout, f: nat, g: nat, start: nat, depth: nat)

  /** The cursor is inside the object of the trail, or up to three bytes past the buffer. */
  ghost predicate On(d: bytes, p: nat, depth: nat, w: Trail) {
    w.start < p && w.start < |d| && CursorOk(d, w.start, p) && depth == w.depth <= MEDIA_DEPTH
  }

  /** Where the grammar says the rest of the object ends, seen from `p`. */
  ghost function Due(d: bytes, p: nat, w: Trail): Option<nat> {
    if w.start < |d| then Run(w.lay, w.f, w.g, d, p, Below(d, w.start, w.depth)) else None
  }

  /** The rest of the object has been read: success exactly when the grammar accepts it. */
  ghost predicate Ended(d: bytes, p: nat, w: Trail, ok: bool, q: nat) {
    CursorOk(d, w.start, q) && Due(d, p, w) == if ok then Some(q) else None
  }

  /** One read along the trail: it either fails because the grammar refuses, or leaves the
      grammar's verdict unchanged with less of the layout to read. */
  ghost predicate Advanced(d: bytes, p: nat, depth: nat, w: Trail, ok: bool, q: nat, v: Trail) {
    && (!ok ==> Ended(d, p, w, false, q))
    && (ok ==> On(d, q, depth, v) && Due(d, q, v) == Due(d, p, w))
  }

  lemma Finished(d: bytes, p: nat, depth: nat, w: Trail)
    requires On(d, p, depth, w) && w.lay == Stop
    ensures Ended(d, p, w, true, p)
  {
  }

  lemma Refused(d: bytes, p: nat, depth: nat, w: Trail)
    requires On(d, p, depth, w) && w.lay == Reject
    ensures Ended(d, p, w, false, p)
  {
  }

  /** A read that keeps the cursor in order keeps the object's cursor in order. */
  lemma Onward(d: bytes, s: nat, p: nat, q: nat)
    requires CursorOk(d, s, p) && CursorOk(d, p, q) && s < |d| && s < p
    ensures CursorOk(d, s, q) && s < q
  {
  }

  // ---- the idioms every skipper is made of ----

  /** `if (r->len - r->pos < n) return -1;` and the reads of n bytes it guards. */
  method TakeBytes(r: TlReader, n: nat) returns (ok: bool)
    requires r.pos < |r.data| + 4 && n % 4 == 0 && n <= 64
    modifies r`pos
    ensures Outcome(r.data, old(r.pos), ok, r.pos, FixedEnd(r.data, old(r.pos), n))
  {
    if r.Left() < n { return false; }
    r.Advance(n);
    ok := true;
  }

  method TakeWord(r: TlReader) returns (ok: bool, v: uint32)
    requires r.pos < |r.data| + 4
    modifies r`pos
    ensures Outcome(r.data, old(r.pos), ok, r.pos, FixedEnd(r.data, old(r.pos), 4))
    ensures v == if ok then Read32(r.data, old(r.pos)) else 0
  {
    if r.Left() < 4 { return false, 0; }
    v := r.ReadUint32();
    ok := true;
  }

  method Take(r: TlReader, n: nat, ghost w: Trail) returns (ok: bool, ghost v: Trail)
    requires On(r.data, r.pos, r.mediaDepth, w) && w.lay.Word? && n == 4 * w.lay.n && n <= 64
    modifies r`pos
    ensures v == w.(lay := w.lay.next) && Advanced(r.data, old(r.pos), r.mediaDepth, w, ok, r.pos, v)
  {
    hide Below, FixedEnd;
    v := w.(lay := w.lay.next);
    ghost var p := r.pos;
    ok := TakeBytes(r, n);
    Onward(r.data, w.start, p, r.pos);
  }

  /** The guarded read of the flags word. */
  method TakeFlags(r: TlReader, ghost w: Trail) returns (ok: bool, flags: uint32, ghost v: Trail)
    requires On(r.data, r.pos, r.mediaDepth, w) && w.lay.Flags?
    modifies r`pos
    ensures v == w.(lay := w.lay.next, f := flags) && Advanced(r.data, old(r.pos), r.mediaDepth, w, ok, r.pos, v)
  {
    hide Below, FixedEnd, Read32;
    ghost var p := r.pos;
    ok, flags := TakeWord(r);
    v := w.(lay := w.lay.next, f := flags);
    Onward(r.data, w.start, p, r.pos);
  }

  method TakeFlags2(r: TlReader, ghost w: Trail) returns (ok: bool, flags: uint32, ghost v: Trail)
    requires On(r.data, r.pos, r.mediaDepth, w) && w.lay.Flags2?
    modifies r`pos
    ensures v == w.(lay := w.lay.next, g := flags) && Advanced(r.data, old(r.pos), r.mediaDepth, w, ok, r.pos, v)
  {
    hide Below, FixedEnd, Read32;
    ghost var p := r.pos;
    ok, flags := TakeWord(r);
    v := w.(lay := w.lay.next, g := flags);
    Onward(r.data, w.start, p, r.pos);
  }

  /** `tl_skip_string` */
  method SkipString(r: TlReader) returns (ok: bool)
    requires r.pos < |r.data| + 4
    modifies r`pos
    ensures Outcome(r.data, old(r.pos), ok, r.pos, StringEnd(r.data, old(r.pos)))
  {
    if !r.Ok() { return false; }
    StepCursor(r.data, r.pos, 0);
    var s := r.ReadBytes();
    ok := s.Some?;
  }

  method TakeString(r: TlReader, ghost w: Trail) returns (ok: bool, ghost v: Trail)
    requires On(r.data, r.pos, r.mediaDepth, w) && w.lay.Text?
    modifies r`pos
    ensures v == w.(lay := w.lay.next) && Advanced(r.data, old(r.pos), r.mediaDepth, w, ok, r.pos, v)
  {
    hide Below, StringEnd;
    v := w.(lay := w.lay.next);
    ghost var p := r.pos;
    ok := SkipString(r);
    Onward(r.data, w.start, p, r.pos);
  }

  /** The constructor word every object of type `t` starts with; `depth` media are open
      outside the object. Once it is read, what is left is the layout it selects. */
  method TakeCtor(r: TlReader, ghost t: Type, ghost depth: nat) returns (ok: bool, c: uint32, ghost w: Trail)
    requires r.pos < |r.data| + 4 && !(t == Media && depth >= MEDIA_DEPTH) && depth <= MEDIA_DEPTH
    modifies r`pos
    ensures !ok ==> Skip(t, r.data, old(r.pos), depth) == None
    ensures w == Trail(Body(t, c), 0, 0, old(r.pos), if t == Media then depth + 1 else depth)
    ensures ok ==>
              && c == Read32(r.data, old(r.pos)) && old(r.pos) + 4 == r.pos <= |r.data|
              && On(r.data, r.pos, w.depth, w)
              && Skip(t, r.data, old(r.pos), depth) == Due(r.data, r.pos, w)
    ensures CursorOk(r.data, old(r.pos), r.pos)
  {
    hide Body, Run, Word32;
    ghost var p0 := r.pos;
    if !r.Ok() || r.Left() < 4 {
      return false, 0, Trail(Body(t, 0), 0, 0, p0, if t == Media then depth + 1 else depth);
    }
    c := r.ReadUint32();
    ok, w := true, Trail(Body(t, c), 0, 0, p0, if t == Media then depth + 1 else depth);
  }

  /** A nested object. */
  method TakeObject(r: TlReader, t: Type, ghost w: Trail) returns (ok: bool, ghost v: Trail)
    requires On(r.data, r.pos, r.mediaDepth, w) && w.lay.Obj? && w.lay.ty == t
    modifies r
    ensures r.mediaDepth == old(r.mediaDepth)
    ensures v == w.(lay := w.lay.next) && Advanced(r.data, old(r.pos), r.mediaDepth, w, ok, r.pos, v)
    decreases Room(r.data, w.start), 1, Stop, 0
  {
    hide Below, Skip;
    v := w.(lay := w.lay.next);
    ghost var p := r.pos;
    BelowIsSkip(t, r.data, r.pos, w.start, w.depth);
    ok := SkipObject(r, t);
    Onward(r.data, w.start, p, r.pos);
  }

  lemma Cursors(d: bytes)
    ensures forall p: nat, q: nat, r: nat {:trigger CursorOk(d, p, q), CursorOk(d, q, r)} ::
              CursorOk(d, p, q) && CursorOk(d, q, r) ==> CursorOk(d, p, r)
    ensures forall p: nat {:trigger CursorOk(d, p, p)} :: p < |d| + 4 ==> CursorOk(d, p, p)
    ensures forall p: nat, q: nat {:trigger CursorOk(d, p, q)} :: CursorOk(d, p, q) ==> q < |d| + 4
  {
  }

  lemma InBounds(d: bytes, p: nat)
    ensures forall q: nat :: CursorOk(d, p, q) ==> (if p <= |d| then p else |d|) <= q < |d| + 4
  {
  }

  /** A vector of objects: header, then the counted loop. */
  method TakeVector(r: TlReader, t: Type, ghost w: Trail) returns (ok: bool, ghost v: Trail)
    requires On(r.data, r.pos, r.mediaDepth, w) && w.lay.Many? && w.lay.item == Obj(t, Stop)
    modifies r
    ensures r.mediaDepth == old(r.mediaDepth)
    ensures v == w.(lay := w.lay.next) && Advanced(r.data, old(r.pos), r.mediaDepth, w, ok, r.pos, v)
    decreases Room(r.data, w.start), 2, Stop, 0
  {
    hide Below, Skip, VectorEnd;
    v := w.(lay := w.lay.next);
    ghost var p := r.pos;
    ok := SkipVector(r, t, w.f, w.g, w.start);
    Onward(r.data, w.start, p, r.pos);
  }

  method SkipVector(r: TlReader, t: Type, ghost f: nat, ghost g: nat, ghost p0: nat) returns (ok: bool)
    requires p0 < r.pos < |r.data| + 4 && p0 < |r.data| && r.mediaDepth <= MEDIA_DEPTH
    modifies r
    ensures r.mediaDepth == old(r.mediaDepth)
    ensures Outcome(r.data, old(r.pos), ok, r.pos,
                    VectorEnd(Obj(t, Stop), 0xFFFF_FFFF, f, g, r.data, old(r.pos), Below(r.data, p0, r.mediaDepth)))
    decreases Room(r.data, p0), 1, Stop, 0
  {
    hide CursorOk, Skip, Below, Body, VectorCount;
    ghost var d, depth := r.data, r.mediaDepth;
    ghost var sub := Below(d, p0, depth);
    Cursors(d);
    var n;
    ok, n := OpenVector(r); if !ok { return; }
    ghost var p1 := r.pos;
    InBounds(d, p1);
    for i := 0 to n
      invariant r.mediaDepth == depth && p0 < r.pos && CursorOk(d, p1, r.pos)
      invariant RunItems(Obj(t, Stop), n, f, g, d, p1, sub) == RunItems(Obj(t, Stop), n - i, f, g, d, r.pos, sub)
    {
      BelowIsSkip(t, d, r.pos, p0, depth);
      StepObj(Obj(t, Stop), f, g, d, r.pos, sub);
      ok := SkipObject(r, t); if !ok { return; }
    }
    return true;
  }

  /** The guarded vector header: constructor word and count. */
  method OpenVector(r: TlReader) returns (ok: bool, n: nat)
    requires r.pos < |r.data| + 4
    modifies r`pos
    ensures VectorCount(r.data, old(r.pos)) == if ok then Some(n) else None
    ensures ok ==> r.pos == old(r.pos) + 8
    ensures CursorOk(r.data, old(r.pos), r.pos)
  {
    if r.Left() < 8 { return false, 0; }
    var vec := r.ReadUint32();
    if vec != VECTOR { return false, 0; }
    n := r.ReadUint32();
    ok := true;
  }

  /** A field guarded by a flag: `if (flags & (1u << k)) { ... }`. */
  method TakeIf(r: TlReader, on: bool, lay: Layout, ghost w: Trail) returns (ok: bool, ghost v: Trail)
    requires On(r.data, r.pos, r.mediaDepth, w)
    requires (w.lay.If? && on == Bit(w.f, w.lay.bit)) || (w.lay.If2? && on == Bit(w.g, w.lay.bit))
    requires w.lay.body == lay
    requires lay.Word? || lay.Text? || lay.Obj? || (lay.Many? && lay.item.Obj? && lay.item.next.Stop?)
    requires lay.next.Stop? && (lay.Word? ==> 4 * lay.n <= 64)
    modifies r
    ensures r.mediaDepth == old(r.mediaDepth)
    ensures v == w.(lay := w.lay.next) && Advanced(r.data, old(r.pos), r.mediaDepth, w, ok, r.pos, v)
    decreases Room(r.data, w.start), 3, Stop, 0
  {
    hide Below, Skip, CursorOk, Bit, Run;
    v := w.(lay := w.lay.next);
    ghost var d, p := r.data, r.pos;
    if on {
      ghost var b := w.(lay := lay);
      match lay {
        case Word(n, _) => ok, b := Take(r, 4 * n, b);
        case Text(_) => ok, b := TakeString(r, b);
        case Obj(t, _) => ok, b := TakeObject(r, t, b);
        case Many(item, _) => ok, b := TakeVector(r, item.ty, b);
      }
      OptionalTaken(d, p, r.mediaDepth, w, ok, r.pos, b);
    } else {
      ok := true;
      OptionalAbsent(d, p, w);
    }
  }

  lemma OptionalTaken(d: bytes, p: nat, depth: nat, w: Trail, ok: bool, q: nat, b: Trail)
    requires (w.lay.If? || w.lay.If2?) && Taken(w.lay, w.f, w.g)
    requires b == w.(lay := Stop) && Advanced(d, p, depth, w.(lay := w.lay.body), ok, q, b)
    ensures Advanced(d, p, depth, w, ok, q, w.(lay := w.lay.next))
  {
    hide Below, Bit, CursorOk, Run;
    if w.start < |d| { StepIf(w.lay, w.f, w.g, d, p, Below(d, w.start, w.depth)); }
    if ok { Finished(d, q, depth, b); }
  }

  lemma OptionalAbsent(d: bytes, p: nat, w: Trail)
    requires (w.lay.If? || w.lay.If2?) && !Taken(w.lay, w.f, w.g)
    ensures Due(d, p, w) == Due(d, p, w.(lay := w.lay.next))
  {
    hide Below, Bit, Run;
    if w.start < |d| { StepIf(w.lay, w.f, w.g, d, p, Below(d, w.start, w.depth)); }
  }

  // ---- table-driven types ----

  /** The skipper of type `t`. */
  method SkipObject(r: TlReader, t: Type) returns (ok: bool)
    requires r.pos < |r.data| + 4 && r.mediaDepth <= MEDIA_DEPTH
    modifies r
    ensures r.mediaDepth == old(r.mediaDepth)
    ensures Outcome(r.data, old(r.pos), ok, r.pos, Skip(t, r.data, old(r.pos), r.mediaDepth))
    decreases Room(r.data, r.pos), 14, Stop, 0
  {
    hide *;
    if t == ExtendedMedia { ok := SkipExtendedMedia(r); }
    else if t == StoryItem { ok := SkipStoryItem(r); }
    else if t == Media { ok := SkipMedia(r); }
    else if t == ReplyHeader { ok := SkipReplyHeader(r); }
    else if t == MessageAction { ok := SkipMessageAction(r); }
    else if t == Message { ok := SkipMessage(r); }
    else { ok := SkipPagePart(r, t); }
  }

  method SkipPagePart(r: TlReader, t: Type) returns (ok: bool)
    requires r.pos < |r.data| + 4 && r.mediaDepth <= MEDIA_DEPTH && t != Media
    modifies r
    ensures r.mediaDepth == old(r.mediaDepth)
    ensures Outcome(r.data, old(r.pos), ok, r.pos, Skip(t, r.data, old(r.pos), r.mediaDepth))
    decreases Room(r.data, r.pos), 13, Stop, 0
  {
    hide *;
    if t == RichText { ok := SkipRichText(r); }
    else if t == PageCaption { ok := SkipPageCaption(r); }
    else if t == PageListItem { ok := SkipPageListItem(r); }
    else if t == PageListOrderedItem { ok := SkipPageListOrderedItem(r); }
    else if t == PageTableCell { ok := SkipPageTableCell(r); }
    else if t == PageTableRow { ok := SkipPageTableRow(r); }
    else if t == PageRelatedArticle { ok := SkipPageRelatedArticle(r); }
    else if t == PageBlock { ok := SkipPageBlock(r); }
    else { ok := SkipByLayout(r, t); }
  }

  /** Read the constructor word and walk the layout it selects. */
  method SkipByLayout(r: TlReader, t: Type) returns (ok: bool)
    requires r.pos < |r.data| + 4 && r.mediaDepth <= MEDIA_DEPTH && t != Media
    modifies r
    ensures r.mediaDepth == old(r.mediaDepth)
    ensures Outcome(r.data, old(r.pos), ok, r.pos, Skip(t, r.data, old(r.pos), r.mediaDepth))
    decreases Room(r.data, r.pos), 12, Stop, 0
  {
    hide Skip, Body, Run;
    ghost var w;
    var c;
    ok, c, w := TakeCtor(r, t, r.mediaDepth); if !ok { return; }
    ok := WalkRest(r, Body(t, c), w);
  }

  method WalkRest(r: TlReader, lay: Layout, ghost w: Trail) returns (ok: bool)
    requires On(r.data, r.pos, r.mediaDepth, w) && w == Trail(lay, 0, 0, w.start, w.depth)
    modifies r
    ensures r.mediaDepth == old(r.mediaDepth)
    ensures Ended(r.data, old(r.pos), w, ok, r.pos)
    decreases Room(r.data, w.start), 4, Stop, 0
  {
    hide Skip, Body, Run;
    ghost var p := r.pos;
    ok := WalkLayout(r, lay, 0, 0, w.start);
    Onward(r.data, w.start, p, r.pos);
  }

  /** Perform the reads of a layout one after the other. */
  method WalkLayout(r: TlReader, lay: Layout, f: uint32, g: uint32, ghost p0: nat) returns (ok: bool)
    requires p0 < r.pos < |r.data| + 4 && p0 < |r.data| && r.mediaDepth <= MEDIA_DEPTH
    modifies r
    ensures r.mediaDepth == old(r.mediaDepth)
    ensures Outcome(r.data, old(r.pos), ok, r.pos, Run(lay, f, g, r.data, old(r.pos), Below(r.data, p0, r.mediaDepth)))
    decreases Room(r.data, p0), 3, lay, 0
  {
    hide CursorOk, FixedEnd, StringEnd, VectorEnd, Read32, Skip, Below, Body, Bit;
    ghost var d, p1, depth := r.data, r.pos, r.mediaDepth;
    ghost var sub := Below(d, p0, depth);
    Cursors(d);
    InBounds(d, p1);
    var l, f1, g1 := lay, f, g;
    while l != Stop
      invariant r.mediaDepth == depth && p0 < r.pos && CursorOk(d, p1, r.pos)
      invariant l == lay || l < lay
      invariant Run(lay, f, g, d, p1, sub) == Run(l, f1, g1, d, r.pos, sub)
      decreases l
    {
      match l {
        case Reject => return false;
        case Word(n, _) => ok := TakeWords(r, n); if !ok { return; }
        case Text(_) => ok := SkipString(r); if !ok { return; }
        case Flags(_) => ok, f1 := TakeWord(r); if !ok { return; }
        case Flags2(_) => ok, g1 := TakeWord(r); if !ok { return; }
        case Obj(t, _) =>
          BelowIsSkip(t, d, r.pos, p0, depth);
          ok := SkipObject(r, t); if !ok { return; }
        case Many(item, _) => ok := WalkVector(r, item, 0xFFFF_FFFF, f1, g1, p0); if !ok { return; }
        case ManyMax(max, item, _) => ok := WalkVector(r, item, max, f1, g1, p0); if !ok { return; }
        case If(k, body, _) => if Bit(f1, k) { ok := WalkLayout(r, body, f1, g1, p0); if !ok { return; } }
        case If2(k, body, _) => if Bit(g1, k) { ok := WalkLayout(r, body, f1, g1, p0); if !ok { return; } }
      }
      l := l.next;
    }
    ok := true;
  }

  method TakeWords(r: TlReader, n: nat) returns (ok: bool)
    requires r.pos < |r.data| + 4
    modifies r`pos
    ensures Outcome(r.data, old(r.pos), ok, r.pos, FixedEnd(r.data, old(r.pos), 4 * n))
  {
    if r.pos > |r.data| { r.pos := |r.data|; return true; }
    if r.Left() < 4 * n { return false; }
    r.Advance(4 * n);
    ok := true;
  }

  /** A vector of any items: header, count refused above `max`, then the counted loop. */
  method WalkVector(r: TlReader, item: Layout, max: nat, f: uint32, g: uint32, ghost p0: nat) returns (ok: bool)
    requires p0 < r.pos < |r.data| + 4 && p0 < |r.data| && r.mediaDepth <= MEDIA_DEPTH
    modifies r
    ensures r.mediaDepth == old(r.mediaDepth)
    ensures Outcome(r.data, old(r.pos), ok, r.pos,
                    VectorEnd(item, max, f, g, r.data, old(r.pos), Below(r.data, p0, r.mediaDepth)))
    decreases Room(r.data, p0), 3, item, 1
  {
    hide CursorOk, Skip, Below, Run, VectorCount;
    ghost var d, depth := r.data, r.mediaDepth;
    ghost var sub := Below(d, p0, depth);
    Cursors(d);
    var n;
    ok, n := OpenVector(r); if !ok { return; }
    if n > max { return false; }
    ghost var p1 := r.pos;
    InBounds(d, p1);
    for i := 0 to n
      invariant r.mediaDepth == depth && p0 < r.pos && CursorOk(d, p1, r.pos)
      invariant RunItems(item, n, f, g, d, p1, sub) == RunItems(item, n - i, f, g, d, r.pos, sub)
    {
      ok := WalkLayout(r, item, f, g, p0); if !ok { return; }
    }
    return true;
  }

  // ---- RichText ----

  lemma RichTextLayouts(c: nat)
    ensures Body(RichText, c) == RichTextBody(c)
  {
  }

  method SkipRichText(r: TlReader) returns (ok: bool)
    requires r.pos < |r.data| + 4 && r.mediaDepth <= MEDIA_DEPTH
    modifies r
    ensures r.mediaDepth == old(r.mediaDepth)
    ensures Outcome(r.data, old(r.pos), ok, r.pos, Skip(RichText, r.data, old(r.pos), r.mediaDepth))
    decreases Room(r.data, r.pos), 12, Stop, 0
  {
    hide CursorOk, Skip, Body, Bit, Due, On;
    ghost var w;
    var c;
    ok, c, w := TakeCtor(r, RichText, r.mediaDepth); if !ok { return; }
    RichTextLayouts(c);
    if c == 0xdc3d824f { // textEmpty
      ok := true;
      Finished(r.data, r.pos, r.mediaDepth, w);
      return;
    }
    if c == 0x744694e0 { // textPlain
      ok, w := TakeString(r, w); if !ok { return; }
      Finished(r.data, r.pos, r.mediaDepth, w);
      return;
    }
    if c == 0x6724abc4 || c == 0xd912a59c || c == 0xc12622c4 || c == 0x9bf8bb95 || c == 0x6c3f19b9
       || c == 0xed6a8504 || c == 0xc7fb5e01 || c == 0x034b27f6 {
      ok, w := TakeObject(r, RichText, w); if !ok { return; }
      Finished(r.data, r.pos, r.mediaDepth, w);
      return;
    }
    if c == 0x3c2884c1 { // textUrl
      ok, w := TakeObject(r, RichText, w); if !ok { return; }
      ok, w := TakeString(r, w); if !ok { return; }
      ok, w := Take(r, 8, w); if !ok { return; }
      Finished(r.data, r.pos, r.mediaDepth, w);
      return;
    }
    if c == 0xde5a0dd6 || c == 0x1ccb966a || c == 0x35553762 { // textEmail, textPhone, textAnchor
      ok, w := TakeObject(r, RichText, w); if !ok { return; }
      ok, w := TakeString(r, w); if !ok { return; }
      Finished(r.data, r.pos, r.mediaDepth, w);
      return;
    }
    if c == 0x7e6260d7 { // textConcat
      ok, w := TakeVector(r, RichText, w); if !ok { return; }
      Finished(r.data, r.pos, r.mediaDepth, w);
      return;
    }
    if c == 0x081ccf4f { // textImage
      ok, w := Take(r, 16, w); if !ok { return; }
      Finished(r.data, r.pos, r.mediaDepth, w);
      return;
    }
    Refused(r.data, r.pos, r.mediaDepth, w);
    return false;
  }

  // ---- instant-view pages ----

  lemma PageCaptionLayouts(c: nat)
    ensures Body(PageCaption, c) == PageCaptionBody(c)
  {
  }

  method SkipPageCaption(r: TlReader) returns (ok: bool)
    requires r.pos < |r.data| + 4 && r.mediaDepth <= MEDIA_DEPTH
    modifies r
    ensures r.mediaDepth == old(r.mediaDepth)
    ensures Outcome(r.data, old(r.pos), ok, r.pos, Skip(PageCaption, r.data, old(r.pos), r.mediaDepth))
    decreases Room(r.data, r.pos), 12, Stop, 0
  {
    hide CursorOk, Skip, Body, Bit, Due, On;
    ghost var w;
    var c;
    ok, c, w := TakeCtor(r, PageCaption, r.mediaDepth); if !ok { return; }
    PageCaptionLayouts(c);
    if c != 0x6f747657 { Refused(r.data, r.pos, r.mediaDepth, w); return false; }
    ok, w := TakeObject(r, RichText, w); if !ok { return; }
    ok, w := TakeObject(r, RichText, w); if !ok { return; }
    Finished(r.data, r.pos, r.mediaDepth, w);
  }

  lemma PageListItemLayouts(c: nat)
    ensures Body(PageListItem, c) == PageListItemBody(c)
  {
  }

  method SkipPageListItem(r: TlReader) returns (ok: bool)
    requires r.pos < |r.data| + 4 && r.mediaDepth <= MEDIA_DEPTH
    modifies r
    ensures r.mediaDepth == old(r.mediaDepth)
    ensures Outcome(r.data, old(r.pos), ok, r.pos, Skip(PageListItem, r.data, old(r.pos), r.mediaDepth))
    decreases Room(r.data, r.pos), 12, Stop, 0
  {
    hide CursorOk, Skip, Body, Bit, Due, On;
    ghost var w;
    var c;
    ok, c, w := TakeCtor(r, PageListItem, r.mediaDepth); if !ok { return; }
    PageListItemLayouts(c);
    if c == 0xb92fb6cd { // pageListItemText
      ok, w := TakeObject(r, RichText, w); if !ok { return; }
      Finished(r.data, r.pos, r.mediaDepth, w);
      return;
    }
    if c == 0x25e073fc { // pageListItemBlocks
      ok, w := TakeVector(r, PageBlock, w); if !ok { return; }
      Finished(r.data, r.pos, r.mediaDepth, w);
      return;
    }
    Refused(r.data, r.pos, r.mediaDepth, w);
    return false;
  }

  lemma PageListOrderedItemLayouts(c: nat)
    ensures Body(PageListOrderedItem, c) == PageListOrderedItemBody(c)
  {
  }

  method SkipPageListOrderedItem(r: TlReader) returns (ok: bool)
    requires r.pos < |r.data| + 4 && r.mediaDepth <= MEDIA_DEPTH
    modifies r
    ensures r.mediaDepth == old(r.mediaDepth)
    ensures Outcome(r.data, old(r.pos), ok, r.pos, Skip(PageListOrderedItem, r.data, old(r.pos), r.mediaDepth))
    decreases Room(r.data, r.pos), 12, Stop, 0
  {
    hide CursorOk, Skip, Body, Bit, Due, On;
    ghost var w;
    var c;
    ok, c, w := TakeCtor(r, PageListOrderedItem, r.mediaDepth); if !ok { return; }
    PageListOrderedItemLayouts(c);
    if c == 0x5e068047 { // pageListOrderedItemText
      ok, w := TakeString(r, w); if !ok { return; }
      ok, w := TakeObject(r, RichText, w); if !ok { return; }
      Finished(r.data, r.pos, r.mediaDepth, w);
      return;
    }
    if c == 0x98dd8936 { // pageListOrderedItemBlocks
      ok, w := TakeString(r, w); if !ok { return; }
      ok, w := TakeVector(r, PageBlock, w); if !ok { return; }
      Finished(r.data, r.pos, r.mediaDepth, w);
      return;
    }
    Refused(r.data, r.pos, r.mediaDepth, w);
    return false;
  }

  lemma PageTableCellLayouts(c: nat)
    ensures Body(PageTableCell, c) == PageTableCellBody(c)
  {
  }

  method SkipPageTableCell(r: TlReader) returns (ok: bool)
    requires r.pos < |r.data| + 4 && r.mediaDepth <= MEDIA_DEPTH
    modifies r
    ensures r.mediaDepth == old(r.mediaDepth)
    ensures Outcome(r.data, old(r.pos), ok, r.pos, Skip(PageTableCell, r.data, old(r.pos), r.mediaDepth))
    decreases Room(r.data, r.pos), 12, Stop, 0
  {
    hide CursorOk, Skip, Body, Bit, Due, On;
    ghost var w;
    var c;
    ok, c, w := TakeCtor(r, PageTableCell, r.mediaDepth); if !ok { return; }
    PageTableCellLayouts(c);
    if c != 0x34566b6a { Refused(r.data, r.pos, r.mediaDepth, w); return false; }
    var flags;
    ok, flags, w := TakeFlags(r, w); if !ok { return; }
    ok, w := TakeIf(r, Bit(flags, 7), Obj(RichText, Stop), w); if !ok { return; }
    ok, w := TakeIf(r, Bit(flags, 1), Word(1, Stop), w); if !ok { return; }
    ok, w := TakeIf(r, Bit(flags, 2), Word(1, Stop), w); if !ok { return; }
    Finished(r.data, r.pos, r.mediaDepth, w);
  }

  lemma PageTableRowLayouts(c: nat)
    ensures Body(PageTableRow, c) == PageTableRowBody(c)
  {
  }

  method SkipPageTableRow(r: TlReader) returns (ok: bool)
    requires r.pos < |r.data| + 4 && r.mediaDepth <= MEDIA_DEPTH
    modifies r
    ensures r.mediaDepth == old(r.mediaDepth)
    ensures Outcome(r.data, old(r.pos), ok, r.pos, Skip(PageTableRow, r.data, old(r.pos), r.mediaDepth))
    decreases Room(r.data, r.pos), 12, Stop, 0
  {
    hide CursorOk, Skip, Body, Bit, Due, On;
    ghost var w;
    var c;
    ok, c, w := TakeCtor(r, PageTableRow, r.mediaDepth); if !ok { return; }
    PageTableRowLayouts(c);
    if c != 0xe0c0c5e5 { Refused(r.data, r.pos, r.mediaDepth, w); return false; }
    ok, w := TakeVector(r, PageTableCell, w); if !ok { return; }
    Finished(r.data, r.pos, r.mediaDepth, w);
  }

  lemma PageRelatedArticleLayouts(c: nat)
    ensures Body(PageRelatedArticle, c) == PageRelatedArticleBody(c)
  {
  }

  method SkipPageRelatedArticle(r: TlReader) returns (ok: bool)
    requires r.pos < |r.data| + 4 && r.mediaDepth <= MEDIA_DEPTH
    modifies r
    ensures r.mediaDepth == old(r.mediaDepth)
    ensures Outcome(r.data, old(r.pos), ok, r.pos, Skip(PageRelatedArticle, r.data, old(r.pos), r.mediaDepth))
    decreases Room(r.data, r.pos), 12, Stop, 0
  {
    hide CursorOk, Skip, Body, Bit, Due, On;
    ghost var w;
    var c;
    ok, c, w := TakeCtor(r, PageRelatedArticle, r.mediaDepth); if !ok { return; }
    PageRelatedArticleLayouts(c);
    if c != 0xb390dc08 { Refused(r.data, r.pos, r.mediaDepth, w); return false; }
    var flags;
    ok, flags, w := TakeFlags(r, w); if !ok { return; }
    ok, w := TakeString(r, w); if !ok { return; }
    ok, w := Take(r, 8, w); if !ok { return; }
    ok, w := TakeIf(r, Bit(flags, 0), Text(Stop), w); if !ok { return; }
    ok, w := TakeIf(r, Bit(flags, 1), Text(Stop), w); if !ok { return; }
    ok, w := TakeIf(r, Bit(flags, 2), Word(2, Stop), w); if !ok { return; }
    ok, w := TakeIf(r, Bit(flags, 3), Text(Stop), w); if !ok { return; }
    ok, w := TakeIf(r, Bit(flags, 4), Word(1, Stop), w); if !ok { return; }
    Finished(r.data, r.pos, r.mediaDepth, w);
  }

  lemma PageBlockLayouts(c: nat)
    ensures Body(PageBlock, c) == PageBlockBody(c)
  {
  }

  method SkipPageBlock(r: TlReader) returns (ok: bool)
    requires r.pos < |r.data| + 4 && r.mediaDepth <= MEDIA_DEPTH
    modifies r
    ensures r.mediaDepth == old(r.mediaDepth)
    ensures Outcome(r.data, old(r.pos), ok, r.pos, Skip(PageBlock, r.data, old(r.pos), r.mediaDepth))
    decreases Room(r.data, r.pos), 12, Stop, 0
  {
    hide CursorOk, Skip, Body, Bit, Due, On, PageBlockBody, IsTextBlock, IsCaptionedBlock;
    ghost var w;
    var c;
    ok, c, w := TakeCtor(r, PageBlock, r.mediaDepth); if !ok { return; }
    PageBlockLayouts(c);
    if IsTextBlock(c) { ok := TextBlock(r, c, w); return; }
    if IsCaptionedBlock(c) { ok := CaptionedBlock(r, c, w); return; }
    ok := ContainerBlock(r, c, w);
  }

  predicate IsTextBlock(c: uint32) {
    c == 0x13567e8a || c == 0xdb20b188 || c == 0x70abc3fd || c == 0x8ffa9a1f || c == 0xbfd064ec || c == 0xf12bb6e1
    || c == 0x1e148390 || c == 0x467a0766 || c == 0x48870999 || c == 0xce0d37b0 || c == 0xc070d93e || c == 0xbaafe5e0
    || c == 0x263d7c26 || c == 0x4f4456d5
  }

  predicate IsCaptionedBlock(c: uint32) {
    c == 0x1759c560 || c == 0x7c8fe7b6 || c == 0x804361ea || c == 0xa44f3ef6 || c == 0xa8718dc5 || c == 0xf259a80b
  }

  /** The PageBlock cases made of rich text: titles, paragraphs, quotes and the like. */
  method TextBlock(r: TlReader, c: uint32, ghost start: Trail) returns (ok: bool)
    requires On(r.data, r.pos, r.mediaDepth, start) && start == Trail(PageBlockBody(c), 0, 0, start.start, r.mediaDepth)
    requires IsTextBlock(c)
    modifies r
    ensures r.mediaDepth == old(r.mediaDepth)
    ensures Ended(r.data, old(r.pos), start, ok, r.pos)
    decreases Room(r.data, start.start), 5, Stop, 0
  {
    hide CursorOk, Skip, Body, Bit, Due, On;
    ghost var w := start;
    if c == 0x13567e8a || c == 0xdb20b188 { // pageBlockUnsupported, pageBlockDivider
      ok := true;
      Finished(r.data, r.pos, r.mediaDepth, w);
      return;
    }
    if c == 0xce0d37b0 { // pageBlockAnchor
      ok, w := TakeString(r, w); if !ok { return; }
      Finished(r.data, r.pos, r.mediaDepth, w);
      return;
    }
    if c == 0xc070d93e { // pageBlockPreformatted
      ok, w := TakeObject(r, RichText, w); if !ok { return; }
      ok, w := TakeString(r, w); if !ok { return; }
      Finished(r.data, r.pos, r.mediaDepth, w);
      return;
    }
    if c == 0xbaafe5e0 { // pageBlockAuthorDate
      ok, w := TakeObject(r, RichText, w); if !ok { return; }
      ok, w := Take(r, 4, w); if !ok { return; }
      Finished(r.data, r.pos, r.mediaDepth, w);
      return;
    }
    if c == 0x263d7c26 || c == 0x4f4456d5 { // pageBlockBlockquote, pageBlockPullquote
      ok, w := TakeObject(r, RichText, w); if !ok { return; }
      ok, w := TakeObject(r, RichText, w); if !ok { return; }
      Finished(r.data, r.pos, r.mediaDepth, w);
      return;
    }
    ok, w := TakeObject(r, RichText, w); if !ok { return; }
    Finished(r.data, r.pos, r.mediaDepth, w);
  }

  /** The PageBlock cases that end in a caption: photo, video, audio, map and embeds. */
  method CaptionedBlock(r: TlReader, c: uint32, ghost start: Trail) returns (ok: bool)
    requires On(r.data, r.pos, r.mediaDepth, start) && start == Trail(PageBlockBody(c), 0, 0, start.start, r.mediaDepth)
    requires IsCaptionedBlock(c)
    modifies r
    ensures r.mediaDepth == old(r.mediaDepth)
    ensures Ended(r.data, old(r.pos), start, ok, r.pos)
    decreases Room(r.data, start.start), 5, Stop, 0
  {
    hide CursorOk, Skip, Body, Bit, Due, On;
    ghost var w := start;
    if c == 0x1759c560 { // pageBlockPhoto
      var flags;
      ok, flags, w := TakeFlags(r, w); if !ok { return; }
      ok, w := Take(r, 8, w); if !ok { return; }
      ok, w := TakeObject(r, PageCaption, w); if !ok { return; }
      ok, w := CaptionLink(r, Bit(flags, 0), w); if !ok { return; }
      Finished(r.data, r.pos, r.mediaDepth, w);
      return;
    }
    if c == 0x7c8fe7b6 { // pageBlockVideo
      ok, w := Take(r, 12, w); if !ok { return; }
      ok, w := TakeObject(r, PageCaption, w); if !ok { return; }
      Finished(r.data, r.pos, r.mediaDepth, w);
      return;
    }
    if c == 0x804361ea { // pageBlockAudio
      ok, w := Take(r, 8, w); if !ok { return; }
      ok, w := TakeObject(r, PageCaption, w); if !ok { return; }
      Finished(r.data, r.pos, r.mediaDepth, w);
      return;
    }
    if c == 0xa44f3ef6 { // pageBlockMap
      ok, w := TakeObject(r, GeoPoint, w); if !ok { return; }
      ok, w := Take(r, 12, w); if !ok { return; }
      ok, w := TakeObject(r, PageCaption, w); if !ok { return; }
      Finished(r.data, r.pos, r.mediaDepth, w);
      return;
    }
    if c == 0xa8718dc5 { // pageBlockEmbed
      var flags;
      ok, flags, w := TakeFlags(r, w); if !ok { return; }
      ok, w := TakeIf(r, Bit(flags, 1), Text(Stop), w); if !ok { return; }
      ok, w := TakeIf(r, Bit(flags, 2), Text(Stop), w); if !ok { return; }
      ok, w := TakeIf(r, Bit(flags, 4), Word(2, Stop), w); if !ok { return; }
      ok, w := TakeIf(r, Bit(flags, 5), Word(2, Stop), w); if !ok { return; }
      ok, w := TakeObject(r, PageCaption, w); if !ok { return; }
      Finished(r.data, r.pos, r.mediaDepth, w);
      return;
    }
    ok, w := TakeString(r, w); if !ok { return; }
    ok, w := Take(r, 16, w); if !ok { return; }
    ok, w := TakeString(r, w); if !ok { return; }
    ok, w := Take(r, 4, w); if !ok { return; }
    ok, w := TakeVector(r, PageBlock, w); if !ok { return; }
    ok, w := TakeObject(r, PageCaption, w); if !ok { return; }
    Finished(r.data, r.pos, r.mediaDepth, w);
  }

  /** The link after a photo's caption: url and webpage id under one flag. */
  method CaptionLink(r: TlReader, on: bool, ghost w: Trail) returns (ok: bool, ghost v: Trail)
    requires On(r.data, r.pos, r.mediaDepth, w) && w.lay.If? && on == Bit(w.f, w.lay.bit)
             && w.lay.body == Text(Word(2, Stop))
    modifies r
    ensures r.mediaDepth == old(r.mediaDepth)
    ensures v == w.(lay := w.lay.next) && Advanced(r.data, old(r.pos), r.mediaDepth, w, ok, r.pos, v)
  {
    hide CursorOk, Bit, Due;
    v := w.(lay := w.lay.next);
    ghost var d, p := r.data, r.pos;
    if on {
      ghost var b := w.(lay := w.lay.body);
      ok, b := TakeString(r, b);
      if ok { ok, b := Take(r, 8, b); }
      OptionalTaken(d, p, r.mediaDepth, w, ok, r.pos, w.(lay := Stop));
    } else {
      ok := true;
      OptionalAbsent(d, p, w);
    }
  }

  /** The PageBlock cases that hold other blocks, lists, tables or articles, and the unknown ones. */
  method ContainerBlock(r: TlReader, c: uint32, ghost start: Trail) returns (ok: bool)
    requires On(r.data, r.pos, r.mediaDepth, start) && start == Trail(PageBlockBody(c), 0, 0, start.start, r.mediaDepth)
    requires !IsTextBlock(c) && !IsCaptionedBlock(c)
    modifies r
    ensures r.mediaDepth == old(r.mediaDepth)
    ensures Ended(r.data, old(r.pos), start, ok, r.pos)
    decreases Room(r.data, start.start), 5, Stop, 0
  {
    hide CursorOk, Skip, Body, Bit, Due, On;
    ghost var w := start;
    if c == 0x39f23300 { // pageBlockCover
      ok, w := TakeObject(r, PageBlock, w); if !ok { return; }
      Finished(r.data, r.pos, r.mediaDepth, w);
      return;
    }
    if c == 0xef1751b5 { // pageBlockChannel
      ok, w := TakeObject(r, Chat, w); if !ok { return; }
      Finished(r.data, r.pos, r.mediaDepth, w);
      return;
    }
    if c == 0xe4e88011 { // pageBlockList
      ok, w := TakeVector(r, PageListItem, w); if !ok { return; }
      Finished(r.data, r.pos, r.mediaDepth, w);
      return;
    }
    if c == 0x9a8ae1e1 { // pageBlockOrderedList
      ok, w := TakeVector(r, PageListOrderedItem, w); if !ok { return; }
      Finished(r.data, r.pos, r.mediaDepth, w);
      return;
    }
    if c == 0x65a0fa4d || c == 0x031f9590 { // pageBlockCollage, pageBlockSlideshow
      ok, w := TakeVector(r, PageBlock, w); if !ok { return; }
      ok, w := TakeObject(r, PageCaption, w); if !ok { return; }
      Finished(r.data, r.pos, r.mediaDepth, w);
      return;
    }
    if c == 0x76768bed { // pageBlockDetails
      ok, w := Take(r, 4, w); if !ok { return; }
      ok, w := TakeVector(r, PageBlock, w); if !ok { return; }
      ok, w := TakeObject(r, RichText, w); if !ok { return; }
      Finished(r.data, r.pos, r.mediaDepth, w);
      return;
    }
    if c == 0x16115a96 { // pageBlockRelatedArticles
      ok, w := TakeObject(r, RichText, w); if !ok { return; }
      ok, w := TakeVector(r, PageRelatedArticle, w); if !ok { return; }
      Finished(r.data, r.pos, r.mediaDepth, w);
      return;
    }
    if c == 0xbf4dea82 { // pageBlockTable
      ok, w := Take(r, 4, w); if !ok { return; }
      ok, w := TakeObject(r, RichText, w); if !ok { return; }
      ok, w := TakeVector(r, PageTableRow, w); if !ok { return; }
      Finished(r.data, r.pos, r.mediaDepth, w);
      return;
    }
    Refused(r.data, r.pos, r.mediaDepth, w);
    return false;
  }

  // ---- stories and media ----

  lemma ExtendedMediaLayouts(c: nat)
    ensures Body(ExtendedMedia, c) == ExtendedMediaBody(c)
  {
  }

  method SkipExtendedMedia(r: TlReader) returns (ok: bool)
    requires r.pos < |r.data| + 4 && r.mediaDepth <= MEDIA_DEPTH
    modifies r
    ensures r.mediaDepth == old(r.mediaDepth)
    ensures Outcome(r.data, old(r.pos), ok, r.pos, Skip(ExtendedMedia, r.data, old(r.pos), r.mediaDepth))
    decreases Room(r.data, r.pos), 12, Stop, 0
  {
    hide CursorOk, Skip, Body, Bit, Due, On;
    ghost var w;
    var c;
    ok, c, w := TakeCtor(r, ExtendedMedia, r.mediaDepth); if !ok { return; }
    ExtendedMediaLayouts(c);
    if c == 0xad628cc8 { // messageExtendedMediaPreview
      var flags;
      ok, flags, w := TakeFlags(r, w); if !ok { return; }
      ok, w := TakeIf(r, Bit(flags, 0), Word(2, Stop), w); if !ok { return; }
      ok, w := TakeIf(r, Bit(flags, 1), Obj(PhotoSize, Stop), w); if !ok { return; }
      ok, w := TakeIf(r, Bit(flags, 2), Word(1, Stop), w); if !ok { return; }
      Finished(r.data, r.pos, r.mediaDepth, w);
      return;
    }
    if c == 0xee479c64 { // messageExtendedMedia
      ok, w := TakeObject(r, Media, w); if !ok { return; }
      Finished(r.data, r.pos, r.mediaDepth, w);
      return;
    }
    Refused(r.data, r.pos, r.mediaDepth, w);
    return false;
  }

  lemma StoryItemLayouts(c: nat)
    ensures Body(StoryItem, c) == StoryItemBody(c)
  {
  }

  method SkipStoryItem(r: TlReader) returns (ok: bool)
    requires r.pos < |r.data| + 4 && r.mediaDepth <= MEDIA_DEPTH
    modifies r
    ensures r.mediaDepth == old(r.mediaDepth)
    ensures Outcome(r.data, old(r.pos), ok, r.pos, Skip(StoryItem, r.data, old(r.pos), r.mediaDepth))
    decreases Room(r.data, r.pos), 12, Stop, 0
  {
    hide CursorOk, Skip, Body, Bit, Due, On;
    ghost var w;
    var c;
    ok, c, w := TakeCtor(r, StoryItem, r.mediaDepth); if !ok { return; }
    StoryItemLayouts(c);
    if c == 0x51e6ee4f { // storyItemDeleted
      ok, w := Take(r, 4, w); if !ok { return; }
      Finished(r.data, r.pos, r.mediaDepth, w);
      return;
    }
    if c == 0xffadc913 { // storyItemSkipped
      ok, w := Take(r, 4, w); if !ok { return; }
      ok, w := Take(r, 12, w); if !ok { return; }
      Finished(r.data, r.pos, r.mediaDepth, w);
      return;
    }
    if c == 0x79b26a24 { ok := FullStory(r, c, w); return; }
    Refused(r.data, r.pos, r.mediaDepth, w);
    return false;
  }

  /** `storyItem#79b26a24`, whose media may hold another story. */
  method FullStory(r: TlReader, c: uint32, ghost start: Trail) returns (ok: bool)
    requires On(r.data, r.pos, r.mediaDepth, start) && start == Trail(StoryItemBody(c), 0, 0, start.start, r.mediaDepth)
    requires c == 0x79b26a24
    modifies r
    ensures r.mediaDepth == old(r.mediaDepth)
    ensures Ended(r.data, old(r.pos), start, ok, r.pos)
    decreases Room(r.data, start.start), 5, Stop, 0
  {
    hide CursorOk, Skip, Body, Bit, Due, On;
    ghost var w := start;
    var flags;
    ok, flags, w := TakeFlags(r, w); if !ok { return; }
    ok, w := Take(r, 8, w); if !ok { return; }
    ok, w := TakeIf(r, Bit(flags, 18), Obj(Peer, Stop), w); if !ok { return; }
    ok, w := TakeIf(r, Bit(flags, 17), Obj(StoryFwdHeader, Stop), w); if !ok { return; }
    ok, w := Take(r, 4, w); if !ok { return; }
    ok, w := TakeIf(r, Bit(flags, 0), Text(Stop), w); if !ok { return; }
    ok, w := TakeIf(r, Bit(flags, 1), Many(Obj(Entity, Stop), Stop), w); if !ok { return; }
    ok, w := TakeObject(r, Media, w); if !ok { return; }
    ok := StoryTail(r, flags, w);
  }

  /** The optional fields after the story's media. */
  method StoryTail(r: TlReader, flags: uint32, ghost start: Trail) returns (ok: bool)
    requires On(r.data, r.pos, r.mediaDepth, start) && start.f == flags
    requires start.lay == If(14, Many(Obj(MediaArea, Stop), Stop), If(2, Many(Obj(PrivacyRule, Stop), Stop),
                            If(3, Obj(StoryViews, Stop), If(15, Obj(Reaction, Stop), Stop))))
    modifies r
    ensures r.mediaDepth == old(r.mediaDepth)
    ensures Ended(r.data, old(r.pos), start, ok, r.pos)
    decreases Room(r.data, start.start), 4, Stop, 0
  {
    hide CursorOk, Skip, Body, Bit, Due, On;
    ghost var w := start;
    ok, w := TakeIf(r, Bit(flags, 14), Many(Obj(MediaArea, Stop), Stop), w); if !ok { return; }
    ok, w := TakeIf(r, Bit(flags, 2), Many(Obj(PrivacyRule, Stop), Stop), w); if !ok { return; }
    ok, w := TakeIf(r, Bit(flags, 3), Obj(StoryViews, Stop), w); if !ok { return; }
    ok, w := TakeIf(r, Bit(flags, 15), Obj(Reaction, Stop), w); if !ok { return; }
    Finished(r.data, r.pos, r.mediaDepth, w);
  }

  /** `tl_skip_message_media_ex`: refuse a fifth level, otherwise count this one in, walk the
      body and count it out again on every exit. */
  method SkipMedia(r: TlReader) returns (ok: bool)
    requires r.pos < |r.data| + 4 && r.mediaDepth <= MEDIA_DEPTH
    modifies r
    ensures r.mediaDepth == old(r.mediaDepth)
    ensures Outcome(r.data, old(r.pos), ok, r.pos, Skip(Media, r.data, old(r.pos), r.mediaDepth))
    decreases Room(r.data, r.pos), 12, Stop, 0
  {
    hide Body, Run;
    if r.mediaDepth >= MEDIA_DEPTH { return false; }
    r.mediaDepth := r.mediaDepth + 1;
    ok := SkipMediaBody(r);
    r.mediaDepth := r.mediaDepth - 1;
  }

  lemma MediaLayouts(c: nat)
    ensures Body(Media, c) == MediaBody(c)
  {
  }

  /** `skip_message_media_body`, entered with this object already counted. */
  method SkipMediaBody(r: TlReader) returns (ok: bool)
    requires r.pos < |r.data| + 4 && 1 <= r.mediaDepth <= MEDIA_DEPTH
    modifies r
    ensures r.mediaDepth == old(r.mediaDepth)
    ensures Outcome(r.data, old(r.pos), ok, r.pos, Skip(Media, r.data, old(r.pos), r.mediaDepth - 1))
    decreases Room(r.data, r.pos), 11, Stop, 0
  {
    hide CursorOk, Skip, Body, Bit, Due, On, MediaBody, IsPlainMedia, IsAttachedMedia;
    ghost var w;
    var c;
    ok, c, w := TakeCtor(r, Media, r.mediaDepth - 1); if !ok { return; }
    MediaLayouts(c);
    if IsPlainMedia(c) { ok := PlainMedia(r, c, w); return; }
    if IsAttachedMedia(c) { ok := AttachedMedia(r, c, w); return; }
    ok := NestingMedia(r, c, w);
  }

  predicate IsPlainMedia(c: uint32) {
    c == 0x3ded6320 || c == 0x9f84f49e || c == 0x56e0d474 || c == 0x70322949 || c == 0x2ec0533f || c == 0xb940c666
    || c == 0x3f7ee58b
  }

  predicate IsAttachedMedia(c: uint32) {
    c == 0x695150d7 || c == 0xddf8c26e || c == 0x4bd6e798 || c == 0xfdb19008 || c == 0x4cf4d72d || c == 0xaa073bee
  }

  /** The cases without nested documents: empty, geo, contact, venue, live location, dice. */
  method PlainMedia(r: TlReader, c: uint32, ghost start: Trail) returns (ok: bool)
    requires On(r.data, r.pos, r.mediaDepth, start) && start == Trail(MediaBody(c), 0, 0, start.start, r.mediaDepth)
    requires IsPlainMedia(c)
    modifies r
    ensures r.mediaDepth == old(r.mediaDepth)
    ensures Ended(r.data, old(r.pos), start, ok, r.pos)
    decreases Room(r.data, start.start), 5, Stop, 0
  {
    hide CursorOk, Skip, Body, Bit, Due, On;
    ghost var w := start;
    if c == 0x3ded6320 || c == 0x9f84f49e { // messageMediaEmpty, messageMediaUnsupported
      ok := true;
      Finished(r.data, r.pos, r.mediaDepth, w);
      return;
    }
    if c == 0x56e0d474 { // messageMediaGeo
      ok, w := TakeObject(r, GeoPoint, w); if !ok { return; }
      Finished(r.data, r.pos, r.mediaDepth, w);
      return;
    }
    if c == 0x70322949 { // messageMediaContact
      ok, w := TakeString(r, w); if !ok { return; }
      ok, w := TakeString(r, w); if !ok { return; }
      ok, w := TakeString(r, w); if !ok { return; }
      ok, w := TakeString(r, w); if !ok { return; }
      ok, w := Take(r, 8, w); if !ok { return; }
      Finished(r.data, r.pos, r.mediaDepth, w);
      return;
    }
    if c == 0x2ec0533f { // messageMediaVenue
      ok, w := TakeObject(r, GeoPoint, w); if !ok { return; }
      ok, w := TakeString(r, w); if !ok { return; }
      ok, w := TakeString(r, w); if !ok { return; }
      ok, w := TakeString(r, w); if !ok { return; }
      ok, w := TakeString(r, w); if !ok { return; }
      ok, w := TakeString(r, w); if !ok { return; }
      Finished(r.data, r.pos, r.mediaDepth, w);
      return;
    }
    if c == 0xb940c666 { // messageMediaGeoLive
      var flags;
      ok, flags, w := TakeFlags(r, w); if !ok { return; }
      ok, w := TakeObject(r, GeoPoint, w); if !ok { return; }
      ok, w := TakeIf(r, Bit(flags, 0), Word(1, Stop), w); if !ok { return; }
      ok, w := Take(r, 4, w); if !ok { return; }
      ok, w := TakeIf(r, Bit(flags, 1), Word(1, Stop), w); if !ok { return; }
      Finished(r.data, r.pos, r.mediaDepth, w);
      return;
    }
    ok, w := Take(r, 4, w); if !ok { return; }
    ok, w := TakeString(r, w); if !ok { return; }
    Finished(r.data, r.pos, r.mediaDepth, w);
  }

  /** Photo, document, web page, poll, game and giveaway. */
  method AttachedMedia(r: TlReader, c: uint32, ghost start: Trail) returns (ok: bool)
    requires On(r.data, r.pos, r.mediaDepth, start) && start == Trail(MediaBody(c), 0, 0, start.start, r.mediaDepth)
    requires IsAttachedMedia(c)
    modifies r
    ensures r.mediaDepth == old(r.mediaDepth)
    ensures Ended(r.data, old(r.pos), start, ok, r.pos)
    decreases Room(r.data, start.start), 5, Stop, 0
  {
    hide CursorOk, Skip, Body, Bit, Due, On;
    ghost var w := start;
    if c == 0x695150d7 { // messageMediaPhoto
      var flags;
      ok, flags, w := TakeFlags(r, w); if !ok { return; }
      ok, w := TakeIf(r, Bit(flags, 0), Obj(Photo, Stop), w); if !ok { return; }
      ok, w := TakeIf(r, Bit(flags, 2), Word(1, Stop), w); if !ok { return; }
      Finished(r.data, r.pos, r.mediaDepth, w);
      return;
    }
    if c == 0xddf8c26e { // messageMediaWebPage
      ok, w := Take(r, 4, w); if !ok { return; }
      ok, w := TakeObject(r, WebPage, w); if !ok { return; }
      Finished(r.data, r.pos, r.mediaDepth, w);
      return;
    }
    if c == 0x4bd6e798 { // messageMediaPoll
      ok, w := TakeObject(r, Poll, w); if !ok { return; }
      ok, w := TakeObject(r, PollResults, w); if !ok { return; }
      Finished(r.data, r.pos, r.mediaDepth, w);
      return;
    }
    if c == 0xfdb19008 { // messageMediaGame
      ok, w := TakeObject(r, Game, w); if !ok { return; }
      Finished(r.data, r.pos, r.mediaDepth, w);
      return;
    }
    if c == 0x4cf4d72d { // messageMediaDocument
      var flags;
      ok, flags, w := TakeFlags(r, w); if !ok { return; }
      ok, w := TakeIf(r, Bit(flags, 0), Obj(Document, Stop), w); if !ok { return; }
      ok, w := TakeIf(r, Bit(flags, 2), Word(1, Stop), w); if !ok { return; }
      ok, w := TakeIf(r, Bit(flags, 10), Many(Obj(Document, Stop), Stop), w); if !ok { return; }
      Finished(r.data, r.pos, r.mediaDepth, w);
      return;
    }
    ok := WalkRest(r, MediaBody(c), w);
  }

  /** Invoice, story and paid media, through which media nest inside media, and the unknown ones. */
  method NestingMedia(r: TlReader, c: uint32, ghost start: Trail) returns (ok: bool)
    requires On(r.data, r.pos, r.mediaDepth, start) && start == Trail(MediaBody(c), 0, 0, start.start, r.mediaDepth)
    requires !IsPlainMedia(c) && !IsAttachedMedia(c)
    modifies r
    ensures r.mediaDepth == old(r.mediaDepth)
    ensures Ended(r.data, old(r.pos), start, ok, r.pos)
    decreases Room(r.data, start.start), 5, Stop, 0
  {
    hide CursorOk, Skip, Body, Bit, Due, On;
    ghost var w := start;
    if c == 0xf6a548d3 { // messageMediaInvoice
      var flags;
      ok, flags, w := TakeFlags(r, w); if !ok { return; }
      ok, w := TakeString(r, w); if !ok { return; }
      ok, w := TakeString(r, w); if !ok { return; }
      ok, w := TakeIf(r, Bit(flags, 0), Obj(WebDocument, Stop), w); if !ok { return; }
      ok, w := TakeIf(r, Bit(flags, 2), Word(1, Stop), w); if !ok { return; }
      ok, w := TakeString(r, w); if !ok { return; }
      ok, w := Take(r, 8, w); if !ok { return; }
      ok, w := TakeString(r, w); if !ok { return; }
      ok, w := TakeIf(r, Bit(flags, 4), Obj(ExtendedMedia, Stop), w); if !ok { return; }
      Finished(r.data, r.pos, r.mediaDepth, w);
      return;
    }
    if c == 0x68cb6283 { // messageMediaStory
      var flags;
      ok, flags, w := TakeFlags(r, w); if !ok { return; }
      ok, w := TakeObject(r, Peer, w); if !ok { return; }
      ok, w := Take(r, 4, w); if !ok { return; }
      ok, w := TakeIf(r, Bit(flags, 0), Obj(StoryItem, Stop), w); if !ok { return; }
      Finished(r.data, r.pos, r.mediaDepth, w);
      return;
    }
    if c == 0xa8852491 { // messageMediaPaidMedia
      ok, w := Take(r, 8, w); if !ok { return; }
      ok, w := TakeVector(r, ExtendedMedia, w); if !ok { return; }
      Finished(r.data, r.pos, r.mediaDepth, w);
      return;
    }
    Refused(r.data, r.pos, r.mediaDepth, w);
    return false;
  }

  // ---- reply header ----

  lemma ReplyHeaderLayouts(c: nat)
    ensures Body(ReplyHeader, c) == ReplyHeaderBody(c)
  {
  }

  method SkipReplyHeader(r: TlReader) returns (ok: bool)
    requires r.pos < |r.data| + 4 && r.mediaDepth <= MEDIA_DEPTH
    modifies r
    ensures r.mediaDepth == old(r.mediaDepth)
    ensures Outcome(r.data, old(r.pos), ok, r.pos, Skip(ReplyHeader, r.data, old(r.pos), r.mediaDepth))
    decreases Room(r.data, r.pos), 12, Stop, 0
  {
    hide CursorOk, Skip, Body, Bit, Due, On;
    ghost var w;
    var c;
    ok, c, w := TakeCtor(r, ReplyHeader, r.mediaDepth); if !ok { return; }
    ReplyHeaderLayouts(c);
    if c == 0xe5af939 { // messageReplyStoryHeader
      ok, w := TakeObject(r, Peer, w); if !ok { return; }
      ok, w := Take(r, 4, w); if !ok { return; }
      Finished(r.data, r.pos, r.mediaDepth, w);
      return;
    }
    if c != 0xafbc09db { Refused(r.data, r.pos, r.mediaDepth, w); return false; }
    var flags;
    ok, flags, w := TakeFlags(r, w); if !ok { return; }
    ok, w := TakeIf(r, Bit(flags, 4), Word(1, Stop), w); if !ok { return; }
    ok, w := TakeIf(r, Bit(flags, 0), Obj(Peer, Stop), w); if !ok { return; }
    ok, w := TakeIf(r, Bit(flags, 5), Obj(FwdHeader, Stop), w); if !ok { return; }
    ok, w := TakeIf(r, Bit(flags, 8), Obj(Media, Stop), w); if !ok { return; }
    ok, w := TakeIf(r, Bit(flags, 1), Word(1, Stop), w); if !ok { return; }
    ok, w := TakeIf(r, Bit(flags, 6), Text(Stop), w); if !ok { return; }
    ok, w := TakeIf(r, Bit(flags, 7), Many(Obj(Entity, Stop), Stop), w); if !ok { return; }
    ok, w := TakeIf(r, Bit(flags, 10), Word(1, Stop), w); if !ok { return; }
    Finished(r.data, r.pos, r.mediaDepth, w);
  }

  // ---- messages ----

  lemma MessageActionLayouts(c: nat)
    ensures Body(MessageAction, c) == MessageActionBody(c)
  {
  }

  /** `skip_message_action`: the action of a service message. */
  method SkipMessageAction(r: TlReader) returns (ok: bool)
    requires r.pos < |r.data| + 4 && r.mediaDepth <= MEDIA_DEPTH
    modifies r
    ensures r.mediaDepth == old(r.mediaDepth)
    ensures Outcome(r.data, old(r.pos), ok, r.pos, Skip(MessageAction, r.data, old(r.pos), r.mediaDepth))
    decreases Room(r.data, r.pos), 12, Stop, 0
  {
    hide CursorOk, Skip, Body, Bit, Due, On, MessageActionBody, IsShortAction;
    ghost var w;
    var c;
    ok, c, w := TakeCtor(r, MessageAction, r.mediaDepth); if !ok { return; }
    MessageActionLayouts(c);
    if IsShortAction(c) { ok := ShortAction(r, c, w); } else { ok := LongAction(r, c, w); }
  }

  predicate IsShortAction(c: uint32) {
    c == 0xb6aef7b0 || c == 0x95e3fbef || c == 0x94bd38ed || c == 0x9fbab604 || c == 0x4792929b || c == 0x9244c2ad
    || c == 0xb4c38cb5 || c == 0xb5a1ce5a || c == 0x95d2ac92 || c == 0xfae69f56 || c == 0xa43f30cc || c == 0xe1037f92
    || c == 0x031224c3 || c == 0xea3948e9
  }

  /** Actions with no payload, or with a title, an id or both. */
  method ShortAction(r: TlReader, c: uint32, ghost start: Trail) returns (ok: bool)
    requires On(r.data, r.pos, r.mediaDepth, start)
             && start == Trail(MessageActionBody(c), 0, 0, start.start, r.mediaDepth)
    requires IsShortAction(c)
    modifies r
    ensures r.mediaDepth == old(r.mediaDepth)
    ensures Ended(r.data, old(r.pos), start, ok, r.pos)
    decreases Room(r.data, start.start), 5, Stop, 0
  {
    hide CursorOk, Skip, Body, Bit, Due, On;
    ghost var w := start;
    // messageActionChatEditTitle, messageActionChannelCreate, messageActionCustomAction
    if c == 0xb5a1ce5a || c == 0x95d2ac92 || c == 0xfae69f56 {
      ok, w := TakeString(r, w); if !ok { return; }
      Finished(r.data, r.pos, r.mediaDepth, w);
      return;
    }
    // messageActionChatDeleteUser, messageActionChatMigrateTo, messageActionChatJoinedByLink
    if c == 0xa43f30cc || c == 0xe1037f92 || c == 0x031224c3 {
      ok, w := Take(r, 8, w); if !ok { return; }
      Finished(r.data, r.pos, r.mediaDepth, w);
      return;
    }
    if c == 0xea3948e9 { // messageActionChannelMigrateFrom
      ok, w := TakeString(r, w); if !ok { return; }
      ok, w := Take(r, 8, w); if !ok { return; }
      Finished(r.data, r.pos, r.mediaDepth, w);
      return;
    }
    ok := true;
    Finished(r.data, r.pos, r.mediaDepth, w);
  }

  /** Actions with user lists, photos or calls, and the unknown ones. */
  method LongAction(r: TlReader, c: uint32, ghost start: Trail) returns (ok: bool)
    requires On(r.data, r.pos, r.mediaDepth, start)
             && start == Trail(MessageActionBody(c), 0, 0, start.start, r.mediaDepth)
    requires !IsShortAction(c)
    modifies r
    ensures r.mediaDepth == old(r.mediaDepth)
    ensures Ended(r.data, old(r.pos), start, ok, r.pos)
    decreases Room(r.data, start.start), 5, Stop, 0
  {
    hide CursorOk, Skip, Body, Bit, Due, On;
    ghost var w := start;
    if c == 0xbd47cbad { // messageActionChatCreate
      ok, w := TakeString(r, w); if !ok { return; }
      ok, w := TakeLongs(r, w); if !ok { return; }
      Finished(r.data, r.pos, r.mediaDepth, w);
      return;
    }
    if c == 0x15cefd00 { // messageActionChatAddUser
      ok, w := TakeLongs(r, w); if !ok { return; }
      Finished(r.data, r.pos, r.mediaDepth, w);
      return;
    }
    if c == 0x7fcb13a8 { // messageActionChatEditPhoto
      ok, w := TakeObject(r, Photo, w); if !ok { return; }
      Finished(r.data, r.pos, r.mediaDepth, w);
      return;
    }
    if c == 0x80e11a7f { // messageActionPhoneCall
      var flags;
      ok, flags, w := TakeFlags(r, w); if !ok { return; }
      ok, w := Take(r, 8, w); if !ok { return; }
      ok, w := TakeIf(r, Bit(flags, 0), Word(1, Stop), w); if !ok { return; }
      ok, w := TakeIf(r, Bit(flags, 1), Word(1, Stop), w); if !ok { return; }
      Finished(r.data, r.pos, r.mediaDepth, w);
      return;
    }
    if c == 0x7a0d7f42 { // messageActionGroupCall
      var flags;
      ok, flags, w := TakeFlags(r, w); if !ok { return; }
      ok, w := Take(r, 20, w); if !ok { return; }
      ok, w := TakeIf(r, Bit(flags, 0), Word(1, Stop), w); if !ok { return; }
      Finished(r.data, r.pos, r.mediaDepth, w);
      return;
    }
    if c == 0xb3a07661 { // messageActionGroupCallScheduled
      ok, w := Take(r, 24, w); if !ok { return; }
      Finished(r.data, r.pos, r.mediaDepth, w);
      return;
    }
    if c == 0x502f92f7 { // messageActionInviteToGroupCall
      ok, w := Take(r, 20, w); if !ok { return; }
      ok, w := TakeLongs(r, w); if !ok { return; }
      Finished(r.data, r.pos, r.mediaDepth, w);
      return;
    }
    Refused(r.data, r.pos, r.mediaDepth, w);
    return false;
  }

  /** `users:Vector<long>`, refused above 4096 entries. */
  method TakeLongs(r: TlReader, ghost w: Trail) returns (ok: bool, ghost v: Trail)
    requires On(r.data, r.pos, r.mediaDepth, w) && w.lay.ManyMax? && w.lay.max == 4096 && w.lay.item == Word(2, Stop)
    modifies r`pos
    ensures v == w.(lay := w.lay.next) && Advanced(r.data, old(r.pos), r.mediaDepth, w, ok, r.pos, v)
  {
    hide Below, VectorEnd;
    v := w.(lay := w.lay.next);
    ghost var p := r.pos;
    ok := SkipLongs(r, w.f, w.g, w.start, w.depth);
    Onward(r.data, w.start, p, r.pos);
  }

  method SkipLongs(r: TlReader, ghost f: nat, ghost g: nat, ghost p0: nat, ghost depth: nat) returns (ok: bool)
    requires p0 <= |r.data| && r.pos < |r.data| + 4
    modifies r`pos
    ensures Outcome(r.data, old(r.pos), ok, r.pos,
                    VectorEnd(Word(2, Stop), 4096, f, g, r.data, old(r.pos), Below(r.data, p0, depth)))
  {
    hide Below, VectorCount, VectorEnd, RunItems, CursorOk;
    LongsVector(f, g, r.data, r.pos, Below(r.data, p0, depth));
    ghost var p := r.pos;
    var n;
    ok, n := OpenVector(r); if !ok { return; }
    if n > 4096 { return false; }
    var size := 8 * n;
    if r.Left() < size { return false; }
    CursorAhead(r.data, p, 2 + 2 * n);
    r.Advance(size);
    ok := true;
  }

  lemma CursorAhead(d: bytes, p: nat, words: nat)
    ensures p + 4 * words <= |d| ==> CursorOk(d, p, p + 4 * words)
  {
  }

  lemma LongsVector(f: nat, g: nat, d: bytes, p: nat, sub: (Type, nat) -> Option<nat>)
    ensures var n := VectorCount(d, p);
            VectorEnd(Word(2, Stop), 4096, f, g, d, p, sub) ==
            if n.None? || n.value > 4096 || |d| - p - 8 < 8 * n.value then None else Some(p + 8 + 8 * n.value)
  {
    hide RunItems, VectorCount;
    var n := VectorCount(d, p);
    if n.Some? { LongsEnd(n.value, f, g, d, p + 8, sub); }
  }

  /** The one bounds check before the loop decides like checking every element. */
  lemma {:induction false} LongsEnd(n: nat, f: nat, g: nat, d: bytes, p: nat, sub: (Type, nat) -> Option<nat>)
    requires p <= |d|
    ensures RunItems(Word(2, Stop), n, f, g, d, p, sub) == if |d| - p < 8 * n then None else Some(p + 8 * n)
  {
    if n > 0 && |d| - p >= 8 {
      LongsEnd(n - 1, f, g, d, p + 8, sub);
    }
  }

  lemma MessageLayouts(c: nat)
    ensures Body(Message, c) == MessageBody(c)
  {
  }

  /** `tl_skip_message` */
  method SkipMessage(r: TlReader) returns (ok: bool)
    requires r.pos < |r.data| + 4 && r.mediaDepth <= MEDIA_DEPTH
    modifies r
    ensures r.mediaDepth == old(r.mediaDepth)
    ensures Outcome(r.data, old(r.pos), ok, r.pos, Skip(Message, r.data, old(r.pos), r.mediaDepth))
    decreases Room(r.data, r.pos), 12, Stop, 0
  {
    hide CursorOk, Skip, Body, Bit, Due, On, MessageBody;
    ghost var w;
    var c;
    ok, c, w := TakeCtor(r, Message, r.mediaDepth); if !ok { return; }
    MessageLayouts(c);
    ok := MessageOf(r, c, w);
  }

  /** `messageEmpty`, `messageService` and, by `UserMessage`, `message`. */
  method MessageOf(r: TlReader, c: uint32, ghost start: Trail) returns (ok: bool)
    requires On(r.data, r.pos, r.mediaDepth, start) && start == Trail(MessageBody(c), 0, 0, start.start, r.mediaDepth)
    modifies r
    ensures r.mediaDepth == old(r.mediaDepth)
    ensures Ended(r.data, old(r.pos), start, ok, r.pos)
    decreases Room(r.data, start.start), 5, Stop, 0
  {
    hide CursorOk, Skip, Body, Bit, Due, On;
    ghost var w := start;
    if c == 0x90a6ca84 { // messageEmpty
      var flags;
      ok, flags, w := TakeFlags(r, w); if !ok { return; }
      ok, w := Take(r, 4, w); if !ok { return; }
      ok, w := TakeIf(r, Bit(flags, 0), Obj(Peer, Stop), w); if !ok { return; }
      Finished(r.data, r.pos, r.mediaDepth, w);
      return;
    }
    if c == 0x2b085862 { // messageService
      var flags;
      ok, flags, w := TakeFlags(r, w); if !ok { return; }
      ok, w := Take(r, 4, w); if !ok { return; }
      ok, w := TakeIf(r, Bit(flags, 8), Obj(Peer, Stop), w); if !ok { return; }
      ok, w := TakeObject(r, Peer, w); if !ok { return; }
      ok, w := TakeIf(r, Bit(flags, 3), Obj(ReplyHeader, Stop), w); if !ok { return; }
      ok, w := Take(r, 4, w); if !ok { return; }
      ok, w := TakeObject(r, MessageAction, w); if !ok { return; }
      ok, w := TakeIf(r, Bit(flags, 20), Obj(Reactions, Stop), w); if !ok { return; }
      ok, w := TakeIf(r, Bit(flags, 25), Word(1, Stop), w); if !ok { return; }
      Finished(r.data, r.pos, r.mediaDepth, w);
      return;
    }
    if c == 0x94345242 { ok := UserMessage(r, c, w); return; }
    Refused(r.data, r.pos, r.mediaDepth, w);
    return false;
  }

  /** `message#94345242` */
  method UserMessage(r: TlReader, c: uint32, ghost start: Trail) returns (ok: bool)
    requires On(r.data, r.pos, r.mediaDepth, start) && start == Trail(MessageBody(c), 0, 0, start.start, r.mediaDepth)
    requires c == 0x94345242
    modifies r
    ensures r.mediaDepth == old(r.mediaDepth)
    ensures Ended(r.data, old(r.pos), start, ok, r.pos)
    decreases Room(r.data, start.start), 4, Word(0, Stop), 0
  {
    hide CursorOk, Skip, Body, Bit, Due, On;
    ghost var w := start;
    var flags, flags2;
    ok, flags, w := TakeFlags(r, w); if !ok { return; }
    ok, flags2, w := TakeFlags2(r, w); if !ok { return; }
    ok, w := Take(r, 4, w); if !ok { return; }
    ok, w := TakeIf(r, Bit(flags, 8), Obj(Peer, Stop), w); if !ok { return; }
    ok, w := TakeObject(r, Peer, w); if !ok { return; }
    ok, w := TakeIf(r, Bit(flags, 28), Obj(Peer, Stop), w); if !ok { return; }
    ok, w := TakeIf(r, Bit(flags, 2), Obj(FwdHeader, Stop), w); if !ok { return; }
    ok, w := TakeIf(r, Bit(flags, 11), Word(2, Stop), w); if !ok { return; }
    ok, w := TakeIf(r, Bit(flags2, 0), Word(2, Stop), w); if !ok { return; }
    ok, w := TakeIf(r, Bit(flags, 3), Obj(ReplyHeader, Stop), w); if !ok { return; }
    ok, w := Take(r, 4, w); if !ok { return; }
    ok, w := TakeString(r, w); if !ok { return; }
    ok := MessageRest(r, flags, flags2, w);
  }

  /** The fields after the text. */
  method MessageRest(r: TlReader, flags: uint32, flags2: uint32, ghost start: Trail) returns (ok: bool)
    requires On(r.data, r.pos, r.mediaDepth, start) && start.f == flags && start.g == flags2
             && start.lay == MessageTail()
    modifies r
    ensures r.mediaDepth == old(r.mediaDepth)
    ensures Ended(r.data, old(r.pos), start, ok, r.pos)
    decreases Room(r.data, start.start), 4, Stop, 1
  {
    hide CursorOk, Skip, Body, Bit, Due, On;
    ghost var w := start;
    ok, w := TakeIf(r, Bit(flags, 9), Obj(Media, Stop), w); if !ok { return; }
    ok, w := TakeIf(r, Bit(flags, 6), Obj(ReplyMarkup, Stop), w); if !ok { return; }
    ok, w := TakeIf(r, Bit(flags, 7), Many(Obj(Entity, Stop), Stop), w); if !ok { return; }
    ok, w := TakeIf(r, Bit(flags, 10), Word(2, Stop), w); if !ok { return; }
    ok, w := TakeIf(r, Bit(flags, 23), Obj(Replies, Stop), w); if !ok { return; }
    ok, w := TakeIf(r, Bit(flags, 15), Word(1, Stop), w); if !ok { return; }
    ok, w := TakeIf(r, Bit(flags, 16), Text(Stop), w); if !ok { return; }
    ok := MessageEnd(r, flags, flags2, w);
  }

  /** The fields from `grouped_id` on. */
  method MessageEnd(r: TlReader, flags: uint32, flags2: uint32, ghost start: Trail) returns (ok: bool)
    requires On(r.data, r.pos, r.mediaDepth, start) && start.f == flags && start.g == flags2
             && start.lay == MessageEnding()
    modifies r
    ensures r.mediaDepth == old(r.mediaDepth)
    ensures Ended(r.data, old(r.pos), start, ok, r.pos)
    decreases Room(r.data, start.start), 4, Stop, 0
  {
    hide CursorOk, Skip, Body, Bit, Due, On;
    ghost var w := start;
    ok, w := TakeIf(r, Bit(flags, 17), Word(2, Stop), w); if !ok { return; }
    ok, w := TakeIf(r, Bit(flags, 20), Obj(Reactions, Stop), w); if !ok { return; }
    ok, w := TakeIf(r, Bit(flags, 22), Many(Obj(RestrictionReason, Stop), Stop), w); if !ok { return; }
    ok, w := TakeIf(r, Bit(flags, 25), Word(1, Stop), w); if !ok { return; }
    ok, w := TakeIf(r, Bit(flags2, 30), Word(1, Stop), w); if !ok { return; }
    ok, w := TakeIf(r, Bit(flags2, 2), Word(2, Stop), w); if !ok { return; }
    ok, w := TakeIf(r, Bit(flags2, 3), Obj(FactCheck, Stop), w); if !ok { return; }
    Finished(r.data, r.pos, r.mediaDepth, w);
  }
}
