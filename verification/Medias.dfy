/** What `tl_skip_message_media_ex` of `src/core/tl_skip.c` reports while it skips: the kind of media
    and, for a photo or a document, what a caller needs to fetch the file. */
module Medias {
  import opened Bytes
  import opened TlCodec
  import opened TlGrammar
  import opened TlSerial
  import opened TlTrees
  import opened TlSkip
  import PhotoSizes
  import ServiceRows

  datatype MediaInfo = MediaInfo(kind: nat, photoId: int, documentId: int, dcId: int, accessHash: int,
                                 fileReference: bytes, thumbType: bytes, documentSize: int, documentMime: bytes,
                                 documentFilename: bytes)

  const BLANK := MediaInfo(0, 0, 0, 0, 0, [], [], 0, [], [])

  const MEDIA_PHOTO := 3
  const MEDIA_DOCUMENT := 4
  const MEDIA_OTHER := 17

  const MESSAGE_MEDIA_PHOTO: uint32 := 0x695150d7
  const MESSAGE_MEDIA_DOCUMENT: uint32 := 0x4cf4d72d
  const PHOTO_EMPTY: uint32 := 0x2331b22d
  const PHOTO: uint32 := 0xfb197a65
  const DOCUMENT_EMPTY: uint32 := 0x36f8c871
  const DOCUMENT: uint32 := 0x8fd4c4d8
  const ATTRIBUTE_FILENAME: uint32 := 0x15590068

  const FILE_REF_MAX := 128
  const MIME_MAX := 64
  const FILENAME_MAX := 128
  const THUMB_MAX := 8

  /** The kind a constructor stands for. */
  function KindOf(c: uint32): nat {
    if c == 0x3ded6320 then 1
    else if c == 0x9f84f49e then 2
    else if c == MESSAGE_MEDIA_PHOTO then MEDIA_PHOTO
    else if c == MESSAGE_MEDIA_DOCUMENT then MEDIA_DOCUMENT
    else if c == 0x56e0d474 then 5
    else if c == 0x70322949 then 6
    else if c == 0x2ec0533f then 7
    else if c == 0xb940c666 then 8
    else if c == 0x3f7ee58b then 9
    else if c == 0xddf8c26e then 10
    else if c == 0x4bd6e798 then 11
    else if c == 0xf6a548d3 then 12
    else if c == 0x68cb6283 then 13
    else if c == 0xaa073bee then 14
    else if c == 0xfdb19008 then 15
    else if c == 0xa8852491 then 16
    else MEDIA_OTHER
  }

  // ---- what is reported ----

  function KeptReference(ref: bytes): bytes {
    if |ref| <= FILE_REF_MAX then ref else ref[..FILE_REF_MAX]
  }

  /** The two optional or mandatory vectors in front of the data centre. */
  function PhotoVectors(): Layout {
    Many(Obj(PhotoSize, Stop), If(1, Many(Obj(VideoSize, Stop), Stop), Stop))
  }

  function DocumentVectors(): Layout {
    If(0, Many(Obj(PhotoSize, Stop), Stop), If(1, Many(Obj(VideoSize, Stop), Stop), Stop))
  }

  /** Identity, access hash and file reference of the object at `p`, flags first. */
  ghost predicate ReportsFile(d: bytes, p: nat, id: int, mi: MediaInfo) {
    && id == Signed64(Read64(d, p + 8)) && mi.accessHash == Signed64(Read64(d, p + 16))
    && ReadString(d, p + 24).Some? && mi.fileReference == KeptReference(ReadString(d, p + 24).value.0)
  }

  /** The word behind the vectors that begin at `p`. */
  ghost predicate DcBehind(vectors: Layout, d: bytes, p: nat, start: nat, depth: nat, dc: int)
    requires start <= |d|
  {
    var q := Run(vectors, Read32(d, start + 4), 0, d, p, Below(d, start, depth));
    q.Some? && dc == Signed32(Read32(d, q.value))
  }

  /** The name of the largest of the sizes whose vector begins at `p`. */
  ghost predicate NamesThumb(d: bytes, p: nat, depth: nat, best: bytes) {
    && VectorCount(d, p).Some?
    && PhotoSizes.Names(PhotoSizes.Sizes(d, p + 8, VectorCount(d, p).value, depth), THUMB_MAX, best)
  }

  /** What is reported of the photo at `p`. */
  ghost predicate ReportsPhoto(d: bytes, p: nat, depth: nat, mi0: MediaInfo, mi: MediaInfo) {
    if Read32(d, p) == PHOTO_EMPTY then mi == mi0.(photoId := Signed64(Read64(d, p + 4)))
    else
      && p <= |d| && ReportsFile(d, p, mi.photoId, mi)
      && DcBehind(PhotoVectors(), d, After(d, ReadString(d, p + 24).value.1, 4), p, depth, mi.dcId)
      && NamesThumb(d, After(d, ReadString(d, p + 24).value.1, 4), depth, mi.thumbType)
      && mi == mi0.(photoId := mi.photoId, accessHash := mi.accessHash, fileReference := mi.fileReference,
                    dcId := mi.dcId, thumbType := mi.thumbType)
  }

  /** The name kept after the attribute at `p`, if `name` was kept before it. */
  function NameAt(d: bytes, p: nat, name: bytes): bytes {
    if Read32(d, p) != ATTRIBUTE_FILENAME || ReadString(d, p + 4).None? then name
    else PhotoSizes.Cut(ServiceRows.CString(ReadString(d, p + 4).value.0), FILENAME_MAX)
  }

  /** The name kept after `n` attributes from `p` on. */
  function NameFrom(d: bytes, p: nat, n: nat, depth: nat, name: bytes): bytes
    decreases n
  {
    if n == 0 then name
    else match Skip(DocumentAttribute, d, p, depth)
      case None => name
      case Some(q) => NameFrom(d, q, n - 1, depth, NameAt(d, p, name))
  }

  /** The name in the vector of attributes at `p`. */
  ghost predicate NamesFile(d: bytes, p: nat, depth: nat, name0: bytes, name: bytes) {
    VectorCount(d, p).Some? && name == NameFrom(d, p + 8, VectorCount(d, p).value, depth, name0)
  }

  /** The attributes come behind the vectors at `p` and the data centre. */
  ghost predicate NameBehind(d: bytes, p: nat, start: nat, depth: nat, name0: bytes, name: bytes)
    requires start <= |d|
  {
    var q := Run(DocumentVectors(), Read32(d, start + 4), 0, d, p, Below(d, start, depth));
    q.Some? && NamesFile(d, After(d, q.value, 4), depth, name0, name)
  }

  /** Type, size, data centre and name of the document at `p`, its type at `q`. */
  ghost predicate ReportsMime(d: bytes, p: nat, q: nat, depth: nat, name0: bytes, mi: MediaInfo)
    requires p <= |d|
  {
    var mime := ReadString(d, q);
    && mime.Some? && mi.documentMime == PhotoSizes.Cut(ServiceRows.CString(mime.value.0), MIME_MAX)
    && mi.documentSize == Signed64(Read64(d, mime.value.1))
    && DcBehind(DocumentVectors(), d, After(d, mime.value.1, 8), p, depth, mi.dcId)
    && NameBehind(d, After(d, mime.value.1, 8), p, depth, name0, mi.documentFilename)
  }

  /** What is reported of the document at `p`. */
  ghost predicate ReportsDocument(d: bytes, p: nat, depth: nat, mi0: MediaInfo, mi: MediaInfo) {
    if Read32(d, p) == DOCUMENT_EMPTY then mi == mi0.(documentId := Signed64(Read64(d, p + 4)))
    else
      && p <= |d| && ReportsFile(d, p, mi.documentId, mi)
      && ReportsMime(d, p, After(d, ReadString(d, p + 24).value.1, 4), depth, mi0.documentFilename, mi)
      && mi == mi0.(documentId := mi.documentId, accessHash := mi.accessHash, fileReference := mi.fileReference,
                    dcId := mi.dcId, documentMime := mi.documentMime, documentSize := mi.documentSize,
                    documentFilename := mi.documentFilename)
  }

  // ---- the readers ----

  /** Flags, id and access hash. */
  method TakeHead(r: TlReader, ghost w: Trail)
    returns (ok: bool, flags: uint32, id: uint64, access: uint64, ghost v: Trail)
    requires On(r.data, r.pos, r.mediaDepth, w) && r.pos <= |r.data| && w.lay.Flags? && w.lay.next.Word?
             && w.lay.next.n == 4
    modifies r`pos
    ensures v == w.(lay := w.lay.next.next, f := flags) && Advanced(r.data, old(r.pos), r.mediaDepth, w, ok, r.pos, v)
    ensures ok ==> r.pos == old(r.pos) + 20 <= |r.data| && flags == Read32(r.data, old(r.pos))
                   && id == Read64(r.data, old(r.pos) + 4) && access == Read64(r.data, old(r.pos) + 12)
  {
    hide Below, Read32, Read64, Due;
    HeadDue(r.data, r.pos, r.mediaDepth, w);
    flags, id, access := 0, 0, 0;
    v := w.(lay := w.lay.next.next, f := flags);
    if r.Left() < 4 { return false, flags, id, access, v; }
    flags := r.ReadUint32();
    v := v.(f := flags);
    if r.Left() < 16 { return false, flags, id, access, v; }
    id := r.ReadUint64();
    access := r.ReadUint64();
    ok := true;
  }

  lemma HeadDue(d: bytes, p: nat, depth: nat, w: Trail)
    requires On(d, p, depth, w) && p <= |d| && w.lay.Flags? && w.lay.next.Word? && w.lay.next.n == 4
    ensures Due(d, p, w) ==
            if |d| - p < 20 then None else Due(d, p + 20, w.(lay := w.lay.next.next, f := Read32(d, p)))
  {
    hide Below, Read32;
    if |d| - p >= 4 {
      var v := w.(lay := w.lay.next, f := Read32(d, p));
      assert Due(d, p, w) == Due(d, p + 4, v);
    }
  }

  /** A string that is kept. */
  method TakeText(r: TlReader, ghost w: Trail) returns (ok: bool, s: bytes, ghost v: Trail)
    requires On(r.data, r.pos, r.mediaDepth, w) && w.lay.Text?
    modifies r`pos
    ensures v == w.(lay := w.lay.next) && Advanced(r.data, old(r.pos), r.mediaDepth, w, ok, r.pos, v)
    ensures ok ==> ReadString(r.data, old(r.pos)) == Some((s, r.pos))
  {
    hide Below, ReadString, CursorOk;
    v := w.(lay := w.lay.next);
    ghost var p := r.pos;
    if !r.Ok() { NoText(r.data, p, r.mediaDepth, w); return false, [], v; }
    PhotoSizes.NameCursor(r.data, p);
    var t := r.ReadBytes();
    Onward(r.data, w.start, p, r.pos);
    ok, s := t.Some?, if t.Some? then t.value else [];
  }

  lemma NoText(d: bytes, p: nat, depth: nat, w: Trail)
    requires On(d, p, depth, w) && w.lay.Text? && p >= |d|
    ensures Ended(d, p, w, false, p)
  {
    hide Below;
  }

  /** A word that is kept. */
  method TakeInt(r: TlReader, ghost w: Trail) returns (ok: bool, x: uint32, ghost v: Trail)
    requires On(r.data, r.pos, r.mediaDepth, w) && w.lay.Word? && w.lay.n == 1
    modifies r`pos
    ensures v == w.(lay := w.lay.next) && Advanced(r.data, old(r.pos), r.mediaDepth, w, ok, r.pos, v)
    ensures ok ==> x == Read32(r.data, old(r.pos)) && r.pos == After(r.data, old(r.pos), 4)
  {
    hide Below, Read32;
    v, x := w.(lay := w.lay.next), 0;
    if r.Left() < 4 { return false, 0, v; }
    x := r.ReadUint32();
    ok := true;
  }

  method TakeLong(r: TlReader, ghost w: Trail) returns (ok: bool, x: uint64, ghost v: Trail)
    requires On(r.data, r.pos, r.mediaDepth, w) && w.lay.Word? && w.lay.n == 2
    modifies r`pos
    ensures v == w.(lay := w.lay.next) && Advanced(r.data, old(r.pos), r.mediaDepth, w, ok, r.pos, v)
    ensures ok ==> x == Read64(r.data, old(r.pos)) && r.pos == After(r.data, old(r.pos), 8)
  {
    hide Below, Read64;
    v, x := w.(lay := w.lay.next), 0;
    if r.Left() < 8 { return false, 0, v; }
    x := r.ReadUint64();
    ok := true;
  }

  /** The sizes of a photo, with the name of the largest kept. */
  method TakeSizes(r: TlReader, ghost w: Trail) returns (ok: bool, best: bytes, ghost v: Trail)
    requires On(r.data, r.pos, r.mediaDepth, w) && w.lay.Many? && w.lay.item == Obj(PhotoSize, Stop)
    modifies r`pos
    ensures v == w.(lay := w.lay.next) && Advanced(r.data, old(r.pos), r.mediaDepth, w, ok, r.pos, v)
    ensures ok ==> NamesThumb(r.data, old(r.pos), r.mediaDepth, best)
  {
    hide Below, VectorEnd, PhotoSizes.Names, PhotoSizes.Sizes;
    v := w.(lay := w.lay.next);
    ghost var p := r.pos;
    ok, best := PhotoSizes.WalkSizes(r, THUMB_MAX, w.f, w.g, w.start);
    Onward(r.data, w.start, p, r.pos);
  }

  lemma FileLayouts(c: nat)
    ensures Body(Photo, c) == PhotoBody(c) && Body(Document, c) == DocumentBody(c)
  {
  }

  /** A photo from its sizes on. */
  function PhotoTail(): Layout {
    Many(Obj(PhotoSize, Stop), Videos(Word(1, Stop)))
  }

  /** A document from its type on. */
  function DocumentTail(): Layout {
    Text(Word(2, If(0, Many(Obj(PhotoSize, Stop), Stop), Videos(Word(1, Many(Obj(DocumentAttribute, Stop), Stop))))))
  }

  /** The fields of a file behind its constructor, up to the date. */
  predicate Fronts(lay: Layout, next: Layout) {
    lay == Flags(Word(4, Text(Word(1, next))))
  }

  lemma PhotoLayouts(c: uint32)
    ensures c == PHOTO_EMPTY ==> Body(Photo, c) == Word(2, Stop)
    ensures c == PHOTO ==> Fronts(Body(Photo, c), PhotoTail())
    ensures c != PHOTO_EMPTY && c != PHOTO ==> Body(Photo, c) == Reject
  {
    hide Body;
    FileLayouts(c);
  }

  lemma DocumentLayouts(c: uint32)
    ensures c == DOCUMENT_EMPTY ==> Body(Document, c) == Word(2, Stop)
    ensures c == DOCUMENT ==> Fronts(Body(Document, c), DocumentTail())
    ensures c != DOCUMENT_EMPTY && c != DOCUMENT ==> Body(Document, c) == Reject
  {
    hide Body;
    FileLayouts(c);
  }

  /** Flags, id, access hash, file reference and date. */
  method TakeFront(r: TlReader, ghost next: Layout, ghost w: Trail)
    returns (ok: bool, flags: uint32, id: uint64, access: uint64, ref: bytes, ghost v: Trail)
    requires On(r.data, r.pos, r.mediaDepth, w) && r.pos <= |r.data| && Fronts(w.lay, next)
    modifies r`pos
    ensures v == w.(lay := next, f := flags) && Advanced(r.data, old(r.pos), r.mediaDepth, w, ok, r.pos, v)
    ensures ok ==> flags == Read32(r.data, old(r.pos))
                   && id == Read64(r.data, old(r.pos) + 4) && access == Read64(r.data, old(r.pos) + 12)
    ensures ok ==> ReadString(r.data, old(r.pos) + 20).Some? && ref == ReadString(r.data, old(r.pos) + 20).value.0
                   && r.pos == After(r.data, ReadString(r.data, old(r.pos) + 20).value.1, 4)
  {
    hide CursorOk, Due, On, Read32, Read64, ReadString, After;
    ref := [];
    ok, flags, id, access, v := TakeHead(r, w);
    if !ok { v := w.(lay := next, f := flags); return; }
    ok, ref, v := TakeText(r, v);
    if !ok { v := w.(lay := next, f := flags); return; }
    var date;
    ok, date, v := TakeInt(r, v);
  }

  /** A layout that ends in `Stop` followed by `next`: where the first part ends the second begins. */
  ghost predicate Then(a: Layout, ab: Layout, next: Layout, f: nat, g: nat, d: bytes, p: nat,
                       sub: (Type, nat) -> Option<nat>) {
    Run(ab, f, g, d, p, sub) ==
    match Run(a, f, g, d, p, sub) case None => None case Some(q) => Run(next, f, g, d, q, sub)
  }

  function Videos(next: Layout): Layout { If(1, Many(Obj(VideoSize, Stop), Stop), next) }

  lemma VideosThen(next: Layout, f: nat, g: nat, d: bytes, p: nat, sub: (Type, nat) -> Option<nat>)
    ensures Then(Videos(Stop), Videos(next), next, f, g, d, p, sub)
  {
    hide Bit, Run;
    StepIf(Videos(Stop), f, g, d, p, sub);
    StepIf(Videos(next), f, g, d, p, sub);
    ServiceRows.RunStop(f, g, d, p, sub);
    var q := Run(Many(Obj(VideoSize, Stop), Stop), f, g, d, p, sub);
    if q.Some? { ServiceRows.RunStop(f, g, d, q.value, sub); }
  }

  lemma PhotoVectorsThen(next: Layout, f: nat, g: nat, d: bytes, p: nat, sub: (Type, nat) -> Option<nat>)
    ensures Then(PhotoVectors(), Many(Obj(PhotoSize, Stop), Videos(next)), next, f, g, d, p, sub)
  {
    hide Run, RunItems, Videos, VectorCount;
    assert PhotoVectors() == Many(Obj(PhotoSize, Stop), Videos(Stop)) by { VideosAre(); }
    StepMany(PhotoVectors(), f, g, d, p, sub);
    StepMany(Many(Obj(PhotoSize, Stop), Videos(next)), f, g, d, p, sub);
    if VectorCount(d, p).Some? {
      var q := RunItems(Obj(PhotoSize, Stop), VectorCount(d, p).value, f, g, d, p + 8, sub);
      if q.Some? { VideosThen(next, f, g, d, q.value, sub); }
    }
  }

  lemma DocumentVectorsThen(next: Layout, f: nat, g: nat, d: bytes, p: nat, sub: (Type, nat) -> Option<nat>)
    ensures Then(DocumentVectors(), If(0, Many(Obj(PhotoSize, Stop), Stop), Videos(next)), next, f, g, d, p, sub)
  {
    hide Bit, Run, Videos;
    var thumbs := Many(Obj(PhotoSize, Stop), Stop);
    assert DocumentVectors() == If(0, thumbs, Videos(Stop)) by { VideosAre(); }
    StepIf(DocumentVectors(), f, g, d, p, sub);
    StepIf(If(0, thumbs, Videos(next)), f, g, d, p, sub);
    VideosThen(next, f, g, d, p, sub);
    var q := Run(thumbs, f, g, d, p, sub);
    if q.Some? { VideosThen(next, f, g, d, q.value, sub); }
  }

  lemma VideosAre()
    ensures Videos(Stop) == If(1, Many(Obj(VideoSize, Stop), Stop), Stop)
  {
  }

  /** Reading the vectors as an object of their own and going on behind them is reading the object. */
  lemma Continue(d: bytes, p: nat, w: Trail, vectors: Layout, next: Layout)
    requires w.start < |d| && Then(vectors, w.lay, next, w.f, w.g, d, p, Below(d, w.start, w.depth))
    ensures var q := Due(d, p, w.(lay := vectors));
            Due(d, p, w) == if q.None? then None else Due(d, q.value, w.(lay := next))
  {
    hide Run, Below;
  }

  lemma EmptyPhotoReport(d: bytes, p: nat, depth: nat, mi0: MediaInfo)
    requires Read32(d, p) == PHOTO_EMPTY
    ensures ReportsPhoto(d, p, depth, mi0, mi0.(photoId := Signed64(Read64(d, p + 4))))
  {
    hide Read32, Read64;
  }

  lemma PhotoReport(d: bytes, p: nat, q: nat, depth: nat, mi0: MediaInfo, front: MediaInfo, mi: MediaInfo)
    requires Read32(d, p) == PHOTO && p <= |d| && ReportsFile(d, p, front.photoId, front)
    requires q == After(d, ReadString(d, p + 24).value.1, 4)
    requires front ==
             mi0.(photoId := front.photoId, accessHash := front.accessHash, fileReference := front.fileReference)
    requires mi == front.(thumbType := mi.thumbType, dcId := mi.dcId)
    requires NamesThumb(d, q, depth, mi.thumbType) && DcBehind(PhotoVectors(), d, q, p, depth, mi.dcId)
    ensures ReportsPhoto(d, p, depth, mi0, mi)
  {
    hide Read32, Read64, ReadString, NamesThumb, DcBehind;
  }

  lemma EmptyDocumentReport(d: bytes, p: nat, depth: nat, mi0: MediaInfo)
    requires Read32(d, p) == DOCUMENT_EMPTY
    ensures ReportsDocument(d, p, depth, mi0, mi0.(documentId := Signed64(Read64(d, p + 4))))
  {
    hide Read32, Read64;
  }

  lemma DocumentReport(d: bytes, p: nat, q: nat, depth: nat, mi0: MediaInfo, front: MediaInfo, mi: MediaInfo)
    requires Read32(d, p) == DOCUMENT && p <= |d| && ReportsFile(d, p, front.documentId, front)
    requires q == After(d, ReadString(d, p + 24).value.1, 4)
    requires front == mi0.(documentId := front.documentId, accessHash := front.accessHash,
                           fileReference := front.fileReference)
    requires mi == front.(documentMime := mi.documentMime, documentSize := mi.documentSize, dcId := mi.dcId,
                          documentFilename := mi.documentFilename)
    requires ReportsMime(d, p, q, depth, mi0.documentFilename, mi)
    ensures ReportsDocument(d, p, depth, mi0, mi)
  {
    hide Read32, Read64, ReadString, ReportsMime;
  }

  /** `photo_full` */
  method PhotoFull(r: TlReader, mi0: MediaInfo) returns (ok: bool, mi: MediaInfo)
    requires r.pos < |r.data| + 4 && r.mediaDepth <= MEDIA_DEPTH
    modifies r
    ensures r.mediaDepth == old(r.mediaDepth)
    ensures Outcome(r.data, old(r.pos), ok, r.pos, Skip(Photo, r.data, old(r.pos), r.mediaDepth))
    ensures mi.kind == mi0.kind && (ok ==> ReportsPhoto(r.data, old(r.pos), r.mediaDepth, mi0, mi))
  {
    hide CursorOk, Skip, Body, Bit, Due, On, Read32, Read64, ReadString, NamesThumb, DcBehind, PhotoTail, After, Fronts,
         ReportsPhoto;
    ghost var w;
    ghost var p := r.pos;
    var c, id;
    mi := mi0;
    ok, c, w := TakeCtor(r, Photo, r.mediaDepth); if !ok { return; }
    PhotoLayouts(c);
    if c == PHOTO_EMPTY {
      ok, id, w := TakeLong(r, w); if !ok { return; }
      mi := mi.(photoId := Signed64(id));
      EmptyPhotoReport(r.data, p, r.mediaDepth, mi0);
      Finished(r.data, r.pos, r.mediaDepth, w);
      return;
    }
    if c != PHOTO {
      Refused(r.data, r.pos, r.mediaDepth, w);
      return false, mi;
    }
    ok, mi := PhotoFields(r, mi0, w);
  }

  /** A photo behind its constructor. */
  method PhotoFields(r: TlReader, mi0: MediaInfo, ghost start: Trail) returns (ok: bool, mi: MediaInfo)
    requires On(r.data, r.pos, r.mediaDepth, start) && start.start + 4 == r.pos <= |r.data|
    requires Fronts(start.lay, PhotoTail()) && start.g == 0 && Read32(r.data, start.start) == PHOTO
    modifies r
    ensures r.mediaDepth == old(r.mediaDepth) && mi.kind == mi0.kind
    ensures Ended(r.data, old(r.pos), start, ok, r.pos)
    ensures ok ==> ReportsPhoto(r.data, start.start, r.mediaDepth, mi0, mi)
  {
    hide CursorOk, Skip, Due, On, Read32, Read64, ReadString, NamesThumb, DcBehind, PhotoTail, After, Fronts,
         ReportsPhoto;
    ghost var p := start.start;
    ghost var w;
    var flags, id, access, ref;
    mi := mi0;
    ok, flags, id, access, ref, w := TakeFront(r, PhotoTail(), start); if !ok { return; }
    mi := mi.(photoId := Signed64(id), accessHash := Signed64(access), fileReference := KeptReference(ref));
    ghost var front := mi;
    ghost var q := r.pos;
    ok, mi := PhotoRest(r, flags, mi, w);
    if ok { PhotoReport(r.data, p, q, r.mediaDepth, mi0, front, mi); }
  }

  /** Sizes, videos and data centre of a photo. */
  method PhotoRest(r: TlReader, flags: uint32, mi0: MediaInfo, ghost start: Trail) returns (ok: bool, mi: MediaInfo)
    requires On(r.data, r.pos, r.mediaDepth, start) && start.f == flags == Read32(r.data, start.start + 4)
             && start.g == 0
    requires start.lay == PhotoTail()
    modifies r
    ensures r.mediaDepth == old(r.mediaDepth)
    ensures Ended(r.data, old(r.pos), start, ok, r.pos)
    ensures mi == mi0.(thumbType := mi.thumbType, dcId := mi.dcId)
    ensures ok ==> NamesThumb(r.data, old(r.pos), r.mediaDepth, mi.thumbType)
    ensures ok ==> DcBehind(PhotoVectors(), r.data, old(r.pos), start.start, r.mediaDepth, mi.dcId)
  {
    hide Skip, Body, Bit, Read32, NamesThumb, Run, Below;
    PhotoVectorsThen(Word(1, Stop), start.f, start.g, r.data, r.pos, Below(r.data, start.start, start.depth));
    Continue(r.data, r.pos, start, PhotoVectors(), Word(1, Stop));
    ghost var w := start.(lay := PhotoVectors());
    var thumb, dc;
    mi := mi0;
    ok, thumb, w := TakeSizes(r, w); if !ok { return; }
    mi := mi.(thumbType := thumb);
    ok, w := TakeIf(r, Bit(flags, 1), Many(Obj(VideoSize, Stop), Stop), w); if !ok { return; }
    Finished(r.data, r.pos, r.mediaDepth, w);
    w := start.(lay := Word(1, Stop));
    ok, dc, w := TakeInt(r, w); if !ok { return; }
    mi := mi.(dcId := Signed32(dc));
    Finished(r.data, r.pos, r.mediaDepth, w);
  }

  /** `document_inner` */
  method DocumentInner(r: TlReader, mi0: MediaInfo) returns (ok: bool, mi: MediaInfo)
    requires r.pos < |r.data| + 4 && r.mediaDepth <= MEDIA_DEPTH
    modifies r
    ensures r.mediaDepth == old(r.mediaDepth)
    ensures Outcome(r.data, old(r.pos), ok, r.pos, Skip(Document, r.data, old(r.pos), r.mediaDepth))
    ensures mi.kind == mi0.kind && (ok ==> ReportsDocument(r.data, old(r.pos), r.mediaDepth, mi0, mi))
  {
    hide CursorOk, Skip, Body, Bit, Due, On, Read32, Read64, ReadString, ReportsMime, DocumentTail, After, Fronts,
         ReportsDocument;
    ghost var w;
    ghost var p := r.pos;
    var c, id;
    mi := mi0;
    ok, c, w := TakeCtor(r, Document, r.mediaDepth); if !ok { return; }
    DocumentLayouts(c);
    if c == DOCUMENT_EMPTY {
      ok, id, w := TakeLong(r, w); if !ok { return; }
      mi := mi.(documentId := Signed64(id));
      EmptyDocumentReport(r.data, p, r.mediaDepth, mi0);
      Finished(r.data, r.pos, r.mediaDepth, w);
      return;
    }
    if c != DOCUMENT {
      Refused(r.data, r.pos, r.mediaDepth, w);
      return false, mi;
    }
    ok, mi := DocumentFields(r, mi0, w);
  }

  /** A document behind its constructor. */
  method DocumentFields(r: TlReader, mi0: MediaInfo, ghost start: Trail) returns (ok: bool, mi: MediaInfo)
    requires On(r.data, r.pos, r.mediaDepth, start) && start.start + 4 == r.pos <= |r.data|
    requires Fronts(start.lay, DocumentTail()) && start.g == 0 && Read32(r.data, start.start) == DOCUMENT
    modifies r
    ensures r.mediaDepth == old(r.mediaDepth) && mi.kind == mi0.kind
    ensures Ended(r.data, old(r.pos), start, ok, r.pos)
    ensures ok ==> ReportsDocument(r.data, start.start, r.mediaDepth, mi0, mi)
  {
    hide CursorOk, Skip, Due, On, Read32, Read64, ReadString, ReportsMime, DocumentTail, After, Fronts,
         ReportsDocument;
    ghost var p := start.start;
    ghost var w;
    var flags, id, access, ref;
    mi := mi0;
    ok, flags, id, access, ref, w := TakeFront(r, DocumentTail(), start); if !ok { return; }
    mi := mi.(documentId := Signed64(id), accessHash := Signed64(access), fileReference := KeptReference(ref));
    ghost var front := mi;
    ghost var q := r.pos;
    ok, mi := DocumentRest(r, flags, mi, w);
    if ok { DocumentReport(r.data, p, q, r.mediaDepth, mi0, front, mi); }
  }

  /** A document from its type on. */
  method DocumentRest(r: TlReader, flags: uint32, mi0: MediaInfo, ghost start: Trail) returns (ok: bool, mi: MediaInfo)
    requires On(r.data, r.pos, r.mediaDepth, start) && start.f == flags == Read32(r.data, start.start + 4)
             && start.g == 0
    requires start.lay == DocumentTail()
    modifies r
    ensures r.mediaDepth == old(r.mediaDepth)
    ensures Ended(r.data, old(r.pos), start, ok, r.pos)
    ensures mi == mi0.(documentMime := mi.documentMime, documentSize := mi.documentSize, dcId := mi.dcId,
                       documentFilename := mi.documentFilename)
    ensures ok ==> start.start <= |r.data|
                   && ReportsMime(r.data, start.start, old(r.pos), r.mediaDepth, mi0.documentFilename, mi)
  {
    hide CursorOk, Skip, Body, Bit, Due, On, Read32, Read64, ReadString, DcBehind, NameBehind;
    ghost var w := start;
    var mime, size;
    mi := mi0;
    OnStarts(r.data, r.pos, r.mediaDepth, start);
    var before := r.pos;
    ok, mime, w := TakeText(r, w);
    if !ok { Rewound(r.data, before, r.mediaDepth, start, r.pos); r.pos := before; return; }
    mi := mi.(documentMime := PhotoSizes.Cut(ServiceRows.CString(mime), MIME_MAX));
    ok, size, w := TakeLong(r, w); if !ok { return; }
    mi := mi.(documentSize := Signed64(size));
    ok, mi := DocumentEnding(r, flags, mi, w);
  }

  lemma OnStarts(d: bytes, p: nat, depth: nat, w: Trail)
    requires On(d, p, depth, w)
    ensures w.start < |d| && w.depth == depth
  {
  }

  lemma Rewound(d: bytes, p: nat, depth: nat, w: Trail, q: nat)
    requires On(d, p, depth, w) && Ended(d, p, w, false, q)
    ensures Ended(d, p, w, false, p)
  {
    hide Due;
  }

  /** Thumbnails, data centre and attributes of a document. */
  method DocumentEnding(r: TlReader, flags: uint32, mi0: MediaInfo, ghost start: Trail)
    returns (ok: bool, mi: MediaInfo)
    requires On(r.data, r.pos, r.mediaDepth, start) && start.f == flags == Read32(r.data, start.start + 4)
             && start.g == 0
    requires start.lay ==
             If(0, Many(Obj(PhotoSize, Stop), Stop), Videos(Word(1, Many(Obj(DocumentAttribute, Stop), Stop))))
    modifies r
    ensures r.mediaDepth == old(r.mediaDepth)
    ensures Ended(r.data, old(r.pos), start, ok, r.pos)
    ensures mi == mi0.(dcId := mi.dcId, documentFilename := mi.documentFilename)
    ensures ok ==> DcBehind(DocumentVectors(), r.data, old(r.pos), start.start, r.mediaDepth, mi.dcId)
    ensures ok ==> NameBehind(r.data, old(r.pos), start.start, r.mediaDepth,
                              mi0.documentFilename, mi.documentFilename)
  {
    hide Skip, Body, Bit, Read32, Run, Below, NamesFile;
    ghost var next := Word(1, Many(Obj(DocumentAttribute, Stop), Stop));
    DocumentVectorsThen(next, start.f, start.g, r.data, r.pos, Below(r.data, start.start, start.depth));
    Continue(r.data, r.pos, start, DocumentVectors(), next);
    ghost var w := start.(lay := DocumentVectors());
    var dc;
    mi := mi0;
    ok, w := TakeIf(r, Bit(flags, 0), Many(Obj(PhotoSize, Stop), Stop), w); if !ok { return; }
    ok, w := TakeIf(r, Bit(flags, 1), Many(Obj(VideoSize, Stop), Stop), w); if !ok { return; }
    Finished(r.data, r.pos, r.mediaDepth, w);
    w := start.(lay := next);
    ok, dc, w := TakeInt(r, w); if !ok { return; }
    mi := mi.(dcId := Signed32(dc));
    var name;
    ok, name, w := TakeAttributes(r, mi.documentFilename, w); if !ok { return; }
    mi := mi.(documentFilename := name);
    Finished(r.data, r.pos, r.mediaDepth, w);
  }

  /** The attributes of a document, with the last file name kept. */
  method TakeAttributes(r: TlReader, name0: bytes, ghost w: Trail) returns (ok: bool, name: bytes, ghost v: Trail)
    requires On(r.data, r.pos, r.mediaDepth, w) && w.lay.Many? && w.lay.item == Obj(DocumentAttribute, Stop)
    modifies r
    ensures r.mediaDepth == old(r.mediaDepth)
    ensures v == w.(lay := w.lay.next) && Advanced(r.data, old(r.pos), r.mediaDepth, w, ok, r.pos, v)
    ensures ok ==> NamesFile(r.data, old(r.pos), r.mediaDepth, name0, name)
  {
    hide Below, Skip, VectorEnd, NamesFile;
    v := w.(lay := w.lay.next);
    ghost var p := r.pos;
    ok, name := WalkAttributes(r, name0, w.f, w.g, w.start);
    Onward(r.data, w.start, p, r.pos);
  }

  method WalkAttributes(r: TlReader, name0: bytes, ghost f: nat, ghost g: nat, ghost p0: nat)
    returns (ok: bool, name: bytes)
    requires p0 < r.pos < |r.data| + 4 && p0 < |r.data| && r.mediaDepth <= MEDIA_DEPTH
    modifies r
    ensures r.mediaDepth == old(r.mediaDepth)
    ensures Outcome(r.data, old(r.pos), ok, r.pos,
                    VectorEnd(Obj(DocumentAttribute, Stop), 0xFFFF_FFFF, f, g, r.data, old(r.pos),
                              Below(r.data, p0, r.mediaDepth)))
    ensures ok ==> NamesFile(r.data, old(r.pos), r.mediaDepth, name0, name)
  {
    hide CursorOk, Skip, Below, Body, VectorCount, NameFrom, NameAt, RunItems, Run;
    ghost var d, depth := r.data, r.mediaDepth;
    ghost var sub := Below(d, p0, depth);
    Cursors(d);
    name := name0;
    var n;
    ok, n := OpenVector(r); if !ok { return; }
    ghost var p1 := r.pos;
    InBounds(d, p1);
    for i := 0 to n
      invariant r.mediaDepth == depth && p0 < r.pos && CursorOk(d, p1, r.pos)
      invariant RunItems(Obj(DocumentAttribute, Stop), n, f, g, d, p1, sub) ==
                RunItems(Obj(DocumentAttribute, Stop), n - i, f, g, d, r.pos, sub)
      invariant NameFrom(d, p1, n, depth, name0) == NameFrom(d, r.pos, n - i, depth, name)
    {
      BelowIsSkip(DocumentAttribute, d, r.pos, p0, depth);
      NextAttribute(n - i, f, g, d, r.pos, sub, depth, name);
      ok, name := SkipAttribute(r, name); if !ok { return; }
    }
    NoAttributes(f, g, d, r.pos, sub, depth, name);
    ok := true;
  }

  lemma NextAttribute(n: nat, f: nat, g: nat, d: bytes, p: nat, sub: (Type, nat) -> Option<nat>, depth: nat,
                      name: bytes)
    requires n > 0 && sub(DocumentAttribute, p) == Skip(DocumentAttribute, d, p, depth)
    ensures var q := Skip(DocumentAttribute, d, p, depth);
            && RunItems(Obj(DocumentAttribute, Stop), n, f, g, d, p, sub) ==
               (if q.None? then None else RunItems(Obj(DocumentAttribute, Stop), n - 1, f, g, d, q.value, sub))
            && (q.Some? ==> NameFrom(d, p, n, depth, name) == NameFrom(d, q.value, n - 1, depth, NameAt(d, p, name)))
  {
    hide Skip, NameAt;
    StepObj(Obj(DocumentAttribute, Stop), f, g, d, p, sub);
  }

  lemma NoAttributes(f: nat, g: nat, d: bytes, p: nat, sub: (Type, nat) -> Option<nat>, depth: nat, name: bytes)
    ensures RunItems(Obj(DocumentAttribute, Stop), 0, f, g, d, p, sub) == Some(p)
    ensures NameFrom(d, p, 0, depth, name) == name
  {
  }

  /** `skip_document_attribute`, with the file name kept. */
  method SkipAttribute(r: TlReader, name0: bytes) returns (ok: bool, name: bytes)
    requires r.pos < |r.data| + 4 && r.mediaDepth <= MEDIA_DEPTH
    modifies r
    ensures r.mediaDepth == old(r.mediaDepth)
    ensures Outcome(r.data, old(r.pos), ok, r.pos, Skip(DocumentAttribute, r.data, old(r.pos), r.mediaDepth))
    ensures ok ==> name == NameAt(r.data, old(r.pos), name0)
  {
    hide CursorOk, Skip, Body, Due, On, Read32, ReadString, PhotoSizes.Cut, ServiceRows.CString;
    name := name0;
    if Read32(r.data, r.pos) != ATTRIBUTE_FILENAME { ok := SkipObject(r, DocumentAttribute); return; }
    ghost var w;
    var c, s;
    ok, c, w := TakeCtor(r, DocumentAttribute, r.mediaDepth); if !ok { return; }
    FilenameLayout();
    ghost var start := w;
    var before := r.pos;
    ok, s, w := TakeText(r, w);
    if !ok { Rewound(r.data, before, r.mediaDepth, start, r.pos); r.pos := before; return; }
    name := PhotoSizes.Cut(ServiceRows.CString(s), FILENAME_MAX);
    Finished(r.data, r.pos, r.mediaDepth, w);
  }

  lemma FilenameLayout()
    ensures Body(DocumentAttribute, ATTRIBUTE_FILENAME) == Text(Stop)
  {
  }

  // ---- the media ----

  /** The kind reported for the media at `p`, whether it can be skipped or not; `depth` media are open
      around it. */
  function KindAt(d: bytes, p: nat, depth: nat): nat {
    if depth >= MEDIA_DEPTH || p + 4 > |d| then 0 else KindOf(Read32(d, p))
  }

  /** The kinds by their constructors, wherever such media stand and whatever follows. */
  lemma KindTold(d: bytes, p: nat, depth: nat, c: uint32)
    requires At(d, p, Enc32(c)) && depth < 4
    ensures var k := KindAt(d, p, depth);
            && (c == 0x3ded6320 ==> k == 1) && (c == 0x9f84f49e ==> k == 2) && (c == 0x695150d7 ==> k == 3)
            && (c == 0x4cf4d72d ==> k == 4) && (c == 0x56e0d474 ==> k == 5) && (c == 0x70322949 ==> k == 6)
            && (c == 0x2ec0533f ==> k == 7) && (c == 0xb940c666 ==> k == 8) && (c == 0x3f7ee58b ==> k == 9)
            && (c == 0xddf8c26e ==> k == 10) && (c == 0x4bd6e798 ==> k == 11) && (c == 0xf6a548d3 ==> k == 12)
            && (c == 0x68cb6283 ==> k == 13) && (c == 0xaa073bee ==> k == 14) && (c == 0xfdb19008 ==> k == 15)
            && (c == 0xa8852491 ==> k == 16)
  {
    hide Enc32, Word32;
    Word32OfEnc32(c, d, p);
  }

  /** The whole report on media that could be skipped. */
  ghost predicate ReportsMedia(d: bytes, p: nat, depth: nat, mi: MediaInfo) {
    var c, mi0 := Read32(d, p), BLANK.(kind := KindOf(Read32(d, p)));
    if c == MESSAGE_MEDIA_PHOTO && Bit(Read32(d, p + 4), 0) then ReportsPhoto(d, p + 8, depth + 1, mi0, mi)
    else if c == MESSAGE_MEDIA_DOCUMENT && Bit(Read32(d, p + 4), 0) then ReportsDocument(d, p + 8, depth + 1, mi0, mi)
    else mi == mi0
  }

  lemma MediaStarts(d: bytes, p: nat, depth: nat)
    ensures Skip(Media, d, p, depth).Some? ==> depth < MEDIA_DEPTH && p + 4 <= |d|
  {
    hide Body, Run;
  }

  /** `tl_skip_message_media_ex` */
  method SkipMediaEx(r: TlReader) returns (ok: bool, mi: MediaInfo)
    requires r.pos < |r.data| + 4 && r.mediaDepth <= MEDIA_DEPTH
    modifies r
    ensures r.mediaDepth == old(r.mediaDepth)
    ensures Outcome(r.data, old(r.pos), ok, r.pos, Skip(Media, r.data, old(r.pos), r.mediaDepth))
    ensures mi.kind == KindAt(r.data, old(r.pos), r.mediaDepth)
    ensures ok ==> ReportsMedia(r.data, old(r.pos), r.mediaDepth, mi)
  {
    hide Word32, Skip, Bit, ReportsPhoto, ReportsDocument;
    MediaStarts(r.data, r.pos, r.mediaDepth);
    var c := Read32(r.data, r.pos);
    mi := BLANK.(kind := KindAt(r.data, r.pos, r.mediaDepth));
    if r.mediaDepth < MEDIA_DEPTH && (c == MESSAGE_MEDIA_PHOTO || c == MESSAGE_MEDIA_DOCUMENT) {
      r.mediaDepth := r.mediaDepth + 1;
      ok, mi := FileMedia(r, mi);
      r.mediaDepth := r.mediaDepth - 1;
    } else {
      ok := SkipMedia(r);
    }
  }

  /** A photo or a document with what surrounds it. */
  method FileMedia(r: TlReader, mi0: MediaInfo) returns (ok: bool, mi: MediaInfo)
    requires r.pos < |r.data| + 4 && 1 <= r.mediaDepth <= MEDIA_DEPTH && mi0 == BLANK.(kind := mi0.kind)
    requires Read32(r.data, r.pos) == MESSAGE_MEDIA_PHOTO || Read32(r.data, r.pos) == MESSAGE_MEDIA_DOCUMENT
    requires mi0.kind == KindOf(Read32(r.data, r.pos))
    modifies r
    ensures r.mediaDepth == old(r.mediaDepth) && mi.kind == mi0.kind
    ensures Outcome(r.data, old(r.pos), ok, r.pos, Skip(Media, r.data, old(r.pos), r.mediaDepth - 1))
    ensures ok ==> ReportsMedia(r.data, old(r.pos), r.mediaDepth - 1, mi)
  {
    hide CursorOk, Skip, Body, Bit, Due, On, Read32, ReportsPhoto, ReportsDocument;
    ghost var w;
    var c, flags;
    mi := mi0;
    ok, c, w := TakeCtor(r, Media, r.mediaDepth - 1); if !ok { return; }
    MediaLayouts(c);
    ok, flags, w := TakeFlagsHere(r, w); if !ok { return; }
    ok, mi, w := TakeFile(r, c == MESSAGE_MEDIA_PHOTO, flags, mi, w); if !ok { return; }
    ok, w := TakeIf(r, Bit(flags, 2), Word(1, Stop), w); if !ok { return; }
    if c == MESSAGE_MEDIA_DOCUMENT {
      ok, w := TakeIf(r, Bit(flags, 10), Many(Obj(Document, Stop), Stop), w); if !ok { return; }
    }
    Finished(r.data, r.pos, r.mediaDepth, w);
  }

  /** The flags of media, whose constructor has just been read. */
  method TakeFlagsHere(r: TlReader, ghost w: Trail) returns (ok: bool, flags: uint32, ghost v: Trail)
    requires On(r.data, r.pos, r.mediaDepth, w) && r.pos <= |r.data| && w.lay.Flags?
    modifies r`pos
    ensures v == w.(lay := w.lay.next, f := flags) && Advanced(r.data, old(r.pos), r.mediaDepth, w, ok, r.pos, v)
    ensures ok ==> flags == Read32(r.data, old(r.pos)) && r.pos == old(r.pos) + 4
  {
    hide Below, Read32;
    flags, v := 0, w.(lay := w.lay.next, f := 0);
    if r.Left() < 4 { return false, 0, v; }
    flags := r.ReadUint32();
    ok, v := true, w.(lay := w.lay.next, f := flags);
  }

  /** The photo or the document itself, if flag 0 announces it. */
  method TakeFile(r: TlReader, photo: bool, flags: uint32, mi0: MediaInfo, ghost w: Trail)
    returns (ok: bool, mi: MediaInfo, ghost v: Trail)
    requires On(r.data, r.pos, r.mediaDepth, w) && w.f == flags && w.lay.If? && w.lay.bit == 0
    requires w.lay.body == Obj(if photo then Photo else Document, Stop)
    modifies r
    ensures r.mediaDepth == old(r.mediaDepth) && mi.kind == mi0.kind && (!Bit(flags, 0) ==> mi == mi0)
    ensures v == w.(lay := w.lay.next) && Advanced(r.data, old(r.pos), r.mediaDepth, w, ok, r.pos, v)
    ensures ok && Bit(flags, 0) && photo ==> ReportsPhoto(r.data, old(r.pos), r.mediaDepth, mi0, mi)
    ensures ok && Bit(flags, 0) && !photo ==> ReportsDocument(r.data, old(r.pos), r.mediaDepth, mi0, mi)
  {
    hide Below, Skip, Bit, Run, ReportsPhoto, ReportsDocument;
    v, mi := w.(lay := w.lay.next), mi0;
    ghost var d, p := r.data, r.pos;
    if Bit(flags, 0) {
      ghost var t := if photo then Photo else Document;
      BelowIsSkip(t, d, p, w.start, w.depth);
      if photo { ok, mi := PhotoFull(r, mi0); } else { ok, mi := DocumentInner(r, mi0); }
      Onward(d, w.start, p, r.pos);
      StepObj(w.lay.body, w.f, w.g, d, p, Below(d, w.start, w.depth));
      OptionalTaken(d, p, r.mediaDepth, w, ok, r.pos, w.(lay := Stop));
    } else {
      ok := true;
      OptionalAbsent(d, p, w);
    }
  }

  // ---- the report is what the sender put in ----

  /** The fields with which photos and documents begin; the file reference as it stands on the wire. */
  datatype File = File(flags: uint32, id: uint64, access: uint64, head: bytes, ref: bytes, pad: bytes, date: uint32)

  function FileValue(x: File, rest: Value): Value {
    VFlags(x.flags, VWord(Enc64(x.id) + Enc64(x.access), VText(x.head, x.ref, x.pad, VWord(Enc32(x.date), rest))))
  }

  /** A vector behind flag `k`. */
  function OptVector(f: nat, k: nat, vs: Values, next: Value): Value {
    if Bit(f, k) then VPresent(VMany(vs, VStop), next) else VAbsent(next)
  }

  function PhotoValue(x: File, sizes: Values, videos: Values, dc: uint32): Value {
    FileValue(x, VMany(sizes, OptVector(x.flags, 1, videos, VWord(Enc32(dc), VStop))))
  }

  /** A document's fields behind those it shares with photos. */
  datatype Doc = Doc(head: bytes, mime: bytes, pad: bytes, size: uint64, thumbs: Values, videos: Values,
                     attributes: Values)

  function DocumentValue(x: File, y: Doc, dc: uint32): Value {
    FileValue(x, VText(y.head, y.mime, y.pad, VWord(Enc64(y.size),
      OptVector(x.flags, 0, y.thumbs, OptVector(x.flags, 1, y.videos, VWord(Enc32(dc), VMany(y.attributes, VStop)))))))
  }

  lemma TextHere(d: bytes, p: nat, head: bytes, s: bytes, pad: bytes, rest: bytes)
    requires At(d, p, (head + s + pad) + rest) && TextOk(head, s, pad)
    ensures ReadString(d, p) == Some((s, p + |head + s + pad|)) && At(d, p + |head + s + pad|, rest)
  {
    AtSplit(d, p, head + s + pad, rest);
    AtSplit(d, p, head + s, pad);
    AtSplit(d, p, head, s);
    assert d[p] == d[p..p + |head|][0];
    if |head| == 4 {
      assert d[p + 1] == d[p..p + 4][1] && d[p + 2] == d[p..p + 4][2] && d[p + 3] == d[p..p + 4][3];
    }
  }

  /** Where the common fields are read from. */
  lemma FileHere(c: uint32, x: File, rest: Value, d: bytes, p: nat)
    requires At(d, p, ObjectBytes(c, FileValue(x, rest))) && TextOk(x.head, x.ref, x.pad)
    ensures var q := p + 24 + |x.head + x.ref + x.pad|;
            && Read32(d, p) == c && Read32(d, p + 4) == x.flags && Read64(d, p + 8) == x.id
                && Read64(d, p + 16) == x.access
            && ReadString(d, p + 24) == Some((x.ref, q)) && After(d, q, 4) == q + 4 && At(d, q + 4, Encode(rest))
  {
    hide At, Enc32, Enc64, Read32, Read64, ReadString, TextOk, After, Encode, FileValue;
    var r3 := Enc32(x.date) + Encode(rest);
    var r2 := (x.head + x.ref + x.pad) + r3;
    var r1 := (Enc64(x.id) + Enc64(x.access)) + r2;
    assert Encode(FileValue(x, rest)) == Enc32(x.flags) + r1 by { FileEncoding(x, rest); }
    WordHere(d, p, c, Enc32(x.flags) + r1);
    WordHere(d, p + 4, x.flags, r1);
    assert r1 == Enc64(x.id) + (Enc64(x.access) + r2);
    LongHere(d, p + 8, x.id, Enc64(x.access) + r2);
    LongHere(d, p + 16, x.access, r2);
    TextHere(d, p + 24, x.head, x.ref, x.pad, r3);
    WordHere(d, p + 24 + |x.head + x.ref + x.pad|, x.date, Encode(rest));
  }

  lemma FileEncoding(x: File, rest: Value)
    ensures Encode(FileValue(x, rest)) ==
            Enc32(x.flags)
                + ((Enc64(x.id) + Enc64(x.access)) + ((x.head + x.ref + x.pad) + (Enc32(x.date) + Encode(rest))))
  {
    hide Enc32, Enc64;
    var v1 := VWord(Enc32(x.date), rest);
    var v2 := VText(x.head, x.ref, x.pad, v1);
    var v3 := VWord(Enc64(x.id) + Enc64(x.access), v2);
    assert Encode(v1) == Enc32(x.date) + Encode(rest);
    assert Encode(v2) == (x.head + x.ref + x.pad) + Encode(v1);
    assert Encode(v3) == (Enc64(x.id) + Enc64(x.access)) + Encode(v2);
  }

  /** The word behind the encoding of the vectors is the data centre reported. */
  lemma DcHere(vectors: Layout, v: Value, more: bytes, d: bytes, q: nat, p: nat, depth: nat, dc: uint32, x: int)
    requires p < q && p <= |d| && depth <= MEDIA_DEPTH && At(d, q, Encode(v) + (Enc32(dc) + more))
    requires Typed(vectors, Read32(d, p + 4), 0, v) && DcBehind(vectors, d, q, p, depth, x)
    ensures x == Signed32(dc)
  {
    hide At, Enc32, Read32, Run, Typed, Encode, Nesting, Below;
    AtSplit(d, q, Encode(v), Enc32(dc) + more);
    RunOfEncoded(vectors, Read32(d, p + 4), 0, v, d, q, p, depth);
    WordHere(d, q + |Encode(v)|, dc, more);
  }

  lemma OptEncoding(f: nat, k: nat, vs: Values, next: Value)
    ensures Encode(OptVector(f, k, vs, next)) == Encode(OptVector(f, k, vs, VStop)) + Encode(next)
  {
    hide Bit;
    assert Encode(VStop) == [];
    var w := VMany(vs, VStop);
    assert Encode(w) + [] == Encode(w);
  }

  lemma OptTyped(f: nat, k: nat, vs: Values, lay: Layout, next: Value, item: Layout, l: Layout, n: Value)
    requires lay.If? && lay.bit == k && lay.body == Many(item, Stop) && Typed(lay, f, 0, OptVector(f, k, vs, next))
    requires Typed(l, f, 0, n)
    ensures Typed(If(k, Many(item, Stop), l), f, 0, OptVector(f, k, vs, n))
  {
    hide Bit, Body, TypedItems;
    if Bit(f, k) { assert Typed(lay.body, f, 0, VMany(vs, VStop)); }
  }

  lemma FileTyped(lay: Layout, x: File, rest: Value)
    requires lay.Flags? && lay.next.Word? && lay.next.next.Text? && lay.next.next.next.Word?
    requires Typed(lay, 0, 0, FileValue(x, rest))
    ensures TextOk(x.head, x.ref, x.pad) && Typed(lay.next.next.next.next, x.flags, 0, rest)
  {
    hide Enc32, Enc64, TextOk, Body, TypedItems;
    var v1 := VWord(Enc32(x.date), rest);
    var v2 := VText(x.head, x.ref, x.pad, v1);
    var v3 := VWord(Enc64(x.id) + Enc64(x.access), v2);
    assert Typed(lay.next, x.flags, 0, v3);
    assert Typed(lay.next.next, x.flags, 0, v2);
    assert Typed(lay.next.next.next, x.flags, 0, v1);
  }

  // ---- the largest size ----

  /** Type and area of an encoded size: at most seven bytes of its type, up to a NUL; width times height for
      the three constructors that have them, -1 for the empty size, 0 for the others. */
  function SizeOf(v: Value): PhotoSizes.Size {
    if v.VObj? && v.body.VText? then
      var s, dims := ServiceRows.CString(v.body.content), v.body.next;
      PhotoSizes.Size(
        if |s| < 8 then s else s[..7],
        if v.ctor in {0x75c78e60, 0x021e1ad6, 0xfa3efb95} && dims.VWord? && |dims.raw| >= 8
        then Signed32(Word32(dims.raw, 0)) * Signed32(Word32(dims.raw, 4))
        else if v.ctor == 0x0e17e23c then -1 else 0)
    else PhotoSizes.Size([], 0)
  }

  function SizesOf(vs: Values): seq<PhotoSizes.Size> {
    match vs case Nil => [] case Cons(v, tail) => [SizeOf(v)] + SizesOf(tail)
  }

  lemma {:induction false} SizesRead(vs: Values, f: nat, d: bytes, p: nat, depth: nat)
    requires TypedItems(Obj(PhotoSize, Stop), f, 0, vs) && At(d, p, EncodeItems(vs)) && depth <= MEDIA_DEPTH
    ensures PhotoSizes.Sizes(d, p, Count(vs), depth) == SizesOf(vs)
    decreases vs
  {
    hide At, Skip, PhotoSizes.Name, PhotoSizes.Score, SizeOf, Body;
    match vs
    case Nil =>
    case Cons(v, tail) =>
      AtSplit(d, p, Encode(v), EncodeItems(tail));
      OneSize(v, f, d, p, depth);
      SizesRead(tail, f, d, p + |Encode(v)|, depth);
  }

  lemma OneSize(v: Value, f: nat, d: bytes, p: nat, depth: nat)
    requires Typed(Obj(PhotoSize, Stop), f, 0, v) && At(d, p, Encode(v)) && depth <= MEDIA_DEPTH
    ensures Skip(PhotoSize, d, p, depth) == Some(p + |Encode(v)|)
    ensures PhotoSizes.Size(PhotoSizes.Name(d, p), PhotoSizes.Score(d, p)) == SizeOf(v)
  {
    hide At, Enc32, Skip, ServiceRows.CString, Nesting, Read32, ReadString, TextOk, Typed, Encode, Body, Word32, After;
    SizeShape(v, f);
    SizeNesting(v.ctor, v.body);
    SkipOfEncodedAt(PhotoSize, v.ctor, v.body, d, p, depth);
    WordHere(d, p, v.ctor, Encode(v.body));
    var q := p + 4 + |v.body.head + v.body.content + v.body.pad|;
    TextHere(d, p + 4, v.body.head, v.body.content, v.body.pad, Encode(v.body.next));
    PhotoSizes.NameEnds(d, p + 4);
    if v.ctor in {0x75c78e60, 0x021e1ad6, 0xfa3efb95} { AreaRead(v.body.next, d, q); }
  }

  lemma SizeShape(v: Value, f: nat)
    requires Typed(Obj(PhotoSize, Stop), f, 0, v)
    ensures v.VObj? && v.ty == PhotoSize && Typed(Body(PhotoSize, v.ctor), 0, 0, v.body) && v.body.VText?
    ensures TextOk(v.body.head, v.body.content, v.body.pad)
    ensures Encode(v) == Enc32(v.ctor) + Encode(v.body)
    ensures Encode(v.body) == (v.body.head + v.body.content + v.body.pad) + Encode(v.body.next)
    ensures v.ctor in {0x75c78e60, 0x021e1ad6, 0xfa3efb95} ==> v.body.next.VWord? && |v.body.next.raw| >= 8
  {
    hide Enc32, Body, TextOk;
    assert Encode(VStop) == [];
    PhotoSizes.PhotoSizeLayouts(v.ctor);
    assert Typed(PhotoSizeBody(v.ctor), 0, 0, v.body);
  }

  lemma AreaRead(v: Value, d: bytes, q: nat)
    requires v.VWord? && |v.raw| >= 8 && At(d, q, Encode(v))
    ensures PhotoSizes.Area(d, q) == Signed32(Word32(v.raw, 0)) * Signed32(Word32(v.raw, 4))
  {
    AtSplit(d, q, v.raw, Encode(v.next));
    var raw := d[q..q + |v.raw|];
    assert raw == v.raw;
    assert Word32(d, q) == Word32(raw, 0) && Word32(d, q + 4) == Word32(raw, 4);
  }

  lemma SizeNesting(c: uint32, body: Value)
    requires Typed(Body(PhotoSize, c), 0, 0, body)
    ensures Nesting(body) == 0
  {
    hide Body, Typed, Nesting;
    PhotoSizes.PhotoSizeLayouts(c);
    FlatNesting(PhotoSizeBody(c), 0, 0, body);
  }

  /** For every photo the sender can encode, with anything around it, the report on it holds its id,
      its access hash, the first 128 bytes of its file reference and its data centre. */
  lemma PhotoReported(x: File, sizes: Values, videos: Values, dc: uint32, d: bytes, p: nat, depth: nat, mi0: MediaInfo,
                      mi: MediaInfo)
    requires IsObject(Photo, PHOTO, PhotoValue(x, sizes, videos, dc)) && depth <= MEDIA_DEPTH
    requires At(d, p, ObjectBytes(PHOTO, PhotoValue(x, sizes, videos, dc))) && ReportsPhoto(d, p, depth, mi0, mi)
    ensures mi ==
            mi0.(photoId := Signed64(x.id), accessHash := Signed64(x.access), fileReference := KeptReference(x.ref),
                       dcId := Signed32(dc), thumbType := mi.thumbType)
    ensures PhotoSizes.Names(SizesOf(sizes), THUMB_MAX, mi.thumbType)
  {
    hide PhotoSizes.Names, PhotoSizes.Sizes, SizesOf, At, Enc32, Enc64, Read32, Read64, ReadString, TextOk, Typed,
         Encode, DcBehind, NamesThumb, FileValue, OptVector, Body, Bit;
    FileLayouts(PHOTO);
    var lay := Many(Obj(PhotoSize, Stop), Videos(Word(1, Stop)));
    var last := VWord(Enc32(dc), VStop);
    var rest := VMany(sizes, OptVector(x.flags, 1, videos, last));
    FileTyped(PhotoBody(PHOTO), x, rest);
    FileHere(PHOTO, x, rest, d, p);
    var v := VMany(sizes, OptVector(x.flags, 1, videos, VStop));
    PhotoVectorsTyped(x.flags, sizes, videos, last);
    PhotoEncoding(x.flags, sizes, videos, dc);
    ThumbHere(x.flags, sizes, OptVector(x.flags, 1, videos, last), d, p + 28 + |x.head + x.ref + x.pad|, depth,
              mi.thumbType);
    DcHere(PhotoVectors(), v, [], d, p + 28 + |x.head + x.ref + x.pad|, p, depth, dc, mi.dcId);
  }

  lemma ThumbHere(f: nat, sizes: Values, next: Value, d: bytes, q: nat, depth: nat, best: bytes)
    requires At(d, q, Encode(VMany(sizes, next))) && depth <= MEDIA_DEPTH && NamesThumb(d, q, depth, best)
    requires Typed(Many(Obj(PhotoSize, Stop), Videos(Word(1, Stop))), f, 0, VMany(sizes, next))
    ensures PhotoSizes.Names(SizesOf(sizes), THUMB_MAX, best)
  {
    hide At, Enc32, PhotoSizes.Names, PhotoSizes.Sizes, SizesOf, VectorCount, Body;
    var head := Enc32(VECTOR) + Enc32(Count(sizes));
    AtSplit(d, q, head + EncodeItems(sizes), Encode(next));
    AtSplit(d, q, head, EncodeItems(sizes));
    VectorReadBack(Count(sizes), d, q);
    SizesRead(sizes, f, d, q + 8, depth);
  }

  lemma PhotoVectorsTyped(f: nat, sizes: Values, videos: Values, last: Value)
    requires Typed(Many(Obj(PhotoSize, Stop), Videos(Word(1, Stop))), f, 0, VMany(sizes, OptVector(f, 1, videos, last)))
    ensures Typed(PhotoVectors(), f, 0, VMany(sizes, OptVector(f, 1, videos, VStop)))
  {
    hide Bit, OptVector, Body, TypedItems;
    assert Typed(Videos(Word(1, Stop)), f, 0, OptVector(f, 1, videos, last));
    assert Typed(Stop, f, 0, VStop);
    OptTyped(f, 1, videos, Videos(Word(1, Stop)), last, Obj(VideoSize, Stop), Stop, VStop);
  }

  lemma PhotoEncoding(f: nat, sizes: Values, videos: Values, dc: uint32)
    ensures Encode(VMany(sizes, OptVector(f, 1, videos, VWord(Enc32(dc), VStop)))) ==
            Encode(VMany(sizes, OptVector(f, 1, videos, VStop))) + (Enc32(dc) + [])
  {
    hide Enc32, OptVector;
    var last := VWord(Enc32(dc), VStop);
    assert Encode(last) == Enc32(dc) + [] by { assert Encode(VStop) == []; }
    OptEncoding(f, 1, videos, last);
  }

  /** The same for every document, with its type up to the first NUL and 63 bytes, and its size. */
  lemma DocumentReported(x: File, y: Doc, dc: uint32, d: bytes, p: nat, depth: nat, mi0: MediaInfo, mi: MediaInfo)
    requires IsObject(Document, DOCUMENT, DocumentValue(x, y, dc)) && depth <= MEDIA_DEPTH
    requires At(d, p, ObjectBytes(DOCUMENT, DocumentValue(x, y, dc))) && ReportsDocument(d, p, depth, mi0, mi)
    ensures mi ==
            mi0.(documentId := Signed64(x.id), accessHash := Signed64(x.access), fileReference := KeptReference(x.ref),
                       dcId := Signed32(dc), documentSize := Signed64(y.size),
                       documentMime := PhotoSizes.Cut(ServiceRows.CString(y.mime), MIME_MAX),
                       documentFilename := LastName(y.attributes, mi0.documentFilename))
  {
    hide NameBehind, LastName, At, Enc32, Enc64, Read32, Read64, ReadString, TextOk, Typed, Encode, DcBehind,
         FileValue, OptVector, Body, Bit, PhotoSizes.Cut, ServiceRows.CString;
    FileLayouts(DOCUMENT);
    var vectors := OptVector(x.flags, 0, y.thumbs, OptVector(x.flags, 1, y.videos, VStop));
    var whole := DocumentEnd(x.flags, y, dc);
    var text := VText(y.head, y.mime, y.pad, VWord(Enc64(y.size), whole));
    FileTyped(DocumentBody(DOCUMENT), x, text);
    FileHere(DOCUMENT, x, text, d, p);
    var q := p + 28 + |x.head + x.ref + x.pad|;
    MimeTyped(x.flags, y, dc);
    MimeHere(y, whole, d, q);
    DocumentEncoding(x.flags, y, dc);
    var more := Encode(VMany(y.attributes, VStop));
    var q1 := q + |y.head + y.mime + y.pad| + 8;
    DcHere(DocumentVectors(), vectors, more, d, q1, p, depth, dc, mi.dcId);
    NameHere(vectors, y.attributes, d, q1, p, depth, dc, mi0.documentFilename, mi.documentFilename);
  }

  /** The last file name among the attributes, up to its first NUL and 127 bytes. */
  function LastName(vs: Values, name: bytes): bytes {
    match vs
    case Nil => name
    case Cons(v, tail) =>
      LastName(tail, if v.VObj? && v.ctor == ATTRIBUTE_FILENAME && v.body.VText?
                     then PhotoSizes.Cut(ServiceRows.CString(v.body.content), FILENAME_MAX) else name)
  }

  /** The file names among attributes, in order. */
  function FileNames(vs: Values): seq<bytes> {
    match vs
    case Nil => []
    case Cons(v, tail) =>
      (if v.VObj? && v.ctor == 0x15590068 && v.body.VText? then [v.body.content] else []) + FileNames(tail)
  }

  /** Of several file names the last one is kept, up to a NUL and 127 bytes. */
  lemma {:induction false} LastNameIsLast(vs: Values, name: bytes)
    ensures var names := FileNames(vs);
            LastName(vs, name) ==
            if names == [] then name
            else
              var s := ServiceRows.CString(names[|names| - 1]);
              if |s| < 128 then s else s[..127]
  {
    hide ServiceRows.CString;
    match vs
    case Nil =>
    case Cons(v, tail) =>
      LastNameIsLast(tail, name);
      if v.VObj? && v.ctor == 0x15590068 && v.body.VText? {
        LastNameIsLast(tail, PhotoSizes.Cut(ServiceRows.CString(v.body.content), FILENAME_MAX));
      }
  }

  /** Behind the encoding of the vectors and the data centre stand the attributes, and the name reported
      is the last among them. */
  lemma NameHere(v: Value, attrs: Values, d: bytes, q: nat, p: nat, depth: nat, dc: uint32, name0: bytes, name: bytes)
    requires p < q && p <= |d| && depth <= MEDIA_DEPTH
    requires At(d, q, Encode(v) + (Enc32(dc) + Encode(VMany(attrs, VStop))))
    requires Typed(DocumentVectors(), Read32(d, p + 4), 0, v) && NameBehind(d, q, p, depth, name0, name)
    requires Count(attrs) < TWO_TO_32 && TypedItems(Obj(DocumentAttribute, Stop), Read32(d, p + 4), 0, attrs)
    ensures name == LastName(attrs, name0)
  {
    hide At, Enc32, Read32, Run, Typed, TypedItems, Nesting, Below, LastName, NameFrom, VectorCount, After;
    var more := Encode(VMany(attrs, VStop));
    AtSplit(d, q, Encode(v), Enc32(dc) + more);
    RunOfEncoded(DocumentVectors(), Read32(d, p + 4), 0, v, d, q, p, depth);
    var q1 := q + |Encode(v)|;
    WordHere(d, q1, dc, more);
    assert more == (Enc32(VECTOR) + Enc32(Count(attrs))) + EncodeItems(attrs) by {
      assert Encode(VStop) == [];
    }
    AtSplit(d, q1 + 4, Enc32(VECTOR) + Enc32(Count(attrs)), EncodeItems(attrs));
    VectorReadBack(Count(attrs), d, q1 + 4);
    NameIsLast(attrs, Read32(d, p + 4), d, q1 + 12, depth, name0);
  }

  lemma {:induction false} NameIsLast(vs: Values, f: nat, d: bytes, p: nat, depth: nat, name: bytes)
    requires TypedItems(Obj(DocumentAttribute, Stop), f, 0, vs) && At(d, p, EncodeItems(vs)) && depth <= MEDIA_DEPTH
    ensures NameFrom(d, p, Count(vs), depth, name) == LastName(vs, name)
    decreases vs
  {
    hide At, Enc32, Skip, NameAt, PhotoSizes.Cut, ServiceRows.CString, Body;
    match vs
    case Nil =>
    case Cons(v, tail) =>
      AtSplit(d, p, Encode(v), EncodeItems(tail));
      OneAttribute(v, f, d, p, depth, name);
      NameIsLast(tail, f, d, p + |Encode(v)|, depth, NameAt(d, p, name));
  }

  lemma OneAttribute(v: Value, f: nat, d: bytes, p: nat, depth: nat, name: bytes)
    requires Typed(Obj(DocumentAttribute, Stop), f, 0, v) && At(d, p, Encode(v)) && depth <= MEDIA_DEPTH
    ensures v.VObj? && Skip(DocumentAttribute, d, p, depth) == Some(p + |Encode(v)|)
    ensures NameAt(d, p, name) == if v.ctor == ATTRIBUTE_FILENAME && v.body.VText?
                                  then PhotoSizes.Cut(ServiceRows.CString(v.body.content), FILENAME_MAX) else name
  {
    hide At, Enc32, Skip, PhotoSizes.Cut, ServiceRows.CString, Nesting, Read32, ReadString, TextOk, Typed, Encode,
         Body;
    AttributeShape(v, f);
    AttributeNesting(v.ctor, v.body);
    SkipOfEncodedAt(DocumentAttribute, v.ctor, v.body, d, p, depth);
    WordHere(d, p, v.ctor, Encode(v.body));
    if v.ctor == ATTRIBUTE_FILENAME {
      FilenameShape(v.body);
      TextHere(d, p + 4, v.body.head, v.body.content, v.body.pad, []);
    }
  }

  lemma AttributeShape(v: Value, f: nat)
    requires Typed(Obj(DocumentAttribute, Stop), f, 0, v)
    ensures v.VObj? && v.ty == DocumentAttribute && Typed(Body(DocumentAttribute, v.ctor), 0, 0, v.body)
    ensures Encode(v) == Enc32(v.ctor) + Encode(v.body)
  {
    hide Enc32, Body;
    assert Encode(VStop) == [];
  }

  lemma FilenameShape(body: Value)
    requires Typed(Body(DocumentAttribute, ATTRIBUTE_FILENAME), 0, 0, body)
    ensures body.VText? && TextOk(body.head, body.content, body.pad)
    ensures Encode(body) == (body.head + body.content + body.pad) + []
  {
    hide Body, TextOk;
    FilenameLayout();
    assert Encode(VStop) == [];
  }

  /** A layout through which no media can be reached. */
  predicate Flat(lay: Layout) {
    match lay
    case Stop => true
    case Reject => true
    case Word(_, next) => Flat(next)
    case Text(next) => Flat(next)
    case Flags(next) => Flat(next)
    case If(_, body, next) => Flat(body) && Flat(next)
    case Obj(t, next) => (t == StickerSet || t == MaskCoords) && Flat(next)
    case Many(item, next) => Flat(item) && Flat(next)
    case _ => false
  }

  lemma AttributeLayouts(c: nat)
    ensures Body(DocumentAttribute, c) == DocumentAttributeBody(c)
  {
  }

  lemma FlatAttributes(c: nat)
    ensures Flat(Body(DocumentAttribute, c))
  {
    hide Body;
    AttributeLayouts(c);
  }

  lemma FlatParts(c: nat)
    ensures Flat(Body(StickerSet, c)) && Flat(Body(MaskCoords, c))
  {
  }

  lemma {:induction false} FlatNesting(lay: Layout, f: nat, g: nat, v: Value)
    requires Flat(lay) && Typed(lay, f, g, v)
    ensures Nesting(v) == 0
    decreases v
  {
    hide Body, Bit, TextOk;
    match v
    case VStop =>
    case VWord(_, next) => FlatNesting(lay.next, f, g, next);
    case VText(_, _, _, next) => FlatNesting(lay.next, f, g, next);
    case VFlags(w, next) => FlatNesting(lay.next, w, g, next);
    case VObj(t, c, body, next) =>
      FlatParts(c);
      FlatNesting(Body(t, c), 0, 0, body);
      FlatNesting(lay.next, f, g, next);
    case VMany(items, next) =>
      FlatItems(lay.item, f, g, items);
      FlatNesting(lay.next, f, g, next);
    case VPresent(body, next) =>
      FlatNesting(lay.body, f, g, body);
      FlatNesting(lay.next, f, g, next);
    case VAbsent(next) => FlatNesting(lay.next, f, g, next);
  }

  lemma {:induction false} FlatItems(item: Layout, f: nat, g: nat, vs: Values)
    requires Flat(item) && TypedItems(item, f, g, vs)
    ensures NestingItems(vs) == 0
    decreases vs
  {
    hide Typed, Nesting, Flat;
    match vs
    case Nil =>
    case Cons(v, tail) =>
      FlatNesting(item, f, g, v);
      FlatItems(item, f, g, tail);
  }

  lemma AttributeNesting(c: uint32, body: Value)
    requires Typed(Body(DocumentAttribute, c), 0, 0, body)
    ensures Nesting(body) == 0
  {
    hide Typed, Body, Flat, Nesting;
    FlatAttributes(c);
    FlatNesting(Body(DocumentAttribute, c), 0, 0, body);
  }

  /** A document from its thumbnails on. */
  function DocumentEnd(f: nat, y: Doc, dc: uint32): Value {
    OptVector(f, 0, y.thumbs, OptVector(f, 1, y.videos, VWord(Enc32(dc), VMany(y.attributes, VStop))))
  }

  lemma MimeHere(y: Doc, rest: Value, d: bytes, q: nat)
    requires At(d, q, Encode(VText(y.head, y.mime, y.pad, VWord(Enc64(y.size), rest)))) && TextOk(y.head, y.mime, y.pad)
    ensures var q1 := q + |y.head + y.mime + y.pad|;
            && ReadString(d, q) == Some((y.mime, q1)) && Read64(d, q1) == y.size && After(d, q1, 8) == q1 + 8
            && At(d, q1 + 8, Encode(rest))
  {
    hide At, Enc64, Read64, ReadString, TextOk;
    var v := VWord(Enc64(y.size), rest);
    assert Encode(v) == Enc64(y.size) + Encode(rest);
    TextHere(d, q, y.head, y.mime, y.pad, Encode(v));
    LongHere(d, q + |y.head + y.mime + y.pad|, y.size, Encode(rest));
  }

  lemma MimeTyped(f: nat, y: Doc, dc: uint32)
    requires Typed(Text(Word(2,
                             If(0, Many(Obj(PhotoSize, Stop), Stop),
                                Videos(Word(1, Many(Obj(DocumentAttribute, Stop), Stop)))))),
                   f, 0, VText(y.head, y.mime, y.pad, VWord(Enc64(y.size), DocumentEnd(f, y, dc))))
    ensures TextOk(y.head, y.mime, y.pad)
    ensures Typed(DocumentVectors(), f, 0, OptVector(f, 0, y.thumbs, OptVector(f, 1, y.videos, VStop)))
    ensures Count(y.attributes) < TWO_TO_32 && TypedItems(Obj(DocumentAttribute, Stop), f, 0, y.attributes)
  {
    hide Bit, OptVector, TextOk, Enc32, Enc64, Body, TypedItems;
    var last := VWord(Enc32(dc), VMany(y.attributes, VStop));
    var videos := Videos(Word(1, Many(Obj(DocumentAttribute, Stop), Stop)));
    var thumbs := If(0, Many(Obj(PhotoSize, Stop), Stop), videos);
    assert Typed(Word(2, thumbs), f, 0, VWord(Enc64(y.size), DocumentEnd(f, y, dc)));
    assert Typed(thumbs, f, 0, DocumentEnd(f, y, dc));
    OptNext(f, 0, y.thumbs, thumbs, OptVector(f, 1, y.videos, last));
    OptNext(f, 1, y.videos, videos, last);
    assert Typed(videos.next.next, f, 0, VMany(y.attributes, VStop));
    assert Typed(Stop, f, 0, VStop);
    OptTyped(f, 1, y.videos, videos, last, Obj(VideoSize, Stop), Stop, VStop);
    OptTyped(f, 0, y.thumbs, thumbs, OptVector(f, 1, y.videos, last), Obj(PhotoSize, Stop), Videos(Stop),
             OptVector(f, 1, y.videos, VStop));
  }

  lemma OptNext(f: nat, k: nat, vs: Values, lay: Layout, next: Value)
    requires lay.If? && lay.bit == k && Typed(lay, f, 0, OptVector(f, k, vs, next))
    ensures Typed(lay.next, f, 0, next)
  {
    hide Bit, Body, TypedItems;
  }

  lemma DocumentEncoding(f: nat, y: Doc, dc: uint32)
    ensures Encode(DocumentEnd(f, y, dc)) ==
            Encode(OptVector(f, 0, y.thumbs, OptVector(f, 1, y.videos, VStop)))
            + (Enc32(dc) + Encode(VMany(y.attributes, VStop)))
  {
    hide Enc32, OptVector;
    var last := VWord(Enc32(dc), VMany(y.attributes, VStop));
    assert Encode(last) == Enc32(dc) + Encode(VMany(y.attributes, VStop));
    OptEncoding(f, 1, y.videos, last);
    OptEncoding(f, 0, y.thumbs, OptVector(f, 1, y.videos, last));
    OptEncoding(f, 0, y.thumbs, OptVector(f, 1, y.videos, VStop));
  }

  /** Media that hold a file. */
  function FileMediaValue(flags: uint32, t: Type, c: uint32, file: Value, rest: Value): Value {
    VFlags(flags, VPresent(VObj(t, c, file, VStop), rest))
  }

  /** What a sender puts on the wire for a photo: constructor, flags, id, access hash, file reference, date,
      sizes, video sizes behind flag 1, data centre. */
  lemma PhotoBytes(x: File, sizes: Values, videos: Values, dc: uint32)
    ensures ObjectBytes(PHOTO, PhotoValue(x, sizes, videos, dc)) ==
            Enc32(0xfb197a65) + (Enc32(x.flags) + ((Enc64(x.id) + Enc64(x.access)) + ((x.head + x.ref + x.pad)
            + (Enc32(x.date) + (ListBytes(sizes)
            + ((if Bit(x.flags, 1) then ListBytes(videos) else []) + Enc32(dc)))))))
  {
    hide Enc32, Enc64, Bit;
    var last := VWord(Enc32(dc), VStop);
    var behind := OptVector(x.flags, 1, videos, last);
    FileEncoding(x, VMany(sizes, behind));
    assert Encode(VMany(sizes, behind)) == ListBytes(sizes) + Encode(behind);
    OptBytes(x.flags, 1, videos, last);
    assert Encode(last) == Enc32(dc) + Encode(VStop) == Enc32(dc);
  }

  /** And for a document: behind the date the MIME type, the size, thumbnails behind flag 0, video
      thumbnails behind flag 1, the data centre and the attributes. */
  lemma DocumentBytes(x: File, y: Doc, dc: uint32)
    ensures ObjectBytes(DOCUMENT, DocumentValue(x, y, dc)) ==
            Enc32(0x8fd4c4d8) + (Enc32(x.flags) + ((Enc64(x.id) + Enc64(x.access)) + ((x.head + x.ref + x.pad)
            + (Enc32(x.date) + ((y.head + y.mime + y.pad) + (Enc64(y.size)
            + ((if Bit(x.flags, 0) then ListBytes(y.thumbs) else [])
            + ((if Bit(x.flags, 1) then ListBytes(y.videos) else []) + (Enc32(dc) + ListBytes(y.attributes))))))))))
  {
    hide Enc32, Enc64, Bit, OptVector;
    var attrs := VMany(y.attributes, VStop);
    var last := VWord(Enc32(dc), attrs);
    var videos := OptVector(x.flags, 1, y.videos, last);
    var thumbs := OptVector(x.flags, 0, y.thumbs, videos);
    var size := VWord(Enc64(y.size), thumbs);
    var mime := VText(y.head, y.mime, y.pad, size);
    FileEncoding(x, mime);
    assert Encode(mime) == (y.head + y.mime + y.pad) + Encode(size);
    assert Encode(size) == Enc64(y.size) + Encode(thumbs);
    OptBytes(x.flags, 0, y.thumbs, videos);
    OptBytes(x.flags, 1, y.videos, last);
    assert Encode(last) == Enc32(dc) + Encode(attrs);
    assert Encode(attrs) == ListBytes(y.attributes) + Encode(VStop) == ListBytes(y.attributes);
  }

  function ListBytes(vs: Values): bytes { (Enc32(0x1cb5c415) + Enc32(Count(vs))) + EncodeItems(vs) }

  lemma OptBytes(f: nat, k: nat, vs: Values, next: Value)
    ensures Encode(OptVector(f, k, vs, next)) == (if Bit(f, k) then ListBytes(vs) else []) + Encode(next)
  {
    hide Enc32, Bit;
    assert Encode(VStop) == [];
    assert Encode(VMany(vs, VStop)) == ListBytes(vs) + [] == ListBytes(vs);
    assert [] + Encode(next) == Encode(next);
  }

  /** Media with a file: constructor, flags, the file, the fields behind it. */
  lemma FileMediaBytes(media: uint32, flags: uint32, t: Type, c: uint32, file: Value, rest: Value)
    ensures ObjectBytes(media, FileMediaValue(flags, t, c, file, rest)) ==
            Enc32(media) + (Enc32(flags) + (ObjectBytes(c, file) + Encode(rest)))
  {
    hide Enc32;
    var inner := VObj(t, c, file, VStop);
    assert Encode(VStop) == [];
    assert Encode(inner) == ObjectBytes(c, file) + [] == ObjectBytes(c, file);
    assert Encode(VPresent(inner, rest)) == ObjectBytes(c, file) + Encode(rest);
  }

  lemma FileMediaHere(media: uint32, flags: uint32, t: Type, c: uint32, file: Value, rest: Value, d: bytes, p: nat)
    requires At(d, p, ObjectBytes(media, FileMediaValue(flags, t, c, file, rest)))
    ensures Read32(d, p) == media && Read32(d, p + 4) == flags && At(d, p + 8, ObjectBytes(c, file))
  {
    hide At, Enc32, Read32;
    FileMediaBytes(media, flags, t, c, file, rest);
    WordHere(d, p, media, Enc32(flags) + (ObjectBytes(c, file) + Encode(rest)));
    WordHere(d, p + 4, flags, ObjectBytes(c, file) + Encode(rest));
    AtSplit(d, p + 8, ObjectBytes(c, file), Encode(rest));
  }

  lemma FileMediaTyped(media: uint32, flags: uint32, t: Type, c: uint32, file: Value, rest: Value)
    requires media == (if t == Photo then MESSAGE_MEDIA_PHOTO else MESSAGE_MEDIA_DOCUMENT)
             && (t == Photo || t == Document)
    requires IsObject(Media, media, FileMediaValue(flags, t, c, file, rest))
    ensures Bit(flags, 0) && IsObject(t, c, file)
  {
    hide Bit, Body, TypedItems;
    MediaLayouts(media);
    var lay := Body(Media, media);
    var v := VPresent(VObj(t, c, file, VStop), rest);
    assert Typed(lay.next, flags, 0, v);
    assert Typed(lay.next.body, flags, 0, VObj(t, c, file, VStop));
  }

  /** `tl_skip_message_media_ex` gives its caller, for any photo in a message, what
      inputPhotoFileLocation needs: kind, id, access hash, data centre, and the file reference, whole
      exactly when it has at most 128 bytes. */
  lemma PhotoMediaReported(flags: uint32, x: File, sizes: Values, videos: Values, dc: uint32, rest: Value,
                           d: bytes, p: nat, depth: nat, mi: MediaInfo)
    requires IsObject(Media, MESSAGE_MEDIA_PHOTO,
                      FileMediaValue(flags, Photo, PHOTO, PhotoValue(x, sizes, videos, dc), rest))
    requires At(d, p, ObjectBytes(MESSAGE_MEDIA_PHOTO,
                                  FileMediaValue(flags, Photo, PHOTO, PhotoValue(x, sizes, videos, dc), rest)))
    requires depth < MEDIA_DEPTH && ReportsMedia(d, p, depth, mi)
    ensures mi.kind == MEDIA_PHOTO && mi.photoId == Signed64(x.id) && mi.accessHash == Signed64(x.access)
    ensures mi.dcId == Signed32(dc) && mi.fileReference == (if |x.ref| <= 128 then x.ref else x.ref[..128])
    ensures PhotoSizes.Names(SizesOf(sizes), 8, mi.thumbType)
  {
    hide PhotoSizes.Names, SizesOf;
    hide At, Read32, Bit, IsObject, ReportsPhoto, ReportsDocument, PhotoValue, FileMediaValue, ObjectBytes;
    var photo := PhotoValue(x, sizes, videos, dc);
    FileMediaHere(MESSAGE_MEDIA_PHOTO, flags, Photo, PHOTO, photo, rest, d, p);
    FileMediaTyped(MESSAGE_MEDIA_PHOTO, flags, Photo, PHOTO, photo, rest);
    PhotoReported(x, sizes, videos, dc, d, p + 8, depth + 1, BLANK.(kind := MEDIA_PHOTO), mi);
  }

  /** The same for any document, with its size. */
  lemma DocumentMediaReported(flags: uint32, x: File, y: Doc, dc: uint32, rest: Value, d: bytes, p: nat, depth: nat,
                              mi: MediaInfo)
    requires IsObject(Media, MESSAGE_MEDIA_DOCUMENT,
                      FileMediaValue(flags, Document, DOCUMENT, DocumentValue(x, y, dc), rest))
    requires At(d, p, ObjectBytes(MESSAGE_MEDIA_DOCUMENT,
                                  FileMediaValue(flags, Document, DOCUMENT, DocumentValue(x, y, dc), rest)))
    requires depth < MEDIA_DEPTH && ReportsMedia(d, p, depth, mi)
    ensures mi.kind == MEDIA_DOCUMENT && mi.documentId == Signed64(x.id) && mi.accessHash == Signed64(x.access)
    ensures mi.dcId == Signed32(dc) && mi.fileReference == (if |x.ref| <= 128 then x.ref else x.ref[..128])
    ensures mi.documentSize == Signed64(y.size) && mi.documentFilename == LastName(y.attributes, [])
    ensures var s := ServiceRows.CString(y.mime); mi.documentMime == if |s| < 64 then s else s[..63]
  {
    hide ServiceRows.CString, LastName;
    hide At, Read32, Bit, IsObject, ReportsPhoto, ReportsDocument, DocumentValue, FileMediaValue, ObjectBytes;
    var document := DocumentValue(x, y, dc);
    FileMediaHere(MESSAGE_MEDIA_DOCUMENT, flags, Document, DOCUMENT, document, rest, d, p);
    FileMediaTyped(MESSAGE_MEDIA_DOCUMENT, flags, Document, DOCUMENT, document, rest);
    DocumentReported(x, y, dc, d, p + 8, depth + 1, BLANK.(kind := MEDIA_DOCUMENT), mi);
  }

  /** `tl_skip_message_media_ex` on a buffer with encoded media anywhere in it: it succeeds, stops at
      their end, and reports on them. */
  method Inspect(pre: bytes, media: uint32, v: Value, suf: bytes) returns (mi: MediaInfo)
    requires IsObject(Media, media, v) && ObjectNesting(Media, v) <= MEDIA_DEPTH
    ensures At(pre + ObjectBytes(media, v) + suf, |pre|, ObjectBytes(media, v))
    ensures ReportsMedia(pre + ObjectBytes(media, v) + suf, |pre|, 0, mi)
  {
    hide Skip, IsObject, ObjectBytes, Nesting, ReportsMedia;
    var d := pre + ObjectBytes(media, v) + suf;
    var r := new TlReader(d);
    r.pos := |pre|;
    SkipUndoesEncoding(Media, media, v, pre, suf);
    var ok;
    ok, mi := SkipMediaEx(r);
    assert ok && r.pos == |pre| + |ObjectBytes(media, v)|;
  }

  /** A photo that is sent is the photo that is reported. */
  method InspectPhoto(pre: bytes, flags: uint32, x: File, sizes: Values, videos: Values, dc: uint32, rest: Value,
                      suf: bytes)
    returns (mi: MediaInfo)
    requires IsObject(Media, MESSAGE_MEDIA_PHOTO,
                      FileMediaValue(flags, Photo, PHOTO, PhotoValue(x, sizes, videos, dc), rest))
    requires ObjectNesting(Media,
                           FileMediaValue(flags, Photo, PHOTO, PhotoValue(x, sizes, videos, dc), rest)) <= MEDIA_DEPTH
    ensures mi.kind == MEDIA_PHOTO && mi.photoId == Signed64(x.id) && mi.accessHash == Signed64(x.access)
    ensures mi.dcId == Signed32(dc) && mi.fileReference == (if |x.ref| <= 128 then x.ref else x.ref[..128])
    ensures PhotoSizes.Names(SizesOf(sizes), 8, mi.thumbType)
  {
    hide PhotoSizes.Names, SizesOf, IsObject, ObjectBytes, ObjectNesting, FileMediaValue, PhotoValue, ReportsMedia, At;
    var v := FileMediaValue(flags, Photo, PHOTO, PhotoValue(x, sizes, videos, dc), rest);
    mi := Inspect(pre, MESSAGE_MEDIA_PHOTO, v, suf);
    PhotoMediaReported(flags, x, sizes, videos, dc, rest, pre + ObjectBytes(MESSAGE_MEDIA_PHOTO, v) + suf, |pre|, 0,
                       mi);
  }

  /** A document that is sent is the document that is reported. */
  method InspectDocument(pre: bytes, flags: uint32, x: File, y: Doc, dc: uint32, rest: Value, suf: bytes)
    returns (mi: MediaInfo)
    requires IsObject(Media, MESSAGE_MEDIA_DOCUMENT,
                      FileMediaValue(flags, Document, DOCUMENT, DocumentValue(x, y, dc), rest))
    requires ObjectNesting(Media,
                           FileMediaValue(flags, Document, DOCUMENT, DocumentValue(x, y, dc), rest)) <= MEDIA_DEPTH
    ensures mi.kind == MEDIA_DOCUMENT && mi.documentId == Signed64(x.id) && mi.accessHash == Signed64(x.access)
    ensures mi.dcId == Signed32(dc) && mi.fileReference == (if |x.ref| <= 128 then x.ref else x.ref[..128])
    ensures mi.documentSize == Signed64(y.size) && mi.documentFilename == LastName(y.attributes, [])
    ensures var s := ServiceRows.CString(y.mime); mi.documentMime == if |s| < 64 then s else s[..63]
  {
    hide ServiceRows.CString, LastName;
    hide IsObject, ObjectBytes, ObjectNesting, FileMediaValue, DocumentValue, ReportsMedia, At;
    var v := FileMediaValue(flags, Document, DOCUMENT, DocumentValue(x, y, dc), rest);
    mi := Inspect(pre, MESSAGE_MEDIA_DOCUMENT, v, suf);
    DocumentMediaReported(flags, x, y, dc, rest, pre + ObjectBytes(MESSAGE_MEDIA_DOCUMENT, v) + suf, |pre|, 0, mi);
  }
}
