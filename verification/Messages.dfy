/** Three readers of one Message: `tl_skip_message` (in `TlSkip`), history's `parse_message` and
    search's copy of it, which must agree. */
module Messages {
  import opened Bytes
  import opened TlCodec
  import opened TlGrammar
  import opened TlSerial
  import opened TlTrees
  import TlSkip
  import opened Medias
  import opened ServiceRows

  const MESSAGE: uint32 := 0x94345242
  const MESSAGE_EMPTY: uint32 := 0x90a6ca84
  const MESSAGE_SERVICE: uint32 := 0x2b085862

  function WithMedia(e: Entry, mi: MediaInfo): Entry {
    e.(media := mi.kind, mediaDc := mi.dcId,
       mediaId := if mi.kind == MEDIA_PHOTO then mi.photoId else if mi.kind == MEDIA_DOCUMENT then mi.documentId else 0)
  }

  // ---- the row of a message, from the layout tables ----

  /** The fields between the id and the date. */
  function Heading(): Layout {
    If(8, Obj(Peer, Stop), Obj(Peer, If(28, Obj(Peer, Stop), If(2, Obj(FwdHeader, Stop),
      If(11, Word(2, Stop), If2(0, Word(2, Stop), If(3, Obj(ReplyHeader, Stop), Stop)))))))
  }

  function EmptyRow(d: bytes, p: nat): Parsed {
    var f, q := Read32(d, p), After(d, p, 4);
    var end := After(d, q, 4);
    Parsed(true, if Bit(f, 0) then After(d, After(d, end, 4), 8) else end, NO_ENTRY.(id := Signed32(Read32(d, q))))
  }

  function UserRow(d: bytes, p: nat, e: Entry, f: uint32, g: uint32, skip: Skippers, media: nat -> MediaInfo): Parsed {
    var (ok, q) := Land(Heading(), f, g, d, p, skip);
    if !ok || Short(d, q, 4) then Parsed(false, q, e.(complex := true))
    else TextRow(d, After(d, q, 4), e.(date := Signed32(Read32(d, q))), f, g, skip, media)
  }

  /** The text, then whatever the flags announce after it. A string that cannot be read leaves
      the text empty and is not a failure of its own. */
  function TextRow(d: bytes, p: nat, e: Entry, f: uint32, g: uint32, skip: Skippers, media: nat -> MediaInfo): Parsed {
    match ReadString(d, p)
    case None => MediaRow(d, |d|, e, f, g, skip, media)
    case Some((s, q)) => MediaRow(d, q, SetText(e, s), f, g, skip, media)
  }

  function MediaRow(d: bytes, p: nat, e: Entry, f: uint32, g: uint32, skip: Skippers, media: nat -> MediaInfo): Parsed {
    if !Bit(f, 9) then TailRow(d, p, e, f, g, skip)
    else
      var (ok, q) := skip(Obj(Media, Stop), p);
      if !ok then Parsed(false, q, e.(media := media(p).kind, complex := true))
      else TailRow(d, q, WithMedia(e, media(p)), f, g, skip)
  }

  function TailRow(d: bytes, p: nat, e: Entry, f: uint32, g: uint32, skip: Skippers): Parsed {
    var (ok, q) := Land(AfterMedia(), f, g, d, p, skip);
    Parsed(ok, q, if ok then e else e.(complex := true))
  }

  /** The row both parsers must produce for the Message at `p`. */
  function Row(d: bytes, p: nat, skip: Skippers, media: nat -> MediaInfo): Parsed {
    if p >= |d| then Parsed(false, p, NO_ENTRY)
    else
      var c, q := Read32(d, p), After(d, p, 4);
      if c == MESSAGE_EMPTY then EmptyRow(d, q)
      else if c == MESSAGE_SERVICE then
        var f, q1 := Read32(d, q), After(d, q, 4);
        ServiceRow(d, After(d, q1, 4), NO_ENTRY.(out := Bit(f, 1), id := Signed32(Read32(d, q1))), f, skip)
      else if c == MESSAGE then
        var f, q1 := Read32(d, q), After(d, q, 4);
        var g, q2 := Read32(d, q1), After(d, q1, 4);
        UserRow(d, After(d, q2, 4), NO_ENTRY.(out := Bit(f, 1), id := Signed32(Read32(d, q2))), f, g, skip, media)
      else Parsed(false, q, NO_ENTRY)
  }

  // ---- what a row holds even when the rest cannot be read ----

  /** Parsing on from `e` leaves id and direction alone, and marks the row complex exactly when it
      could not be read to its end. */
  predicate Keeps(e: Entry, r: Parsed) {
    r.e.id == e.id && r.e.out == e.out && r.e.isService == e.isService && (!e.complex ==> (r.e.complex <==> !r.ok))
  }

  lemma TailKeeps(d: bytes, p: nat, e: Entry, f: uint32, g: uint32, skip: Skippers)
    ensures Keeps(e, TailRow(d, p, e, f, g, skip))
  {
    hide Land;
  }

  lemma MediaKeeps(d: bytes, p: nat, e: Entry, f: uint32, g: uint32, skip: Skippers, media: nat -> MediaInfo)
    ensures Keeps(e, MediaRow(d, p, e, f, g, skip, media))
  {
    hide TailRow, Bit;
    var q := skip(Obj(Media, Stop), p).1;
    TailKeeps(d, p, e, f, g, skip);
    TailKeeps(d, q, WithMedia(e, media(p)), f, g, skip);
  }

  lemma UserRowKeeps(d: bytes, p: nat, e: Entry, f: uint32, g: uint32, skip: Skippers, media: nat -> MediaInfo)
    ensures Keeps(e, UserRow(d, p, e, f, g, skip, media))
  {
    hide Land, MediaRow, ReadString, CString;
    var q := Land(Heading(), f, g, d, p, skip).1;
    var e1, p1 := e.(date := Signed32(Read32(d, q))), After(d, q, 4);
    if ReadString(d, p1).Some? {
      MediaKeeps(d, ReadString(d, p1).value.1, SetText(e1, ReadString(d, p1).value.0), f, g, skip, media);
    } else {
      MediaKeeps(d, |d|, e1, f, g, skip, media);
    }
  }

  /** Whatever goes wrong later, the row of a message that starts with these words has its id and
      direction. */
  lemma IdentityCaptured(d: bytes, p: nat, f: uint32, g: uint32, id: uint32, skip: Skippers, media: nat -> MediaInfo)
    requires At(d, p, Enc32(MESSAGE) + (Enc32(f) + (Enc32(g) + Enc32(id))))
    ensures var r := Row(d, p, skip, media); r.e.id == Signed32(id) && r.e.out == Bit(f, 1) && (r.e.complex <==> !r.ok)
  {
    hide At, Enc32, Word32, UserRow, ServiceRow, Bit;
    AtSplit(d, p, Enc32(MESSAGE), Enc32(f) + (Enc32(g) + Enc32(id)));
    AtSplit(d, p + 4, Enc32(f), Enc32(g) + Enc32(id));
    AtSplit(d, p + 8, Enc32(g), Enc32(id));
    WordThere(d, p, MESSAGE);
    WordThere(d, p + 4, f);
    WordThere(d, p + 8, g);
    WordThere(d, p + 12, id);
    UserRowKeeps(d, p + 16, NO_ENTRY.(out := Bit(f, 1), id := Signed32(id)), f, g, skip, media);
  }

  lemma WordThere(d: bytes, p: nat, v: uint32)
    requires At(d, p, Enc32(v))
    ensures p + 4 <= |d| && Read32(d, p) == v && After(d, p, 4) == p + 4
  {
    hide Enc32, Word32;
    Word32OfEnc32(v, d, p);
  }

  /** A readable text is in the row, cut at its first NUL and at 511 bytes, even if the fields after
      it are not; the row says whether it was cut. */
  lemma TextCaptured(d: bytes, p: nat, e: Entry, f: uint32, g: uint32, skip: Skippers, media: nat -> MediaInfo)
    requires ReadString(d, p).Some? && !e.truncated
    ensures var c := CString(ReadString(d, p).value.0);
            var r := TextRow(d, p, e, f, g, skip, media).e;
            && r.text == Words("%s", 0, if |c| < TEXT_MAX then c else c[..TEXT_MAX - 1], "")
            && (r.truncated <==> |c| >= TEXT_MAX)
  {
    hide Land, ReadString, Bit, CString, MessageTail;
  }

  /** A photo is in the row with its id and data centre, even if the fields after it cannot be read. */
  lemma PhotoCaptured(d: bytes, p: nat, e: Entry, f: uint32, g: uint32, skip: Skippers, media: nat -> MediaInfo,
                      flags: uint32, x: File, sizes: Values, videos: Values, dc: uint32, rest: Value)
    requires Bit(f, 9) && skip(Obj(Media, Stop), p).0 && ReportsMedia(d, p, 0, media(p))
    requires IsObject(Media, MESSAGE_MEDIA_PHOTO,
                      FileMediaValue(flags, Photo, PHOTO, PhotoValue(x, sizes, videos, dc), rest))
    requires At(d, p, ObjectBytes(MESSAGE_MEDIA_PHOTO,
                                  FileMediaValue(flags, Photo, PHOTO, PhotoValue(x, sizes, videos, dc), rest)))
    ensures var r := MediaRow(d, p, e, f, g, skip, media).e;
            r.media == MEDIA_PHOTO && r.mediaId == Signed64(x.id) && r.mediaDc == Signed32(dc)
  {
    hide At, Bit, IsObject, Land, ReportsMedia, FileMediaValue, PhotoValue;
    PhotoMediaReported(flags, x, sizes, videos, dc, rest, d, p, 0, media(p));
  }

  // ---- the two parsers ----

  /** The fields a parser still has to read, and the flags that select them. */
  datatype Path = Path(lay: Layout, f: nat, g: nat)

  ghost function Ahead(d: bytes, p: nat, w: Path, skip: Skippers): (bool, nat) {
    Land(w.lay, w.f, w.g, d, p, skip)
  }

  lemma AheadIsLand(d: bytes, p: nat, w: Path, skip: Skippers)
    ensures Ahead(d, p, w, skip) == Land(w.lay, w.f, w.g, d, p, skip)
  {
  }

  lemma NothingAhead(d: bytes, p: nat, w: Path, skip: Skippers)
    requires w.lay == Stop
    ensures Ahead(d, p, w, skip) == (true, p)
  {
  }

  /** Flag `on` guards the next field, and that field is `one`. */
  ghost predicate Guards(w: Path, on: bool, one: Layout) {
    && ((w.lay.If? && on == Bit(w.f, w.lay.bit)) || (w.lay.If2? && on == Bit(w.g, w.lay.bit)))
    && w.lay.body == one
  }

  /** One field read: the outcome of the remaining fields is unchanged, or it is a failure here. */
  ghost predicate Stepped(d: bytes, p: nat, w: Path, ok: bool, q: nat, v: Path, skip: Skippers) {
    Ahead(d, p, w, skip) == if ok then Ahead(d, q, v, skip) else (false, q)
  }

  /** `if (flags & bit) if (skip(r) != 0) return -1;` */
  method SkipIf(r: TlReader, on: bool, one: Layout, skip: Skippers, ghost w: Path) returns (ok: bool, ghost v: Path)
    requires Guards(w, on, one) && (one == Text(Stop) || (one.Obj? && one.next.Stop?) || (one.Many? && one.next.Stop?))
    modifies r`pos
    ensures v == w.(lay := w.lay.next) && Stepped(r.data, old(r.pos), w, ok, r.pos, v, skip)
  {
    hide Bit;
    ok, v := true, w.(lay := w.lay.next);
    if on {
      LandOne(one, w.f, w.g, r.data, r.pos, skip);
      ok, r.pos := skip(one, r.pos).0, skip(one, r.pos).1;
    }
  }

  lemma LandOne(one: Layout, f: nat, g: nat, d: bytes, p: nat, skip: Skippers)
    requires one == Text(Stop) || (one.Obj? && one.next.Stop?) || (one.Many? && one.next.Stop?)
    ensures Land(one, f, g, d, p, skip) == skip(one, p)
  {
  }

  lemma LandWord(n: nat, f: nat, g: nat, d: bytes, p: nat, skip: Skippers)
    requires n % 4 == 0
    ensures Land(Word(n / 4, Stop), f, g, d, p, skip) == if Short(d, p, n) then (false, p) else (true, After(d, p, n))
  {
  }

  /** `if (skip(r) != 0) return -1;` */
  method SkipField(r: TlReader, one: Layout, skip: Skippers, ghost w: Path) returns (ok: bool, ghost v: Path)
    requires w.lay.Obj? && one == Obj(w.lay.ty, Stop)
    modifies r`pos
    ensures v == w.(lay := w.lay.next) && Stepped(r.data, old(r.pos), w, ok, r.pos, v, skip)
  {
    v := w.(lay := w.lay.next);
    ok, r.pos := skip(one, r.pos).0, skip(one, r.pos).1;
  }

  /** `if (flags & bit) { if (r->len - r->pos < n) return -1; ... }` and the reads it guards. */
  method ReadIf(r: TlReader, on: bool, n: nat, skip: Skippers, ghost w: Path) returns (ok: bool, ghost v: Path)
    requires n % 4 == 0 && Guards(w, on, Word(n / 4, Stop))
    modifies r`pos
    ensures v == w.(lay := w.lay.next) && Stepped(r.data, old(r.pos), w, ok, r.pos, v, skip)
  {
    hide Bit;
    ok, v := true, w.(lay := w.lay.next);
    if on {
      LandWord(n, w.f, w.g, r.data, r.pos, skip);
      if Short(r.data, r.pos, n) { return false, v; }
      r.Advance(n);
    }
  }

  /** History's `parse_message`. */
  method ParseHistory(r: TlReader, skip: Skippers, media: nat -> MediaInfo) returns (ok: bool, e: Entry)
    modifies r`pos
    ensures Parsed(ok, r.pos, e) == Row(r.data, old(r.pos), skip, media)
  {
    hide Bit, Land, ServiceRow, ReadString, SetText;
    e := NO_ENTRY;
    if !r.Ok() { return false, e; }
    var crc := r.ReadUint32();
    if crc == MESSAGE_EMPTY {
      var flags := r.ReadUint32();
      var id := r.ReadUint32();
      e := e.(id := Signed32(id));
      if Bit(flags, 0) { r.Advance(4); r.Advance(8); }
      return true, e;
    }
    if crc != MESSAGE && crc != MESSAGE_SERVICE { return false, e; }
    var flags := r.ReadUint32();
    var flags2: uint32 := 0;
    if crc == MESSAGE { flags2 := r.ReadUint32(); }
    var id := r.ReadUint32();
    e := e.(out := Bit(flags, 1), id := Signed32(id));
    if crc == MESSAGE_SERVICE {
      var s := ServiceRow(r.data, r.pos, e, flags, skip);
      r.pos := s.pos;
      return s.ok, s.e;
    }
    ok, e := HistoryBody(r, e, flags, flags2, skip, media);
  }

  method HistoryBody(r: TlReader, e0: Entry, flags: uint32, flags2: uint32, skip: Skippers, media: nat -> MediaInfo)
    returns (ok: bool, e: Entry)
    modifies r`pos
    ensures Parsed(ok, r.pos, e) == UserRow(r.data, old(r.pos), e0, flags, flags2, skip, media)
  {
    hide Bit, Land, ReadString, SetText;
    e := e0;
    ghost var w := Path(Heading(), flags, flags2);
    ok, w := SkipIf(r, Bit(flags, 8), Obj(Peer, Stop), skip, w);        if !ok { return false, e.(complex := true); }
    ok, w := SkipField(r, Obj(Peer, Stop), skip, w);                    if !ok { return false, e.(complex := true); }
    ok, w := SkipIf(r, Bit(flags, 28), Obj(Peer, Stop), skip, w);       if !ok { return false, e.(complex := true); }
    ok, w := SkipIf(r, Bit(flags, 2), Obj(FwdHeader, Stop), skip, w);   if !ok { return false, e.(complex := true); }
    ok, w := ReadIf(r, Bit(flags, 11), 8, skip, w);                     if !ok { return false, e.(complex := true); }
    ok, w := ReadIf(r, Bit(flags2, 0), 8, skip, w);                     if !ok { return false, e.(complex := true); }
    ok, w := SkipIf(r, Bit(flags, 3), Obj(ReplyHeader, Stop), skip, w); if !ok { return false, e.(complex := true); }
    NothingAhead(r.data, r.pos, w, skip);
    if Short(r.data, r.pos, 4) { return false, e.(complex := true); }
    var date := r.ReadUint32();
    e := e.(date := Signed32(date));
    var msg := r.ReadBytes();
    if msg.Some? { e := SetText(e, msg.value); }
    ok, e := HistoryTail(r, e, flags, flags2, skip, media);
  }

  method HistoryTail(r: TlReader, e0: Entry, flags: uint32, flags2: uint32, skip: Skippers, media: nat -> MediaInfo)
    returns (ok: bool, e: Entry)
    modifies r`pos
    ensures Parsed(ok, r.pos, e) == MediaRow(r.data, old(r.pos), e0, flags, flags2, skip, media)
  {
    hide Bit, Land, Ahead;
    e := e0;
    if Bit(flags, 9) {
      var mi := media(r.pos);
      ok, r.pos := skip(Obj(Media, Stop), r.pos).0, skip(Obj(Media, Stop), r.pos).1;
      if !ok { return false, e.(media := mi.kind, complex := true); }
      e := WithMedia(e, mi);
    }
    ghost var w := Path(AfterMedia(), flags, flags2);
    AheadIsLand(r.data, r.pos, w, skip);
    ok, w := SkipIf(r, Bit(flags, 6), Obj(ReplyMarkup, Stop), skip, w);
    if !ok { return false, e.(complex := true); }
    ok, w := SkipIf(r, Bit(flags, 7), Many(Obj(Entity, Stop), Stop), skip, w);
    if !ok { return false, e.(complex := true); }
    ok, w := ReadIf(r, Bit(flags, 10), 8, skip, w);
    if !ok { return false, e.(complex := true); }
    ok, w := SkipIf(r, Bit(flags, 23), Obj(Replies, Stop), skip, w);
    if !ok { return false, e.(complex := true); }
    ok, w := ReadIf(r, Bit(flags, 15), 4, skip, w);
    if !ok { return false, e.(complex := true); }
    ok, w := SkipIf(r, Bit(flags, 16), Text(Stop), skip, w);
    if !ok { return false, e.(complex := true); }
    ok := HistoryEnding(r, flags, flags2, skip, w);
    if !ok { e := e.(complex := true); }
  }

  /** The fields from `grouped_id` on. */
  method HistoryEnding(r: TlReader, flags: uint32, flags2: uint32, skip: Skippers, ghost start: Path) returns (ok: bool)
    requires start == Path(MessageEnding(), flags, flags2)
    modifies r`pos
    ensures Ahead(r.data, old(r.pos), start, skip) == (ok, r.pos)
  {
    hide Bit, Land, Ahead;
    ghost var w := start;
    ok, w := ReadIf(r, Bit(flags, 17), 8, skip, w);                              if !ok { return; }
    ok, w := SkipIf(r, Bit(flags, 20), Obj(Reactions, Stop), skip, w);           if !ok { return; }
    ok, w := SkipIf(r, Bit(flags, 22), Many(Obj(RestrictionReason, Stop), Stop), skip, w);
    if !ok { return; }
    ok, w := ReadIf(r, Bit(flags, 25), 4, skip, w);                              if !ok { return; }
    ok, w := ReadIf(r, Bit(flags2, 30), 4, skip, w);                             if !ok { return; }
    ok, w := ReadIf(r, Bit(flags2, 2), 8, skip, w);                              if !ok { return; }
    ok, w := SkipIf(r, Bit(flags2, 3), Obj(FactCheck, Stop), skip, w);           if !ok { return; }
    NothingAhead(r.data, r.pos, w, skip);
  }

  /** Search's `parse_message`. */
  method ParseSearch(r: TlReader, skip: Skippers, media: nat -> MediaInfo) returns (ok: bool, e: Entry)
    modifies r`pos
    ensures Parsed(ok, r.pos, e) == Row(r.data, old(r.pos), skip, media)
  {
    hide Bit, Land, ServiceRow, ReadString, SetText;
    e := NO_ENTRY;
    if !r.Ok() { return false, e; }
    var crc := r.ReadUint32();
    if crc == MESSAGE_EMPTY {
      var flags := r.ReadUint32();
      var id := r.ReadUint32();
      e := e.(id := Signed32(id));
      if Bit(flags, 0) { r.Advance(4); r.Advance(8); }
      return true, e;
    }
    if crc != MESSAGE && crc != MESSAGE_SERVICE { return false, e; }
    var flags := r.ReadUint32();
    var flags2: uint32 := 0;
    if crc == MESSAGE { flags2 := r.ReadUint32(); }
    var id := r.ReadUint32();
    e := e.(out := Bit(flags, 1), id := Signed32(id));
    if crc == MESSAGE_SERVICE {
      var s := ServiceRow(r.data, r.pos, e, flags, skip);
      r.pos := s.pos;
      return s.ok, s.e;
    }
    ok, e := SearchBody(r, e, flags, flags2, skip, media);
  }

  method SearchBody(r: TlReader, e0: Entry, flags: uint32, flags2: uint32, skip: Skippers, media: nat -> MediaInfo)
    returns (ok: bool, e: Entry)
    modifies r`pos
    ensures Parsed(ok, r.pos, e) == UserRow(r.data, old(r.pos), e0, flags, flags2, skip, media)
  {
    hide Bit, Land, ReadString, SetText;
    e := e0;
    ghost var w := Path(Heading(), flags, flags2);
    ok, w := SkipIf(r, Bit(flags, 8), Obj(Peer, Stop), skip, w);        if !ok { return false, e.(complex := true); }
    ok, w := SkipField(r, Obj(Peer, Stop), skip, w);                    if !ok { return false, e.(complex := true); }
    ok, w := SkipIf(r, Bit(flags, 28), Obj(Peer, Stop), skip, w);       if !ok { return false, e.(complex := true); }
    ok, w := SkipIf(r, Bit(flags, 2), Obj(FwdHeader, Stop), skip, w);   if !ok { return false, e.(complex := true); }
    ok, w := ReadIf(r, Bit(flags, 11), 8, skip, w);                     if !ok { return false, e.(complex := true); }
    ok, w := ReadIf(r, Bit(flags2, 0), 8, skip, w);                     if !ok { return false, e.(complex := true); }
    ok, w := SkipIf(r, Bit(flags, 3), Obj(ReplyHeader, Stop), skip, w); if !ok { return false, e.(complex := true); }
    NothingAhead(r.data, r.pos, w, skip);
    if Short(r.data, r.pos, 4) { return false, e.(complex := true); }
    var date := r.ReadUint32();
    e := e.(date := Signed32(date));
    var msg := r.ReadBytes();
    if msg.Some? { e := CopyText(e, msg.value); }
    ok, e := SearchTail(r, e, flags, flags2, skip, media);
  }

  /** Search copies the text into its fixed buffer, and says when it had to cut it. */
  method CopyText(e0: Entry, s: bytes) returns (e: Entry)
    ensures e == SetText(e0, s)
  {
    hide CString;
    e := e0;
    var text := CString(s);
    if |text| >= TEXT_MAX {
      text := text[..TEXT_MAX - 1];
      e := e.(truncated := true);
    }
    e := e.(text := Words("%s", 0, text, ""));
  }

  method SearchTail(r: TlReader, e0: Entry, flags: uint32, flags2: uint32, skip: Skippers, media: nat -> MediaInfo)
    returns (ok: bool, e: Entry)
    modifies r`pos
    ensures Parsed(ok, r.pos, e) == MediaRow(r.data, old(r.pos), e0, flags, flags2, skip, media)
  {
    hide Bit, Land, Ahead;
    e := e0;
    if Bit(flags, 9) {
      var mi := media(r.pos);
      ok, r.pos := skip(Obj(Media, Stop), r.pos).0, skip(Obj(Media, Stop), r.pos).1;
      if !ok { return false, e.(media := mi.kind, complex := true); }
      e := WithMedia(e, mi);
    }
    ghost var w := Path(AfterMedia(), flags, flags2);
    AheadIsLand(r.data, r.pos, w, skip);
    ok, w := SkipIf(r, Bit(flags, 6), Obj(ReplyMarkup, Stop), skip, w);
    if !ok { return false, e.(complex := true); }
    ok, w := SkipIf(r, Bit(flags, 7), Many(Obj(Entity, Stop), Stop), skip, w);
    if !ok { return false, e.(complex := true); }
    ok, w := ReadIf(r, Bit(flags, 10), 8, skip, w);
    if !ok { return false, e.(complex := true); }
    ok, w := SkipIf(r, Bit(flags, 23), Obj(Replies, Stop), skip, w);
    if !ok { return false, e.(complex := true); }
    ok, w := ReadIf(r, Bit(flags, 15), 4, skip, w);
    if !ok { return false, e.(complex := true); }
    ok, w := SkipIf(r, Bit(flags, 16), Text(Stop), skip, w);
    if !ok { return false, e.(complex := true); }
    ok := SearchEnding(r, flags, flags2, skip, w);
    if !ok { e := e.(complex := true); }
  }

  /** The fields from `grouped_id` on. */
  method SearchEnding(r: TlReader, flags: uint32, flags2: uint32, skip: Skippers, ghost start: Path) returns (ok: bool)
    requires start == Path(MessageEnding(), flags, flags2)
    modifies r`pos
    ensures Ahead(r.data, old(r.pos), start, skip) == (ok, r.pos)
  {
    hide Bit, Land, Ahead;
    ghost var w := start;
    ok, w := ReadIf(r, Bit(flags, 17), 8, skip, w);                              if !ok { return; }
    ok, w := SkipIf(r, Bit(flags, 20), Obj(Reactions, Stop), skip, w);           if !ok { return; }
    ok, w := SkipIf(r, Bit(flags, 22), Many(Obj(RestrictionReason, Stop), Stop), skip, w);
    if !ok { return; }
    ok, w := ReadIf(r, Bit(flags, 25), 4, skip, w);                              if !ok { return; }
    ok, w := ReadIf(r, Bit(flags2, 30), 4, skip, w);                             if !ok { return; }
    ok, w := ReadIf(r, Bit(flags2, 2), 8, skip, w);                              if !ok { return; }
    ok, w := SkipIf(r, Bit(flags2, 3), Obj(FactCheck, Stop), skip, w);           if !ok { return; }
    NothingAhead(r.data, r.pos, w, skip);
  }

  // ---- agreement with the skipper ----

  /** `b` in place of the end of `a`. */
  function Append(a: Layout, b: Layout): Layout
    requires Straight(a)
  {
    match a
    case Stop => b
    case Word(n, next) => Word(n, Append(next, b))
    case Text(next) => Text(Append(next, b))
    case Obj(t, next) => Obj(t, Append(next, b))
    case Many(item, next) => Many(item, Append(next, b))
    case If(k, body, next) => If(k, body, Append(next, b))
    case If2(k, body, next) => If2(k, body, Append(next, b))
  }

  predicate StartsWithField(a: Layout) {
    a.Word? || a.Text? || a.Obj? || a.Many? || a.If? || a.If2?
  }

  /** Where the first field of a layout ends. */
  ghost function First(a: Layout, f: nat, g: nat, d: bytes, p: nat, sub: (Type, nat) -> Option<nat>): Option<nat>
    requires StartsWithField(a)
  {
    match a
    case Word(n, _) => FixedEnd(d, p, 4 * n)
    case Text(_) => StringEnd(d, p)
    case Obj(t, _) => sub(t, p)
    case Many(item, _) => VectorEnd(item, 0xFFFF_FFFF, f, g, d, p, sub)
    case If(k, body, _) => Optional(Bit(f, k), Run(body, f, g, d, p, sub), p)
    case If2(k, body, _) => Optional(Bit(g, k), Run(body, f, g, d, p, sub), p)
  }

  lemma RunFirst(a: Layout, f: nat, g: nat, d: bytes, p: nat, sub: (Type, nat) -> Option<nat>)
    requires StartsWithField(a)
    ensures Run(a, f, g, d, p, sub) ==
            match First(a, f, g, d, p, sub) case None => None case Some(q) => Run(a.next, f, g, d, q, sub)
  {
    hide FixedEnd, StringEnd, VectorEnd, Bit;
  }

  lemma AppendFirst(a: Layout, b: Layout, f: nat, g: nat, d: bytes, p: nat, sub: (Type, nat) -> Option<nat>)
    requires Straight(a) && a != Stop
    ensures var ab := Append(a, b);
            && StartsWithField(a) && StartsWithField(ab) && Straight(a.next) && ab.next == Append(a.next, b)
            && First(ab, f, g, d, p, sub) == First(a, f, g, d, p, sub)
  {
    hide FixedEnd, StringEnd, VectorEnd, Bit, Run;
  }

  lemma {:induction false} RunAppend(a: Layout, b: Layout, f: nat, g: nat, d: bytes, p: nat,
                                     sub: (Type, nat) -> Option<nat>)
    requires Straight(a)
    ensures Run(Append(a, b), f, g, d, p, sub) ==
            match Run(a, f, g, d, p, sub) case None => None case Some(q) => Run(b, f, g, d, q, sub)
    decreases a
  {
    hide First, Run;
    if a == Stop {
      RunStop(f, g, d, p, sub);
    } else {
      hide Append, Straight;
      AppendFirst(a, b, f, g, d, p, sub);
      RunFirst(a, f, g, d, p, sub);
      RunFirst(Append(a, b), f, g, d, p, sub);
      var q := First(a, f, g, d, p, sub);
      if q.Some? { RunAppend(a.next, b, f, g, d, q.value, sub); }
    }
  }

  lemma MessageLayouts()
    ensures Body(Message, MESSAGE_EMPTY) == Flags(Word(1, If(0, Obj(Peer, Stop), Stop)))
    ensures Body(Message, MESSAGE) == Flags(Flags2(Word(1, Append(Heading(), Word(1, Text(MessageTail()))))))
    ensures Body(Message, MESSAGE_SERVICE) == Flags(Word(1, Append(ServicePeers(), AfterPeers())))
    ensures forall c :: c != MESSAGE && c != MESSAGE_EMPTY && c != MESSAGE_SERVICE ==> Body(Message, c) == Reject
  {
    hide Body;
    forall c { TlSkip.MessageLayouts(c); }
  }

  /** A service message from the reply header on. */
  function AfterPeers(): Layout {
    If(3, Obj(ReplyHeader, Stop), Word(1, Obj(MessageAction, AfterAction())))
  }

  function AfterAction(): Layout {
    If(20, Obj(Reactions, Stop), If(25, Word(1, Stop), Stop))
  }

  lemma EmptyAgrees(d: bytes, p: nat)
    requires p + 4 <= |d|
    requires Run(Flags(Word(1, If(0, Obj(Peer, Stop), Stop))), 0, 0, d, p + 4, Below(d, p, 0)).Some?
    ensures var r := EmptyRow(d, p + 4);
            r.ok && Run(Flags(Word(1, If(0, Obj(Peer, Stop), Stop))), 0, 0, d, p + 4, Below(d, p, 0)) == Some(r.pos)
  {
    hide Below, Bit, Read32;
    assert p + 12 <= |d|;
    BelowIsSkip(Peer, d, p + 12, p, 0);
    PeerEnd(d, p + 12);
  }

  lemma PeerLayouts(c: nat)
    ensures Body(Peer, c) == PeerBody(c)
  {
  }

  lemma PeerEnd(d: bytes, p: nat)
    ensures Skip(Peer, d, p, 0).Some? ==> Skip(Peer, d, p, 0).value == p + 12 <= |d|
  {
    hide Body, Below, Word32;
    if p + 4 <= |d| { PeerLayouts(Word32(d, p)); }
  }

  /** Every field of the rest of the message, from the media on. */
  lemma TailAgrees(d: bytes, p0: nat, p: nat, e: Entry, f: uint32, g: uint32, skip: Skippers, media: nat -> MediaInfo)
    requires Conforms(skip, d, p0) && p0 < p && p0 < |d| && CursorOk(d, p0, p)
    requires Run(MessageTail(), f, g, d, p, Below(d, p0, 0)).Some?
    ensures var r := MediaRow(d, p, e, f, g, skip, media);
            r.ok && Run(MessageTail(), f, g, d, p, Below(d, p0, 0)) == Some(r.pos)
  {
    hide Below, Bit, Run, Conforms, CursorOk, Land, AfterMedia;
    var sub := Below(d, p0, 0);
    TailStraight();
    StepIf(MessageTail(), f, g, d, p, sub);
    var q := p;
    if Bit(f, 9) {
      SharedFollows(Obj(Media, Stop), Obj(Media, Stop), f, g, d, p0, p, skip);
      q := skip(Obj(Media, Stop), p).1;
      RunStop(f, g, d, q, sub);
    }
    LandFollows(AfterMedia(), f, g, d, p0, q, skip);
  }

  lemma TailStraight()
    ensures Straight(AfterMedia())
  {
    hide MessageEnding;
    assert Straight(MessageEnding()) by { EndingStraight(); }
  }

  lemma EndingStraight()
    ensures Straight(MessageEnding())
  {
  }

  lemma UserAgrees(d: bytes, p0: nat, p: nat, e: Entry, f: uint32, g: uint32, skip: Skippers, media: nat -> MediaInfo)
    requires Conforms(skip, d, p0) && p0 < p && p0 < |d| && CursorOk(d, p0, p)
    requires Run(Append(Heading(), Word(1, Text(MessageTail()))), f, g, d, p, Below(d, p0, 0)).Some?
    ensures var r := UserRow(d, p, e, f, g, skip, media);
            r.ok && Run(Append(Heading(), Word(1, Text(MessageTail()))), f, g, d, p, Below(d, p0, 0)) == Some(r.pos)
  {
    hide Below, Bit, Run, Conforms, CursorOk, Land, MediaRow, MessageTail, Heading, ReadString;
    var sub, rest := Below(d, p0, 0), Text(MessageTail());
    assert Straight(Heading()) by { HeadingStraight(); }
    RunAppend(Heading(), Word(1, rest), f, g, d, p, sub);
    LandFollows(Heading(), f, g, d, p0, p, skip);
    var q := Land(Heading(), f, g, d, p, skip).1;
    WordFollows(1, rest, f, g, d, p0, q);
    var q1 := After(d, q, 4);
    TextStep(MessageTail(), f, g, d, p0, q1, sub);
    ReadEnds(d, q1);
    var q2 := StringEnd(d, q1).value;
    TailAgrees(d, p0, q2, e.(date := Signed32(Read32(d, q))), f, g, skip, media);
    TailAgrees(d, p0, q2, SetText(e.(date := Signed32(Read32(d, q))), ReadString(d, q1).value.0), f, g, skip, media);
  }

  lemma HeadingStraight()
    ensures Straight(Heading())
  {
  }

  lemma TextStep(next: Layout, f: nat, g: nat, d: bytes, p0: nat, p: nat, sub: (Type, nat) -> Option<nat>)
    requires p0 < p && p0 < |d| && CursorOk(d, p0, p) && Run(Text(next), f, g, d, p, sub).Some?
    ensures var q := StringEnd(d, p);
            q.Some? && Run(Text(next), f, g, d, p, sub) == Run(next, f, g, d, q.value, sub) && CursorOk(d, p0, q.value)
                && p0 < q.value
  {
    StepCursor(d, p, 0);
    TlSkip.Onward(d, p0, p, StringEnd(d, p).value);
  }

  /** History reads a service message like the skipper up to the end of its action. */
  lemma ServiceAgrees(d: bytes, p0: nat, p: nat, e: Entry, f: uint32, skip: Skippers)
    requires Conforms(skip, d, p0) && p0 < p && p0 < |d| && CursorOk(d, p0, p)
    requires Run(Append(ServicePeers(), AfterPeers()), f, 0, d, p, Below(d, p0, 0)).Some?
    ensures var r := ServiceRow(d, p, e, f, skip);
            && r.ok
            && (Bit(f, 20) ==> r.pos < Run(Append(ServicePeers(), AfterPeers()), f, 0, d, p, Below(d, p0, 0)).value)
            && (!Bit(f, 20) ==> r.pos == Run(Append(ServicePeers(), AfterPeers()), f, 0, d, p, Below(d, p0, 0)).value)
  {
    hide Below, Bit, Run, Conforms, CursorOk, Land, ServicePeers, ServiceAction, Skip, Kept, Peeked;
    var sub := Below(d, p0, 0);
    assert Straight(ServicePeers()) by { PeersStraight(); }
    RunAppend(ServicePeers(), AfterPeers(), f, 0, d, p, sub);
    LandFollows(ServicePeers(), f, 0, d, p0, p, skip);
    var q := Land(ServicePeers(), f, 0, d, p, skip).1;
    StepIf(AfterPeers(), f, 0, d, q, sub);
    var q1 := q;
    if Bit(f, 3) {
      SharedFollows(Obj(ReplyHeader, Stop), Obj(ReplyHeader, Stop), f, 0, d, p0, q, skip);
      q1 := skip(Obj(ReplyHeader, Stop), q).1;
      RunStop(f, 0, d, q1, sub);
    }
    WordFollows(1, Obj(MessageAction, AfterAction()), f, 0, d, p0, q1);
    var q2 := After(d, q1, 4);
    StepObj(Obj(MessageAction, AfterAction()), f, 0, d, q2, sub);
    BelowIsSkip(MessageAction, d, q2, p0, 0);
    var e1 := if Bit(f, 3) then Peeked(d, q, e.(isService := true)) else e.(isService := true);
    ActionFollowsGrammar(d, p0, q2, e1.(date := Signed32(Read32(d, q1))), skip);
    var q3 := Skip(MessageAction, d, q2, 0).value;
    SkipCursor(MessageAction, d, q2, 0);
    TlSkip.Onward(d, p0, q2, q3);
    AfterActionAgrees(d, p0, q3, f);
  }

  lemma PeersStraight()
    ensures Straight(ServicePeers())
  {
  }

  /** What follows the action: the skipper also walks the reactions, which history leaves unread. */
  lemma AfterActionAgrees(d: bytes, p0: nat, p: nat, f: uint32)
    requires p0 < p && p0 < |d| && CursorOk(d, p0, p)
    requires Run(AfterAction(), f, 0, d, p, Below(d, p0, 0)).Some?
    ensures var end := Run(AfterAction(), f, 0, d, p, Below(d, p0, 0)).value;
            var pos := if Bit(f, 25) && !Short(d, p, 4) then After(d, p, 4) else p;
            if Bit(f, 20) then pos < end else pos == end
  {
    hide Below, Bit, Skip;
    BelowIsSkip(Reactions, d, p, p0, 0);
    SkipCursor(Reactions, d, p, 0);
    ReactionsInside(d, p);
  }

  lemma ReactionsInside(d: bytes, p: nat)
    ensures Skip(Reactions, d, p, 0).Some? ==> p + 8 <= |d|
  {
    hide Body, Below, Word32, Read32, VectorEnd, Bit;
    if p + 4 <= |d| { ReactionsLayouts(Word32(d, p)); }
  }

  lemma ReactionsLayouts(c: nat)
    ensures Body(Reactions, c).Flags? || Body(Reactions, c) == Reject
  {
  }

  lemma SkipStarts(d: bytes, p: nat)
    requires Skip(Message, d, p, 0).Some?
    ensures p + 4 <= |d| && Skip(Message, d, p, 0) == Run(Body(Message, Read32(d, p)), 0, 0, d, p + 4, Below(d, p, 0))
  {
    hide Body, Run, Below, Word32;
  }

  /** The fixed words at the front of a service message and of a message. */
  lemma FrontWords(next: Layout, d: bytes, p: nat, sub: (Type, nat) -> Option<nat>)
    requires p <= |d|
    ensures Run(Flags(Word(1, next)), 0, 0, d, p, sub).Some? ==>
              p + 8 <= |d| && Run(Flags(Word(1, next)), 0, 0, d, p, sub) == Run(next, Read32(d, p), 0, d, p + 8, sub)
    ensures Run(Flags(Flags2(Word(1, next))), 0, 0, d, p, sub).Some? ==>
              && p + 12 <= |d|
              && Run(Flags(Flags2(Word(1, next))), 0, 0, d, p, sub) ==
                  Run(next, Read32(d, p), Read32(d, p + 4), d, p + 12, sub)
  {
    hide Read32;
    if p + 4 <= |d| {
      assert Run(Flags(Word(1, next)), 0, 0, d, p, sub) == Run(Word(1, next), Read32(d, p), 0, d, p + 4, sub);
      assert Run(Flags2(Word(1, next)), Read32(d, p), 0, d, p + 4, sub) ==
             if p + 8 <= |d| then Run(Word(1, next), Read32(d, p), Read32(d, p + 4), d, p + 8, sub) else None;
    }
  }

  /** The three readers agree: where `tl_skip_message` accepts the bytes up to `q`, history and
      search succeed too, and they stop at `q` too unless it is a service message that announces
      reactions (flag 20), which they leave unread. */
  lemma ParsersAgree(d: bytes, p: nat, q: nat, skip: Skippers, media: nat -> MediaInfo)
    requires Conforms(skip, d, p) && Skip(Message, d, p, 0) == Some(q)
    ensures Row(d, p, skip, media).ok
    ensures Row(d, p, skip, media).pos == q <==> !(Read32(d, p) == MESSAGE_SERVICE && Bit(Read32(d, p + 4), 20))
  {
    hide Skip, Run, Body, Below, Bit, Conforms, Append, EmptyRow, UserRow, ServiceRow, Read32, Heading, MessageTail,
         ServicePeers, AfterPeers;
    SkipStarts(d, p);
    MessageLayouts();
    HeadingStraight();
    PeersStraight();
    var c := Read32(d, p);
    var sub := Below(d, p, 0);
    if c == MESSAGE_EMPTY {
      EmptyAgrees(d, p);
    } else if c == MESSAGE_SERVICE {
      FrontWords(Append(ServicePeers(), AfterPeers()), d, p + 4, sub);
      var f := Read32(d, p + 4);
      ServiceAgrees(d, p, p + 12, NO_ENTRY.(out := Bit(f, 1), id := Signed32(Read32(d, p + 8))), f, skip);
    } else if c == MESSAGE {
      FrontWords(Append(Heading(), Word(1, Text(MessageTail()))), d, p + 4, sub);
      var f, g := Read32(d, p + 4), Read32(d, p + 8);
      UserAgrees(d, p, p + 16, NO_ENTRY.(out := Bit(f, 1), id := Signed32(Read32(d, p + 12))), f, g, skip, media);
    } else {
      RunReject(d, p + 4, sub);
    }
  }

  lemma RunReject(d: bytes, p: nat, sub: (Type, nat) -> Option<nat>)
    ensures Run(Reject, 0, 0, d, p, sub) == None
  {
  }

  /** A service message with an empty action that announces reactions and has none. */
  function Reacted(id: uint32, peer: bytes, date: uint32): Value {
    VFlags(0x10_0000, VWord(Enc32(id), FromPeer(peer, date)))
  }

  function FromPeer(peer: bytes, date: uint32): Value {
    VAbsent(VObj(Peer, 0x59511722, VWord(peer, VStop), Acted(date)))
  }

  function Acted(date: uint32): Value {
    VAbsent(VWord(Enc32(date), VObj(MessageAction, 0xb6aef7b0, VStop, WithNoReactions())))
  }

  function WithNoReactions(): Value {
    VPresent(VObj(Reactions, 0x4f2b9479, VFlags(0, VMany(Nil, VAbsent(VAbsent(VStop)))), VStop), VAbsent(VStop))
  }

  lemma ShiftFive(f: nat, k: nat)
    ensures Bit(32 * f, k + 5) == Bit(f, k)
  {
    assert Bit(32 * f, k + 5) == Bit(16 * f, k + 4) == Bit(8 * f, k + 3) == Bit(4 * f, k + 2) == Bit(2 * f, k + 1);
  }

  lemma OnlyBit20()
    ensures Bit(0x10_0000, 20) && !Bit(0x10_0000, 8) && !Bit(0x10_0000, 3) && !Bit(0x10_0000, 25)
    ensures !Bit(0, 1) && !Bit(0, 2)
  {
    ShiftFive(0x8000, 15);
    ShiftFive(0x400, 10);
    ShiftFive(0x20, 5);
    ShiftFive(1, 0);
    ShiftFive(0x8000, 3);
    ShiftFive(0x8000, 20);
    ShiftFive(0x400, 15);
    ShiftFive(0x20, 10);
    ShiftFive(1, 5);
    assert !Bit(1, 5);
  }

  lemma NoReactionsTyped()
    ensures Typed(AfterAction(), 0x10_0000, 0, WithNoReactions())
  {
    hide Bit, Body;
    OnlyBit20();
    NoReactionsBody();
    var reactions := VFlags(0, VMany(Nil, VAbsent(VAbsent(VStop))));
    assert Typed(Obj(Reactions, Stop), 0x10_0000, 0, VObj(Reactions, 0x4f2b9479, reactions, VStop));
    assert Typed(If(25, Word(1, Stop), Stop), 0x10_0000, 0, VAbsent(VStop));
  }

  lemma NoReactionsBody()
    ensures Typed(Body(Reactions, 0x4f2b9479), 0, 0, VFlags(0, VMany(Nil, VAbsent(VAbsent(VStop)))))
  {
    hide Bit;
    OnlyBit20();
    assert Typed(If(2, Many(Obj(Reactor, Stop), Stop), Stop), 0, 0, VAbsent(VStop));
  }

  lemma ActedTyped(date: uint32)
    ensures Typed(AfterPeers(), 0x10_0000, 0, Acted(date))
  {
    hide Bit, WithNoReactions, Body, AfterAction, Enc32;
    OnlyBit20();
    NoReactionsTyped();
    PartLayouts();
    var action := VObj(MessageAction, 0xb6aef7b0, VStop, WithNoReactions());
    assert Typed(Stop, 0, 0, VStop);
    assert Typed(Obj(MessageAction, AfterAction()), 0x10_0000, 0, action);
    assert Typed(Word(1, Obj(MessageAction, AfterAction())), 0x10_0000, 0, VWord(Enc32(date), action));
  }

  lemma FromPeerTyped(peer: bytes, date: uint32)
    requires |peer| == 8
    ensures Typed(If(8, Obj(Peer, Stop), Obj(Peer, AfterPeers())), 0x10_0000, 0, FromPeer(peer, date))
  {
    hide Bit, Acted, Body, AfterPeers;
    OnlyBit20();
    ActedTyped(date);
    PartLayouts();
    assert Typed(Body(Peer, 0x59511722), 0, 0, VWord(peer, VStop));
  }

  lemma ServiceLayout()
    ensures Body(Message, MESSAGE_SERVICE) == Flags(Word(1, If(8, Obj(Peer, Stop), Obj(Peer, AfterPeers()))))
  {
  }

  lemma PartLayouts()
    ensures Body(MessageAction, 0xb6aef7b0) == Stop && Body(Peer, 0x59511722) == Word(2, Stop)
  {
  }

  lemma ReactedIsMessage(id: uint32, peer: bytes, date: uint32)
    requires |peer| == 8
    ensures IsObject(Message, MESSAGE_SERVICE, Reacted(id, peer, date))
  {
    hide Bit, FromPeer, Body, AfterPeers, Enc32;
    FromPeerTyped(peer, date);
    ServiceLayout();
    var front := If(8, Obj(Peer, Stop), Obj(Peer, AfterPeers()));
    assert Typed(Word(1, front), 0x10_0000, 0, VWord(Enc32(id), FromPeer(peer, date)));
    assert Typed(Flags(Word(1, front)), 0, 0, Reacted(id, peer, date));
  }

  lemma NoReactionsNesting()
    ensures Nesting(WithNoReactions()) == 0
  {
    var body := VFlags(0, VMany(Nil, VAbsent(VAbsent(VStop))));
    assert Nesting(body) == 0;
    assert Nesting(VObj(Reactions, 0x4f2b9479, body, VStop)) == 0;
  }

  lemma ActedNesting(date: uint32)
    ensures Nesting(Acted(date)) == 0
  {
    hide Enc32, WithNoReactions;
    NoReactionsNesting();
    assert Nesting(VStop) == 0;
    assert Nesting(VObj(MessageAction, 0xb6aef7b0, VStop, WithNoReactions())) == 0;
  }

  lemma ReactedNesting(id: uint32, peer: bytes, date: uint32)
    ensures Nesting(Reacted(id, peer, date)) == 0
  {
    hide Enc32, Acted;
    ActedNesting(date);
    var id8 := VWord(peer, VStop);
    assert Nesting(id8) == 0;
    assert Nesting(VObj(Peer, 0x59511722, id8, Acted(date))) == 0;
    assert Nesting(FromPeer(peer, date)) == 0;
  }

  /** Such messages exist, wherever they stand in a buffer: `tl_skip_message` accepts all of it, and
      history and search succeed and stop before its end. */
  lemma ReactionsLeftUnread(pre: bytes, id: uint32, peer: bytes, date: uint32, suf: bytes, skip: Skippers,
                            media: nat -> MediaInfo)
    requires |peer| == 8
    ensures var m := ObjectBytes(MESSAGE_SERVICE, Reacted(id, peer, date));
            var d := pre + m + suf;
            && Skip(Message, d, |pre|, 0) == Some(|pre| + |m|)
            && (Conforms(skip, d, |pre|) ==>
                  Row(d, |pre|, skip, media).ok && Row(d, |pre|, skip, media).pos != |pre| + |m|)
  {
    hide Skip, Conforms, Row, Reacted, ObjectBytes, IsObject, Bit, Read32;
    ReactedIsMessage(id, peer, date);
    ReactedNesting(id, peer, date);
    var m := ObjectBytes(MESSAGE_SERVICE, Reacted(id, peer, date));
    var d := pre + m + suf;
    SkipUndoesEncoding(Message, MESSAGE_SERVICE, Reacted(id, peer, date), pre, suf);
    ReactedFront(pre, id, peer, date, suf);
    OnlyBit20();
    if Conforms(skip, d, |pre|) { ParsersAgree(d, |pre|, |pre| + |m|, skip, media); }
  }

  lemma ReactedFront(pre: bytes, id: uint32, peer: bytes, date: uint32, suf: bytes)
    ensures var d := pre + ObjectBytes(MESSAGE_SERVICE, Reacted(id, peer, date)) + suf;
            Read32(d, |pre|) == MESSAGE_SERVICE && Read32(d, |pre| + 4) == 0x10_0000
  {
    hide Enc32, Word32, At;
    var v := Reacted(id, peer, date);
    var d := pre + ObjectBytes(MESSAGE_SERVICE, v) + suf;
    assert At(d, |pre|, Enc32(MESSAGE_SERVICE) + (Enc32(0x10_0000) + Encode(v.next))) by {
      StandsBetween(pre, ObjectBytes(MESSAGE_SERVICE, v), suf);
    }
    AtSplit(d, |pre|, Enc32(MESSAGE_SERVICE), Enc32(0x10_0000) + Encode(v.next));
    AtSplit(d, |pre| + 4, Enc32(0x10_0000), Encode(v.next));
    WordThere(d, |pre|, MESSAGE_SERVICE);
    WordThere(d, |pre| + 4, 0x10_0000);
  }

  lemma StandsBetween(pre: bytes, m: bytes, suf: bytes)
    ensures At(pre + m + suf, |pre|, m)
  {
  }
}
