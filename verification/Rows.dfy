/** What a sender puts into a message is in the row that history and search make of it. */
module Rows {
  import opened Bytes
  import opened Medias
  import opened Messages
  import opened ServiceRows
  import opened TlCodec
  import opened TlGrammar
  import opened TlTrees
  import opened Wires
  import WireMessages

  // ---- messages ----

  /** The fields of a message up to its text; peers and headers in their bytes. */
  datatype Mail = Mail(flags: uint32, flags2: uint32, id: uint32, from: bytes, peer: bytes, savedPeer: bytes,
                       fwd: bytes, viaBot: uint64, viaBusiness: uint64, replyTo: bytes, date: uint32, text: bytes)

  /** The fields between the id and the date. */
  function Head(m: Mail): Wire {
    Opt(On(m.flags, 8), O(Peer, m.from, End), O(Peer, m.peer, Opt(On(m.flags, 28), O(Peer, m.savedPeer, End),
      Opt(On(m.flags, 2), O(FwdHeader, m.fwd, End), Opt(On(m.flags, 11), L(m.viaBot, End),
      Opt(On(m.flags2, 0), L(m.viaBusiness, End), Opt(On(m.flags, 3), O(ReplyHeader, m.replyTo, End), End)))))))
  }

  /** The bytes of a message up to the end of its text. */
  function Front(m: Mail): bytes {
    Enc32(0x94345242) + (Enc32(m.flags) + (Enc32(m.flags2) + (Enc32(m.id) + (Spell(Head(m))
    + (Enc32(m.date) + EncString(m.text))))))
  }

  lemma HeadFits(m: Mail)
    ensures Fit(Heading(), m.flags, m.flags2, Head(m))
  {
    hide Fit, On;
    Rules(Message);
  }

  /** Reading the heading field by field ends where it ends. */
  lemma HeadingLands(h: Wire, f: nat, g: nat, d: bytes, p0: nat, p: nat, skip: Skippers)
    requires Fit(Heading(), f, g, h) && Good(h, 0) && At(d, p, Spell(h)) && p0 < p && p0 < |d| && CursorOk(d, p0, p)
    requires Conforms(skip, d, p0)
    ensures Land(Heading(), f, g, d, p, skip) == (true, p + |Spell(h)|)
  {
    hide Fit, Good, Spell, At, Run, Below, Conforms, Land, CursorOk, Heading;
    FitRuns(Heading(), f, g, h, d, p, p0, 0);
    HeadingStraight();
    LandFollows(Heading(), f, g, d, p0, p, skip);
  }

  lemma MediaRowShows(d: bytes, q: nat, e: Entry, f: uint32, g: uint32, skip: Skippers, media: nat -> MediaInfo)
    requires (e.media, e.mediaId, e.mediaDc) == (0, 0, 0)
    ensures var r, mi := MediaRow(d, q, e, f, g, skip, media).e, media(q);
            && r == e.(media := r.media, mediaId := r.mediaId, mediaDc := r.mediaDc, complex := r.complex)
            && r.media == (if On(f, 9) then mi.kind else 0)
            && (!On(f, 9) || !skip(Obj(Media, Stop), q).0 ==> r.mediaId == 0 && r.mediaDc == 0)
            && (On(f, 9) && skip(Obj(Media, Stop), q).0 ==>
                  && r.mediaDc == mi.dcId
                  && r.mediaId == if mi.kind == 3 then mi.photoId else if mi.kind == 4 then mi.documentId else 0)
  {
    hide Bit, Land;
  }

  /** The row of a message, whatever its fields are and whatever comes behind its text: id, direction,
      date, text up to its first NUL and 511 bytes, and what is reported of its media, which stand behind
      the text. */
  lemma MessageRow(d: bytes, p: nat, skip: Skippers, media: nat -> MediaInfo, m: Mail, more: bytes)
    requires Conforms(skip, d, p) && Good(Head(m), 0) && |m.text| < 0x100_0000 && At(d, p, Front(m) + more)
    ensures var r, q, c := Row(d, p, skip, media).e, p + |Front(m)|, CString(m.text);
            var mi := media(q);
            && r.id == Signed32(m.id) && r.out == On(m.flags, 1) && r.date == Signed32(m.date) && !r.isService
            && r.text == Words("%s", 0, if |c| < 512 then c else c[..511], "") && r.truncated == (|c| >= 512)
            && r.media == (if On(m.flags, 9) then mi.kind else 0)
            && (!On(m.flags, 9) || !skip(Obj(Media, Stop), q).0 ==> r.mediaId == 0 && r.mediaDc == 0)
            && (On(m.flags, 9) && skip(Obj(Media, Stop), q).0 ==>
                  && r.mediaDc == mi.dcId
                  && r.mediaId == if mi.kind == 3 then mi.photoId else if mi.kind == 4 then mi.documentId else 0)
  {
    hide At, Enc32, EncString, Spell, Conforms, Head, Land, Bit, CString, MediaRow, Heading, ReadString, Read32, After,
         ServiceRow, Fit, Good;
    var h := Head(m);
    var r3 := Enc32(m.date) + (EncString(m.text) + more);
    var r2 := Spell(h) + r3;
    assert Front(m) + more == Enc32(0x94345242) + (Enc32(m.flags) + (Enc32(m.flags2) + (Enc32(m.id) + r2)));
    WordHere(d, p, 0x94345242, Enc32(m.flags) + (Enc32(m.flags2) + (Enc32(m.id) + r2)));
    WordHere(d, p + 4, m.flags, Enc32(m.flags2) + (Enc32(m.id) + r2));
    WordHere(d, p + 8, m.flags2, Enc32(m.id) + r2);
    WordHere(d, p + 12, m.id, r2);
    StartsInside(d, p, 16, r2);
    AtSplit(d, p + 16, Spell(h), r3);
    HeadFits(m);
    HeadingLands(h, m.flags, m.flags2, d, p, p + 16, skip);
    var q := p + 16 + |Spell(h)|;
    WordHere(d, q, m.date, EncString(m.text) + more);
    NotShort(d, q, r3);
    StringHere(d, q + 4, m.text, more);
    var e := NO_ENTRY.(out := Bit(m.flags, 1), id := Signed32(m.id), date := Signed32(m.date));
    MediaRowShows(d, q + 4 + |EncString(m.text)|, SetText(e, m.text), m.flags, m.flags2, skip, media);
  }

  lemma StartsInside(d: bytes, p: nat, n: nat, rest: bytes)
    requires n % 4 == 0 && n > 0 && At(d, p + n, rest)
    ensures p < |d| && CursorOk(d, p, p + n) && p + n <= |d|
  {
  }

  lemma FrontLong(m: Mail)
    ensures |Front(m)| > 0
  {
  }

  lemma NotShort(d: bytes, q: nat, rest: bytes)
    requires At(d, q, rest) && |rest| >= 4
    ensures !Short(d, q, 4)
  {
  }

  /** A message with a photo behind its text: date, text, the photo's id and its data centre are in the
      row, whatever the fields behind the photo are. */
  lemma PhotoRow(d: bytes, p: nat, skip: Skippers, media: nat -> MediaInfo, m: Mail, flags: uint32, x: File,
                 sizes: Values, videos: Values, dc: uint32, rest: Value, more: bytes)
    requires Conforms(skip, d, p) && Good(Head(m), 0) && |m.text| < 0x100_0000 && On(m.flags, 9)
    requires IsObject(Media, MESSAGE_MEDIA_PHOTO,
                      FileMediaValue(flags, Photo, PHOTO, PhotoValue(x, sizes, videos, dc), rest))
    requires ObjectNesting(Media, FileMediaValue(flags, Photo, PHOTO, PhotoValue(x, sizes, videos, dc), rest)) <= 4
    requires At(d, p, Front(m) + (ObjectBytes(MESSAGE_MEDIA_PHOTO,
                FileMediaValue(flags, Photo, PHOTO, PhotoValue(x, sizes, videos, dc), rest)) + more))
    requires ReportsMedia(d, p + |Front(m)|, 0, media(p + |Front(m)|))
    ensures var r := Row(d, p, skip, media).e;
            && r.id == Signed32(m.id) && r.date == Signed32(m.date)
            && r.media == 3 && r.mediaId == Signed64(x.id) && r.mediaDc == Signed32(dc)
  {
    hide At, Conforms, Head, Good, IsObject, ObjectBytes, FileMediaValue, PhotoValue, ReportsMedia, Row, Nesting, Front;
    var v := FileMediaValue(flags, Photo, PHOTO, PhotoValue(x, sizes, videos, dc), rest);
    MessageRow(d, p, skip, media, m, ObjectBytes(MESSAGE_MEDIA_PHOTO, v) + more);
    AtSplit(d, p, Front(m), ObjectBytes(MESSAGE_MEDIA_PHOTO, v) + more);
    AtSplit(d, p + |Front(m)|, ObjectBytes(MESSAGE_MEDIA_PHOTO, v), more);
    FrontLong(m);
    MediaSkipped(MESSAGE_MEDIA_PHOTO, v, d, p, p + |Front(m)|, skip);
    PhotoMediaReported(flags, x, sizes, videos, dc, rest, d, p + |Front(m)|, 0, media(p + |Front(m)|));
  }

  /** The same for a document. */
  lemma DocumentRow(d: bytes, p: nat, skip: Skippers, media: nat -> MediaInfo, m: Mail, flags: uint32, x: File, y: Doc,
                    dc: uint32, rest: Value, more: bytes)
    requires Conforms(skip, d, p) && Good(Head(m), 0) && |m.text| < 0x100_0000 && On(m.flags, 9)
    requires IsObject(Media, MESSAGE_MEDIA_DOCUMENT,
                      FileMediaValue(flags, Document, DOCUMENT, DocumentValue(x, y, dc), rest))
    requires ObjectNesting(Media, FileMediaValue(flags, Document, DOCUMENT, DocumentValue(x, y, dc), rest)) <= 4
    requires At(d, p, Front(m) + (ObjectBytes(MESSAGE_MEDIA_DOCUMENT,
                FileMediaValue(flags, Document, DOCUMENT, DocumentValue(x, y, dc), rest)) + more))
    requires ReportsMedia(d, p + |Front(m)|, 0, media(p + |Front(m)|))
    ensures var r := Row(d, p, skip, media).e;
            && r.id == Signed32(m.id) && r.date == Signed32(m.date)
            && r.media == 4 && r.mediaId == Signed64(x.id) && r.mediaDc == Signed32(dc)
  {
    hide At, Conforms, Head, Good, IsObject, ObjectBytes, FileMediaValue, DocumentValue, ReportsMedia, Row, Nesting,
         Front;
    var v := FileMediaValue(flags, Document, DOCUMENT, DocumentValue(x, y, dc), rest);
    MessageRow(d, p, skip, media, m, ObjectBytes(MESSAGE_MEDIA_DOCUMENT, v) + more);
    AtSplit(d, p, Front(m), ObjectBytes(MESSAGE_MEDIA_DOCUMENT, v) + more);
    AtSplit(d, p + |Front(m)|, ObjectBytes(MESSAGE_MEDIA_DOCUMENT, v), more);
    FrontLong(m);
    MediaSkipped(MESSAGE_MEDIA_DOCUMENT, v, d, p, p + |Front(m)|, skip);
    DocumentMediaReported(flags, x, y, dc, rest, d, p + |Front(m)|, 0, media(p + |Front(m)|));
  }

  /** The shared skipper skips encoded media. */
  lemma MediaSkipped(c: uint32, v: Value, d: bytes, p0: nat, q: nat, skip: Skippers)
    requires IsObject(Media, c, v) && ObjectNesting(Media, v) <= 4 && At(d, q, ObjectBytes(c, v)) && p0 < q
    requires Conforms(skip, d, p0)
    ensures skip(Obj(Media, Stop), q).0
  {
    hide Skip, Below, Run, Typed, Body, Encode, Nesting, Enc32;
    SkipOfEncodedAt(Media, c, v, d, q, 0);
    assert Does(d, p0, Obj(Media, Stop), q, skip(Obj(Media, Stop), q).0, skip(Obj(Media, Stop), q).1);
    BelowIsSkip(Media, d, q, p0, 0);
    StepObj(Obj(Media, Stop), 0, 0, d, q, Below(d, p0, 0));
    RunStop(0, 0, d, q + |ObjectBytes(c, v)|, Below(d, p0, 0));
  }

  /** An empty message has its id and nothing else; a message of another constructor is refused. */
  lemma EmptyMessageRow(d: bytes, p: nat, skip: Skippers, media: nat -> MediaInfo, c: uint32, flags: uint32, id: uint32,
                        more: bytes)
    requires At(d, p, Enc32(c) + (Enc32(flags) + (Enc32(id) + more)))
    ensures c == 0x90a6ca84 ==>
              Row(d, p, skip, media).ok && Row(d, p, skip, media).e == NO_ENTRY.(id := Signed32(id))
    ensures c !in {0x90a6ca84, 0x2b085862, 0x94345242} ==>
              !Row(d, p, skip, media).ok && Row(d, p, skip, media).e == NO_ENTRY
  {
    hide At, Enc32, UserRow, ServiceRow, Bit, Read32;
    AtInside(d, p, Enc32(c) + (Enc32(flags) + (Enc32(id) + more)));
    WordHere(d, p, c, Enc32(flags) + (Enc32(id) + more));
    WordHere(d, p + 4, flags, Enc32(id) + more);
    WordHere(d, p + 8, id, more);
  }

  // ---- service messages ----

  /** The row of a service message: id, direction, date, and the text of its action, which starts right
      behind the date; an action without a text leaves the label of the pinned message. */
  lemma ServiceMessageRow(d: bytes, p: nat, skip: Skippers, media: nat -> MediaInfo, flags: uint32, id: uint32,
                          from: bytes, peer: bytes, reply: bytes, date: uint32, more: bytes)
    requires Conforms(skip, d, p)
    requires var h := Opt(On(flags, 8), O(Peer, from, End), O(Peer, peer, End));
             && Good(h, 0) && (On(flags, 3) ==> Accepted(ReplyHeader, reply, 0))
             && At(d, p, Enc32(0x2b085862) + (Enc32(flags) + (Enc32(id) + (Spell(h)
                         + ((if On(flags, 3) then reply else []) + (Enc32(date) + more))))))
    ensures var r := Row(d, p, skip, media).e;
            var h := Opt(On(flags, 8), O(Peer, from, End), O(Peer, peer, End));
            var q := p + 12 + |Spell(h)|;
            var pinned := if On(flags, 3) then Peeked(d, q, NO_ENTRY).text else BLANK_WORDS;
            var a := q + (if On(flags, 3) then |reply| else 0) + 4;
            var act := ServiceAction(d, a, NO_ENTRY.(text := pinned, isService := true, out := On(flags, 1),
                                     id := Signed32(id), date := Signed32(date)), skip).e;
            && r.id == Signed32(id) && r.out == On(flags, 1) && r.date == Signed32(date) && r.isService && !r.complex
            && r.text == if Blank(act.text) && !Blank(pinned) then pinned else act.text
  {
    hide At, Enc32, Spell, Conforms, Land, Bit, Peeked, Read32, After, ServiceAction, Fit, Good, UserRow, ServicePeers,
         Accepted, Blank;
    var h := Opt(On(flags, 8), O(Peer, from, End), O(Peer, peer, End));
    var r2 := Enc32(date) + more;
    var rep := if On(flags, 3) then reply else [];
    var r1 := rep + r2;
    var r0 := Spell(h) + r1;
    WordHere(d, p, 0x2b085862, Enc32(flags) + (Enc32(id) + r0));
    WordHere(d, p + 4, flags, Enc32(id) + r0);
    WordHere(d, p + 8, id, r0);
    StartsInside(d, p, 12, r0);
    AtSplit(d, p + 12, Spell(h), r1);
    PeersLand(h, flags, from, peer, d, p, p + 12, skip);
    var q := p + 12 + |Spell(h)|;
    AtSplit(d, q, rep, r2);
    if On(flags, 3) { ReplyLands(reply, d, p, q, skip); }
    WordHere(d, q + |rep|, date, more);
    NotShort(d, q + |rep|, r2);
    PeekedKeeps(d, q, NO_ENTRY.(out := Bit(flags, 1), id := Signed32(id), isService := true));
    var e := NO_ENTRY.(out := Bit(flags, 1), id := Signed32(id), isService := true);
    var e1 := if Bit(flags, 3) then Peeked(d, q, e) else e;
  }

  /** Whatever goes wrong later, the row of a service message has its id and direction and is marked as one;
      a row marked complex was not read to its end. */
  lemma ServiceIdentity(d: bytes, p: nat, skip: Skippers, media: nat -> MediaInfo, flags: uint32, id: uint32,
                        more: bytes)
    requires At(d, p, Enc32(0x2b085862) + (Enc32(flags) + (Enc32(id) + more)))
    ensures var r := Row(d, p, skip, media);
            && r.e.id == Signed32(id) && r.e.out == On(flags, 1) && r.e.isService
            && (r.e.complex ==> !r.ok)
  {
    hide At, Enc32, UserRow, Land, Bit, Read32, ServiceAction, Short, Blank, ServicePeers;
    AtInside(d, p, Enc32(0x2b085862) + (Enc32(flags) + (Enc32(id) + more)));
    WordHere(d, p, 0x2b085862, Enc32(flags) + (Enc32(id) + more));
    WordHere(d, p + 4, flags, Enc32(id) + more);
    WordHere(d, p + 8, id, more);
  }

  lemma PeersLand(h: Wire, flags: uint32, from: bytes, peer: bytes, d: bytes, p0: nat, p: nat, skip: Skippers)
    requires h == Opt(On(flags, 8), O(Peer, from, End), O(Peer, peer, End)) && Good(h, 0) && At(d, p, Spell(h))
    requires p0 < p && p0 < |d| && CursorOk(d, p0, p) && Conforms(skip, d, p0)
    ensures Land(ServicePeers(), flags, 0, d, p, skip) == (true, p + |Spell(h)|) && CursorOk(d, p0, p + |Spell(h)|)
  {
    hide Good, Spell, At, Run, Below, Conforms, Land, CursorOk, Fit, On;
    Rules(MessageAction);
    assert Fit(ServicePeers(), flags, 0, h);
    FitRuns(ServicePeers(), flags, 0, h, d, p, p0, 0);
    LandFollows(ServicePeers(), flags, 0, d, p0, p, skip);
  }

  lemma ReplyLands(reply: bytes, d: bytes, p0: nat, q: nat, skip: Skippers)
    requires Accepted(ReplyHeader, reply, 0) && At(d, q, reply) && p0 < q && p0 < |d| && CursorOk(d, p0, q)
    requires Conforms(skip, d, p0)
    ensures skip(Obj(ReplyHeader, Stop), q) == (true, q + |reply|)
  {
    hide Accepted, At, Run, Below, Conforms, CursorOk;
    var sub := Below(d, p0, 0);
    ObjectThere(ReplyHeader, reply, d, q, p0, 0);
    SharedFollows(Obj(ReplyHeader, Stop), Obj(ReplyHeader, Stop), 0, 0, d, p0, q, skip);
    StepObj(Obj(ReplyHeader, Stop), 0, 0, d, q, sub);
    RunStop(0, 0, d, q + |reply|, sub);
    RunStop(0, 0, d, skip(Obj(ReplyHeader, Stop), q).1, sub);
  }

  lemma PeekedKeeps(d: bytes, q: nat, e: Entry)
    requires e.text == BLANK_WORDS
    ensures Peeked(d, q, e) == e.(text := Peeked(d, q, NO_ENTRY).text)
  {
  }

  /** The label: the id of the message a reply header points to. */
  lemma PinnedLabel(d: bytes, q: nat, c: uint32, flags: uint32, id: uint32, more: bytes)
    requires At(d, q, Enc32(c) + (Enc32(flags) + (Enc32(id) + more)))
    ensures Peeked(d, q, NO_ENTRY).text ==
            if c == 0xafbc09db && On(flags, 4) then Words("pinned message %d", Signed32(id), [], "") else BLANK_WORDS
  {
    hide At, Enc32, Word32, Bit;
    WordHere(d, q, c, Enc32(flags) + (Enc32(id) + more));
    WordHere(d, q + 4, flags, Enc32(id) + more);
    WordHere(d, q + 8, id, more);
    AtInside(d, q + 12, more);
  }

  // ---- the texts of actions ----

  /** Actions without fields, and those the client does not know. */
  lemma PlainTexts(d: bytes, p: nat, e: Entry, skip: Skippers, c: uint32)
    requires At(d, p, Enc32(c)) && e.text == BLANK_WORDS
    ensures var r := ServiceAction(d, p, e, skip).e.text;
            && (c == 0xb6aef7b0 ==> r == BLANK_WORDS)
            && (c == 0x95e3fbef ==> r == Words("removed group photo", 0, [], ""))
            && (c == 0x94bd38ed ==> r == Words("pinned message", 0, [], ""))
            && (c == 0x9fbab604 ==> r == Words("history cleared", 0, [], ""))
            && (c == 0x4792929b ==> r == Words("took screenshot", 0, [], ""))
            && (c !in {0xb6aef7b0, 0x95e3fbef, 0x94bd38ed, 0x9fbab604, 0x4792929b, 0xb5a1ce5a, 0x95d2ac92, 0xfae69f56,
                       0xea3948e9, 0xa43f30cc, 0xe1037f92, 0x031224c3, 0xbd47cbad, 0x15cefd00, 0x7fcb13a8, 0x80e11a7f,
                       0x7a0d7f42, 0xb3a07661, 0x502f92f7} ==>
                  r == Words("[service action 0x%08x]", c, [], ""))
  {
    hide At, Enc32, Read32, LongAction, TitleAction;
    ActionHere(d, p, c, []);
  }

  lemma StringHere(d: bytes, p: nat, s: bytes, more: bytes)
    requires |s| < 0x100_0000 && At(d, p, EncString(s) + more)
    ensures ReadString(d, p) == Some((s, p + |EncString(s)|)) && At(d, p + |EncString(s)|, more)
  {
    hide EncString, ReadString;
    AtSplit(d, p, EncString(s), more);
    StringRoundTrip(s, d, p);
  }

  lemma ActionHere(d: bytes, p: nat, c: uint32, more: bytes)
    requires At(d, p, Enc32(c)) || At(d, p, Enc32(c) + more)
    ensures Read32(d, p) == c && After(d, p, 4) == p + 4 && !Short(d, p, 4)
    ensures At(d, p, Enc32(c) + more) ==> At(d, p + 4, more)
  {
    hide Enc32, Read32;
    if At(d, p, Enc32(c) + more) {
      WordHere(d, p, c, more);
    } else {
      assert Enc32(c) + [] == Enc32(c);
      WordHere(d, p, c, []);
    }
  }

  /** Actions with a title, cut at its first NUL. */
  lemma TitleTexts(d: bytes, p: nat, e: Entry, skip: Skippers, c: uint32, title: bytes, more: bytes)
    requires |title| < 0x100_0000 && At(d, p, Enc32(c) + (EncString(title) + more))
    ensures var r, t := ServiceAction(d, p, e, skip).e.text, CString(title);
            && (c == 0xb5a1ce5a ==> r == Words("changed title to '%s'", 0, t, ""))
            && (c == 0x95d2ac92 ==> r == Words("created channel '%s'", 0, t, ""))
            && (c == 0xfae69f56 ==> r == Words("%s", 0, if |t| < 512 then t else t[..511], ""))
  {
    hide At, Enc32, EncString, Read32, LongAction, CString, ReadString;
    ActionHere(d, p, c, EncString(title) + more);
    StringHere(d, p + 4, title, more);
  }

  /** Actions with an id. */
  lemma IdTexts(d: bytes, p: nat, e: Entry, skip: Skippers, c: uint32, id: uint64)
    requires At(d, p, Enc32(c) + Enc64(id))
    ensures var r := ServiceAction(d, p, e, skip).e.text;
            && (c == 0xa43f30cc ==> r == Words("removed @%lld", Signed64(id), [], ""))
            && (c == 0xe1037f92 ==> r == Words("migrated to channel %lld", Signed64(id), [], ""))
            && (c == 0x031224c3 ==> r == Words("joined via invite link", 0, [], ""))
  {
    hide At, Enc32, Enc64, Read32, Read64, LongAction, TitleAction;
    ActionHere(d, p, c, Enc64(id));
    IdHere(d, p + 4, id);
  }

  /** The action with a title and an id. */
  lemma MigratedText(d: bytes, p: nat, e: Entry, skip: Skippers, title: bytes, id: uint64)
    requires |title| < 0x100_0000 && At(d, p, Enc32(0xea3948e9)) && At(d, p + 4, EncString(title))
    requires At(d, p + 4 + |EncString(title)|, Enc64(id))
    ensures ServiceAction(d, p, e, skip).e.text ==
            Words("migrated from group %lld '%s'", Signed64(id), CString(title), "")
  {
    hide At, Enc32, Enc64, EncString, Read32, Read64, ReadString, CString, Short, ServiceAction, TitleAction, Signed64;
    ActionHere(d, p, 0xea3948e9, []);
    MigratedIsTitle(d, p, e, skip);
    StringRoundTrip(title, d, p + 4);
    IdHere(d, p + 4 + |EncString(title)|, id);
    Migrated(d, p + 4, e.(isService := true), title, p + 4 + |EncString(title)|, id);
  }

  lemma MigratedIsTitle(d: bytes, p: nat, e: Entry, skip: Skippers)
    requires !Short(d, p, 4) && Read32(d, p) == 0xea3948e9
    ensures ServiceAction(d, p, e, skip) == TitleAction(0xea3948e9, d, After(d, p, 4), e.(isService := true))
  {
    hide TitleAction, LongAction, Read32, After, Short;
  }

  lemma Migrated(d: bytes, q: nat, e: Entry, title: bytes, q1: nat, id: uint64)
    requires ReadString(d, q) == Some((title, q1)) && !Short(d, q1, 8) && Read64(d, q1) == id
    ensures TitleAction(0xea3948e9, d, q, e).e.text ==
            Words("migrated from group %lld '%s'", Signed64(id), CString(title), "")
  {
    hide Read64, CString, ReadString, Short, Signed64;
  }

  lemma IdHere(d: bytes, p: nat, x: uint64)
    requires At(d, p, Enc64(x))
    ensures Read64(d, p) == x && !Short(d, p, 8)
  {
    hide Enc64;
    AtInside(d, p, Enc64(x));
    Word64OfEnc64(x, d, p);
  }

  /** Actions that list users or carry a photo, where the skipper accepts them. */
  lemma ListTexts(d: bytes, p0: nat, p: nat, e: Entry, skip: Skippers, c: uint32, title: bytes, n: uint32, user: uint64,
                  more: bytes)
    requires Conforms(skip, d, p0) && p0 < p && Skip(MessageAction, d, p, 0).Some? && |title| < 0x100_0000
    requires c == 0xbd47cbad ==> At(d, p, Enc32(c) + (EncString(title) + more))
    requires c == 0x15cefd00 ==> At(d, p, Enc32(c) + (Enc32(VECTOR) + (Enc32(n) + (Enc64(user) + more)))) && n > 0
    requires At(d, p, Enc32(c))
    ensures var r := ServiceAction(d, p, e, skip).e.text;
            && (c == 0xbd47cbad ==> r == Words("created group '%s'", 0, CString(title), ""))
            && (c == 0x15cefd00 ==> r == Words("added @%lld", Signed64(user), [], ""))
            && (c == 0x7fcb13a8 ==> r == Words("changed group photo", 0, [], ""))
            && (c == 0x7a0d7f42 ==> r == Words("started video chat", 0, [], ""))
            && (c == 0x502f92f7 ==> r == Words("invited to video chat", 0, [], ""))
  {
    hide At, Enc32, Enc64, EncString, Read32, Read64, CString, ReadString, Skip, Conforms, PlainAction, Longs, Bit;
    ActionFollowsGrammar(d, p0, p, e, skip);
    ActionHere(d, p, c, more);
    if c == 0xbd47cbad {
      ActionHere(d, p, c, EncString(title) + more);
      StringHere(d, p + 4, title, more);
    } else if c == 0x15cefd00 {
      ActionHere(d, p, c, Enc32(VECTOR) + (Enc32(n) + (Enc64(user) + more)));
      FirstUser(d, p + 4, n, user, more);
    }
  }

  lemma FirstUser(d: bytes, p: nat, n: uint32, user: uint64, more: bytes)
    requires At(d, p, Enc32(VECTOR) + (Enc32(n) + (Enc64(user) + more))) && n > 0
    ensures Longs(d, p).0 ==> Longs(d, p).2 == Signed64(user)
  {
    hide At, Enc32, Enc64, Read32, Read64;
    WordHere(d, p, VECTOR, Enc32(n) + (Enc64(user) + more));
    WordHere(d, p + 4, n, Enc64(user) + more);
    AtSplit(d, p + 8, Enc64(user), more);
    IdHere(d, p + 8, user);
    AtInside(d, p + 8, Enc64(user));
  }

  /** A call: its length and how it ended. */
  lemma CallText(d: bytes, p: nat, e: Entry, skip: Skippers, flags: uint32, id: uint64, reason: uint32,
                 duration: uint32)
    requires At(d, p, Enc32(0x80e11a7f) + (Enc32(flags) + (Enc64(id)
                + ((if On(flags, 0) then Enc32(reason) else []) + (if On(flags, 1) then Enc32(duration) else [])))))
    ensures ServiceAction(d, p, e, skip).e.text ==
            Words("called (duration %ds, %s)", if On(flags, 1) then Signed32(duration) else 0, [],
                  if !On(flags, 0) then "completed" else if reason == 0x85e42301 then "missed"
                  else if reason == 0xe095c1a0 then "disconnected" else if reason == 0x57adc690 then "hangup"
                  else if reason == 0xfaf7e8c9 then "busy" else "completed")
  {
    hide At, Enc32, Enc64, Read32, Bit;
    var r2 := if On(flags, 1) then Enc32(duration) else [];
    var r1 := if On(flags, 0) then Enc32(reason) else [];
    ActionHere(d, p, 0x80e11a7f, Enc32(flags) + (Enc64(id) + (r1 + r2)));
    ActionHere(d, p + 4, flags, Enc64(id) + (r1 + r2));
    AtSplit(d, p + 8, Enc64(id), r1 + r2);
    AtInside(d, p + 8, Enc64(id));
    AtSplit(d, p + 16, r1, r2);
    if On(flags, 0) { ActionHere(d, p + 16, reason, []); }
    if On(flags, 1) { ActionHere(d, p + 16 + |r1|, duration, []); }
  }

  /** A scheduled video chat: the date stands behind the call. */
  lemma ScheduledText(d: bytes, p: nat, e: Entry, skip: Skippers, call: uint32, id: uint64, hash: uint64, date: uint32)
    requires At(d, p, Enc32(0xb3a07661) + (Enc32(call) + (Enc64(id) + (Enc64(hash) + Enc32(date)))))
    ensures ServiceAction(d, p, e, skip).e.text == Words("scheduled video chat for %d", Signed32(date), [], "")
  {
    hide At, Enc32, Enc64, Read32;
    ActionHere(d, p, 0xb3a07661, Enc32(call) + (Enc64(id) + (Enc64(hash) + Enc32(date))));
    AtSplit(d, p + 4, Enc32(call), Enc64(id) + (Enc64(hash) + Enc32(date)));
    AtSplit(d, p + 8, Enc64(id), Enc64(hash) + Enc32(date));
    AtSplit(d, p + 16, Enc64(hash), Enc32(date));
    ActionHere(d, p + 24, date, []);
    AtInside(d, p + 24, Enc32(date));
  }

  /** Actions that list more than 4096 users are refused. */
  lemma TooManyUsers(d: bytes, p: nat, k: nat, c: uint32, front: bytes, title: bytes, n: uint32)
    requires (c == 0x15cefd00 && front == []) || (c == 0x502f92f7 && |front| == 20)
             || (c == 0xbd47cbad && front == EncString(title) && |title| < 0x100_0000)
    requires n > 4096 && At(d, p, Enc32(c) + (front + (Enc32(0x1cb5c415) + Enc32(n))))
    ensures Skip(MessageAction, d, p, k) == None
  {
    hide At, Enc32, EncString, Below, Run, VectorCount, Body, MessageActionBody, Word32;
    var q, many := p + 4 + |front|, ManyMax(4096, Word(2, Stop), Stop);
    AtSplit(d, p, Enc32(c), front + (Enc32(0x1cb5c415) + Enc32(n)));
    AtSplit(d, p + 4, front, Enc32(0x1cb5c415) + Enc32(n));
    CtorReadBack(c, d, p);
    VectorReadBack(n, d, q);
    var sub := Below(d, p, k);
    StepMany(many, 0, 0, d, q, sub);
    WireMessages.MessageActionBodies();
    if c == 0xbd47cbad { StringThere(d, p + 4, title); }
    AtInside(d, p + 4, front);
    UserLists(c, d, p + 4, q, sub);
  }

  lemma UserLists(c: uint32, d: bytes, p: nat, q: nat, sub: (Type, nat) -> Option<nat>)
    requires (c == 0x15cefd00 && q == p) || (c == 0x502f92f7 && q == p + 20 && q <= |d|)
             || (c == 0xbd47cbad && StringEnd(d, p) == Some(q))
    ensures Run(MessageActionBody(c), 0, 0, d, p, sub) == Run(ManyMax(4096, Word(2, Stop), Stop), 0, 0, d, q, sub)
  {
    hide StringEnd, VectorEnd;
  }
}
