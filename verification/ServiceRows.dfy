/** How history turns a service message into a row (`parse_service_action` and
    `domain_history_parse_service` of `src/domain/read/history.c`), shared with search. */
module ServiceRows {
  import opened Bytes
  import opened TlCodec
  import opened TlGrammar
  import TlSkip
  import opened TlTrees

  /** A rendered text: the format handed to `snprintf` and its arguments. A buffer of 512 bytes
      keeps the first 511 bytes of the rendering. */
  datatype Words = Words(format: string, number: int, name: bytes, note: string)

  const BLANK_WORDS := Words("", 0, [], "")

  function Say(format: string): Words { Words(format, 0, [], "") }

  /** `text[0] == 0` */
  predicate Blank(w: Words) {
    w.format == "" || (w.format == "%s" && w.name == [])
  }

  datatype Entry = Entry(id: int, date: int, out: bool, text: Words, truncated: bool, complex: bool, isService: bool,
                         media: nat, mediaId: int, mediaDc: int)

  const NO_ENTRY := Entry(0, 0, false, BLANK_WORDS, false, false, false, 0, 0, 0)

  /** Return code, cursor and row of a parser. */
  datatype Parsed = Parsed(ok: bool, pos: nat, e: Entry)

  /** What the shared skippers do at a cursor: success, and where they leave it. */
  type Skippers = (Layout, nat) -> (bool, nat)

  /** What `TlSkip` proves of every skipper: started at `p` for the fields `lay`, inside the
      object that begins at `p0`, it returns `ok` and leaves the cursor at `q`. */
  ghost predicate Does(d: bytes, p0: nat, lay: Layout, p: nat, ok: bool, q: nat)
    requires p0 <= |d|
  {
    TlSkip.Outcome(d, p, ok, q, Run(lay, 0, 0, d, p, Below(d, p0, 0)))
  }

  /** Inside the object that begins at `p0` the skippers do what the grammar says; where they
      fail, they leave the cursor anywhere in bounds. */
  ghost predicate Conforms(skip: Skippers, d: bytes, p0: nat) {
    p0 <= |d| && forall lay, p: nat :: p0 < p < |d| + 4 ==> Does(d, p0, lay, p, skip(lay, p).0, skip(lay, p).1)
  }

  /** What `TlSkip.SkipObject` proves of an object is what is asked of a shared skipper for it. */
  lemma SkipObjectConforms(t: Type, d: bytes, p0: nat, p: nat, ok: bool, q: nat)
    requires p0 < p && p0 <= |d| && TlSkip.Outcome(d, p, ok, q, Skip(t, d, p, 0))
    ensures Does(d, p0, Obj(t, Stop), p, ok, q)
  {
    hide Skip, Below;
    BelowIsSkip(t, d, p, p0, 0);
    StepObj(Obj(t, Stop), 0, 0, d, p, Below(d, p0, 0));
  }

  /** There are such skippers: what `TlSkip` proves can be met on every buffer. */
  lemma SkippersExist(d: bytes, p0: nat)
    requires p0 <= |d|
    ensures Conforms(Reference(d, p0), d, p0)
  {
    hide Run, Below, CursorOk;
    forall lay, p: nat | p0 < p < |d| + 4
      ensures Does(d, p0, lay, p, Reference(d, p0)(lay, p).0, Reference(d, p0)(lay, p).1)
    {
      BelowOk(d, p0);
      RunCursor(lay, 0, 0, d, p, Below(d, p0, 0));
      StayPut(d, p);
    }
  }

  ghost function Reference(d: bytes, p0: nat): Skippers
    requires p0 <= |d|
  {
    (lay: Layout, p: nat) =>
      match Run(lay, 0, 0, d, p, Below(d, p0, 0))
      case None => (false, if p <= |d| then p else |d|)
      case Some(q) => (true, q)
  }

  lemma BelowOk(d: bytes, p0: nat)
    requires p0 <= |d|
    ensures SubOk(d, Below(d, p0, 0))
  {
    hide Skip, CursorOk;
    forall t, q: nat
      ensures Below(d, p0, 0)(t, q).Some? ==> CursorOk(d, q, Below(d, p0, 0)(t, q).value)
    {
      SkipCursor(t, d, q, 0);
    }
  }

  lemma StayPut(d: bytes, p: nat)
    requires p < |d| + 4
    ensures CursorOk(d, p, if p <= |d| then p else |d|)
  {
  }

  /** `r->len - r->pos < n` in unsigned arithmetic: false on an overshot cursor. */
  predicate Short(d: bytes, p: nat, n: nat) {
    p <= |d| && |d| - p < n
  }

  /** A C string ends at the first NUL. */
  function CString(s: bytes): bytes {
    if s == [] || s[0] == 0 then [] else [s[0]] + CString(s[1..])
  }

  /** It is the longest start of the bytes without a NUL. */
  lemma {:induction false} CStringIsLongest(s: bytes)
    ensures CString(s) <= s && 0 !in CString(s) && (|CString(s)| < |s| ==> s[|CString(s)|] == 0)
  {
    if s != [] && s[0] != 0 { CStringIsLongest(s[1..]); }
  }

  const TEXT_MAX := 512

  /** `set_text` of a byte string. */
  function SetText(e: Entry, s: bytes): Entry {
    var c := CString(s);
    if |c| >= TEXT_MAX then e.(text := Words("%s", 0, c[..TEXT_MAX - 1], ""), truncated := true)
    else e.(text := Words("%s", 0, c, ""))
  }

  /** The long-vector helpers: success, cursor, first element. */
  function Longs(d: bytes, p: nat): (bool, nat, int) {
    if Short(d, p, 8) then (false, p, 0)
    else if Read32(d, p) != VECTOR then (false, After(d, p, 4), 0)
    else
      var n, q := Read32(d, p + 4), After(d, p, 8);
      if n > 4096 || Short(d, q, 8 * n) then (false, q, 0)
      else (true, q + 8 * n, if n > 0 then Signed64(Read64(d, q)) else 0)
  }

  // ---- actions ----

  /** Two rows with the same heading. */
  predicate SameHeading(e: Entry, r: Entry) {
    r.id == e.id && r.out == e.out && r.date == e.date && r.isService == e.isService && r.complex == e.complex
  }

  /** Actions with no payload, with a title, with an id, or with both. */
  function PlainAction(c: uint32, d: bytes, q: nat, e: Entry): (r: Parsed)
    ensures SameHeading(e, r.e)
  {
    if c == 0xb6aef7b0 then Parsed(true, q, e.(text := BLANK_WORDS))
    else if c == 0x95e3fbef then Parsed(true, q, e.(text := Say("removed group photo")))
    else if c == 0x94bd38ed then Parsed(true, q, if Blank(e.text) then e.(text := Say("pinned message")) else e)
    else if c == 0x9fbab604 then Parsed(true, q, e.(text := Say("history cleared")))
    else if c == 0x4792929b then Parsed(true, q, e.(text := Say("took screenshot")))
    else if c == 0xb5a1ce5a || c == 0x95d2ac92 || c == 0xfae69f56 || c == 0xea3948e9 then TitleAction(c, d, q, e)
    else if c == 0xa43f30cc || c == 0xe1037f92 || c == 0x031224c3 then
      (if Short(d, q, 8) then Parsed(false, q, e)
       else
         var id := Signed64(Read64(d, q));
         Parsed(true, After(d, q, 8), e.(text :=
           if c == 0xa43f30cc then Words("removed @%lld", id, [], "")
           else if c == 0xe1037f92 then Words("migrated to channel %lld", id, [], "")
           else Say("joined via invite link"))))
    else Parsed(true, q, e.(text := Words("[service action 0x%08x]", c, [], "")))
  }

  function TitleAction(c: uint32, d: bytes, q: nat, e: Entry): (r: Parsed)
    ensures SameHeading(e, r.e)
  {
    match ReadString(d, q)
    case None => Parsed(false, |d|, e)
    case Some((s, q1)) =>
      if c == 0xb5a1ce5a then Parsed(true, q1, e.(text := Words("changed title to '%s'", 0, CString(s), "")))
      else if c == 0x95d2ac92 then Parsed(true, q1, e.(text := Words("created channel '%s'", 0, CString(s), "")))
      else if c == 0xfae69f56 then Parsed(true, q1, SetText(e, s))
      else if Short(d, q1, 8) then Parsed(false, q1, e)
      else
        var id := Signed64(Read64(d, q1));
        Parsed(true, After(d, q1, 8), e.(text := Words("migrated from group %lld '%s'", id, CString(s), "")))
  }

  predicate HasList(c: uint32) {
    c == 0xbd47cbad || c == 0x15cefd00 || c == 0x7fcb13a8 || c == 0x80e11a7f || c == 0x7a0d7f42 || c == 0xb3a07661
    || c == 0x502f92f7
  }

  /** Actions with user lists, photos or calls. */
  function LongAction(c: uint32, d: bytes, q: nat, e: Entry, skip: Skippers): (r: Parsed)
    requires HasList(c)
    ensures SameHeading(e, r.e)
  {
    if c == 0xbd47cbad then
      (match ReadString(d, q)
       case None => Parsed(false, |d|, e)
       case Some((s, q1)) =>
         var (ok, q2, _) := Longs(d, q1);
         Parsed(ok, q2, if ok then e.(text := Words("created group '%s'", 0, CString(s), "")) else e))
    else if c == 0x15cefd00 then
      var (ok, q2, first) := Longs(d, q);
      Parsed(ok, q2, if ok then e.(text := Words("added @%lld", first, [], "")) else e)
    else if c == 0x7fcb13a8 then
      var (ok, q2) := skip(Obj(Photo, Stop), q);
      Parsed(ok, q2, e.(text := Say("changed group photo")))
    else CallAction(c, d, q, e)
  }

  function DiscardReason(c: uint32): string {
    if c == 0x85e42301 then "missed" else if c == 0xe095c1a0 then "disconnected"
    else if c == 0x57adc690 then "hangup" else if c == 0xfaf7e8c9 then "busy" else "completed"
  }

  function CallAction(c: uint32, d: bytes, q: nat, e: Entry): (r: Parsed)
    ensures SameHeading(e, r.e)
  {
    if c == 0x80e11a7f then
      if Short(d, q, 12) then Parsed(false, q, e)
      else
        var f, q1 := Read32(d, q), After(d, After(d, q, 4), 8);
        if Bit(f, 0) && Short(d, q1, 4) then Parsed(false, q1, e)
        else
          var reason := if Bit(f, 0) then DiscardReason(Read32(d, q1)) else "completed";
          var q2 := if Bit(f, 0) then After(d, q1, 4) else q1;
          if Bit(f, 1) && Short(d, q2, 4) then Parsed(false, q2, e)
          else
            var duration := if Bit(f, 1) then Signed32(Read32(d, q2)) else 0;
            var q3 := if Bit(f, 1) then After(d, q2, 4) else q2;
            Parsed(true, q3, e.(text := Words("called (duration %ds, %s)", duration, [], reason)))
    else if c == 0x7a0d7f42 then
      if Short(d, q, 4) then Parsed(false, q, e)
      else
        var f, q1 := Read32(d, q), After(d, q, 4);
        if Short(d, q1, 20) then Parsed(false, q1, e)
        else
          var q2 := After(d, q1, 20);
          if Bit(f, 0) && Short(d, q2, 4) then Parsed(false, q2, e)
          else Parsed(true, if Bit(f, 0) then After(d, q2, 4) else q2, e.(text := Say("started video chat")))
    else if c == 0xb3a07661 then
      if Short(d, q, 24) then Parsed(false, q, e)
      else
        var date := Signed32(Read32(d, After(d, q, 20)));
        Parsed(true, After(d, q, 24), e.(text := Words("scheduled video chat for %d", date, [], "")))
    else if Short(d, q, 20) then Parsed(false, q, e)
    else
      var (ok, q2, _) := Longs(d, After(d, q, 20));
      Parsed(ok, q2, if ok then e.(text := Say("invited to video chat")) else e)
  }

  /** `parse_service_action`: an unknown action is reported and its payload left unread. */
  function ServiceAction(d: bytes, p: nat, e0: Entry, skip: Skippers): (r: Parsed)
    ensures SameHeading(e0.(isService := true), r.e)
  {
    var e := e0.(isService := true);
    if Short(d, p, 4) then Parsed(false, p, e.(text := Say("[service action truncated]")))
    else
      var c, q := Read32(d, p), After(d, p, 4);
      if HasList(c) then LongAction(c, d, q, e, skip) else PlainAction(c, d, q, e)
  }

  /** Wherever the grammar accepts an action, history reads exactly the same bytes of it. */
  lemma ActionFollowsGrammar(d: bytes, p0: nat, p: nat, e: Entry, skip: Skippers)
    requires Conforms(skip, d, p0) && p0 < p && Skip(MessageAction, d, p, 0).Some?
    ensures var r := ServiceAction(d, p, e, skip); r.ok && Skip(MessageAction, d, p, 0) == Some(r.pos)
  {
    hide Body, Run, Conforms, PlainAction, LongAction, HasList, MessageActionBody, Word32;
    var c := Word32(d, p);
    var sub := Below(d, p, 0);
    assert Body(MessageAction, c) == MessageActionBody(c) by { TlSkip.MessageActionLayouts(c); }
    if HasList(c) {
      LongActionFollows(c, d, p0, p, e.(isService := true), skip);
    } else {
      PlainActionFollows(c, d, p + 4, e.(isService := true), sub);
    }
  }

  lemma PlainActionFollows(c: uint32, d: bytes, q: nat, e: Entry, sub: (Type, nat) -> Option<nat>)
    requires q <= |d| && !HasList(c) && Run(MessageActionBody(c), 0, 0, d, q, sub).Some?
    ensures var r := PlainAction(c, d, q, e); r.ok && Run(MessageActionBody(c), 0, 0, d, q, sub) == Some(r.pos)
  {
    hide ReadString, CString, Read64;
    ReadEnds(d, q);
  }

  lemma ReadEnds(d: bytes, q: nat)
    ensures StringEnd(d, q) == match ReadString(d, q) case None => None case Some((_, q1)) => Some(q1)
  {
  }

  lemma LongActionFollows(c: uint32, d: bytes, p0: nat, p: nat, e: Entry, skip: Skippers)
    requires p0 < p && p + 4 <= |d| && HasList(c) && Conforms(skip, d, p0)
    requires Run(MessageActionBody(c), 0, 0, d, p + 4, Below(d, p, 0)).Some?
    ensures var r := LongAction(c, d, p + 4, e, skip);
            r.ok && Run(MessageActionBody(c), 0, 0, d, p + 4, Below(d, p, 0)) == Some(r.pos)
  {
    hide ReadString, CString, Read64, VectorEnd, Longs, Below, Conforms, CallAction;
    var q, sub := p + 4, Below(d, p, 0);
    ReadEnds(d, q);
    if c == 0xbd47cbad {
      LongsFollow(d, ReadString(d, q).value.1, 0, sub);
    } else if c == 0x15cefd00 {
      LongsFollow(d, q, 0, sub);
    } else if c == 0x7fcb13a8 {
      PhotoFollows(d, p0, p, skip);
    } else {
      CallActionFollows(c, d, q, e, sub);
    }
  }

  lemma PhotoFollows(d: bytes, p0: nat, p: nat, skip: Skippers)
    requires p0 < p && p + 4 <= |d| && Conforms(skip, d, p0) && Below(d, p, 0)(Photo, p + 4).Some?
    ensures skip(Obj(Photo, Stop), p + 4) == (true, Below(d, p, 0)(Photo, p + 4).value)
  {
    hide Body, Skip;
    var r := skip(Obj(Photo, Stop), p + 4);
    assert Does(d, p0, Obj(Photo, Stop), p + 4, r.0, r.1);
    BelowIsSkip(Photo, d, p + 4, p, 0);
    BelowIsSkip(Photo, d, p + 4, p0, 0);
  }

  lemma LongsFollow(d: bytes, p: nat, f: nat, sub: (Type, nat) -> Option<nat>)
    requires VectorEnd(Word(2, Stop), 4096, f, 0, d, p, sub).Some?
    ensures Longs(d, p).0 && VectorEnd(Word(2, Stop), 4096, f, 0, d, p, sub) == Some(Longs(d, p).1)
  {
    hide Word32;
    TlSkip.LongsEnd(VectorCount(d, p).value, f, 0, d, p + 8, sub);
  }

  lemma CallActionFollows(c: uint32, d: bytes, q: nat, e: Entry, sub: (Type, nat) -> Option<nat>)
    requires q <= |d| && (c == 0x80e11a7f || c == 0x7a0d7f42 || c == 0xb3a07661 || c == 0x502f92f7)
    requires Run(MessageActionBody(c), 0, 0, d, q, sub).Some?
    ensures var r := CallAction(c, d, q, e); r.ok && Run(MessageActionBody(c), 0, 0, d, q, sub) == Some(r.pos)
  {
    if c == 0x80e11a7f {
      hide *;
      PhoneCallFollows(d, q, e, sub);
    } else {
      hide Read32, Bit, Longs, VectorEnd;
      if c == 0x502f92f7 { LongsFollow(d, q + 20, 0, sub); }
    }
  }

  lemma PhoneCallFollows(d: bytes, q: nat, e: Entry, sub: (Type, nat) -> Option<nat>)
    requires q <= |d| && Run(MessageActionBody(0x80e11a7f), 0, 0, d, q, sub).Some?
    ensures var r := CallAction(0x80e11a7f, d, q, e);
            r.ok && Run(MessageActionBody(0x80e11a7f), 0, 0, d, q, sub) == Some(r.pos)
  {
    hide Read32, Bit, DiscardReason;
  }

  // ---- the whole service row ----

  /** Run the fields of `lay` one after the other, stopping at the first that fails. */
  function Land(lay: Layout, f: nat, g: nat, d: bytes, p: nat, skip: Skippers): (r: (bool, nat))
    decreases lay
  {
    match lay
    case Word(n, next) =>
      (match FixedEnd(d, p, 4 * n) case None => (false, p) case Some(q) => Land(next, f, g, d, q, skip))
    case If(k, body, next) =>
      if Bit(f, k) then
          (var (ok, q) := Land(body, f, g, d, p, skip); if ok then Land(next, f, g, d, q, skip) else (false, q))
      else Land(next, f, g, d, p, skip)
    case If2(k, body, next) =>
      if Bit(g, k) then
          (var (ok, q) := Land(body, f, g, d, p, skip); if ok then Land(next, f, g, d, q, skip) else (false, q))
      else Land(next, f, g, d, p, skip)
    case Text(next) => (var (ok, q) := skip(Text(Stop), p); if ok then Land(next, f, g, d, q, skip) else (false, q))
    case Obj(t, next) => (var (ok, q) := skip(Obj(t, Stop), p); if ok then Land(next, f, g, d, q, skip) else (false, q))
    case Many(item, next) =>
      (var (ok, q) := skip(Many(item, Stop), p); if ok then Land(next, f, g, d, q, skip) else (false, q))
    case Stop => (true, p)
    case _ => (false, p)
  }

  /** The layouts `Land` covers in full. */
  predicate Straight(lay: Layout) {
    match lay
    case Stop => true
    case Word(_, next) => Straight(next)
    case Text(next) => Straight(next)
    case Obj(_, next) => Straight(next)
    case Many(item, next) => item.Obj? && item.next.Stop? && Straight(next)
    case If(_, body, next) => Straight(body) && Straight(next)
    case If2(_, body, next) => Straight(body) && Straight(next)
    case _ => false
  }

  /** Field-by-field reading with the shared skippers decides as the grammar does. */
  lemma {:induction false} LandFollows(lay: Layout, f: nat, g: nat, d: bytes, p0: nat, p: nat, skip: Skippers)
    requires Conforms(skip, d, p0) && Straight(lay) && p0 < p && p0 < |d| && CursorOk(d, p0, p)
    ensures var r := Land(lay, f, g, d, p, skip);
            && Run(lay, f, g, d, p, Below(d, p0, 0)) == (if r.0 then Some(r.1) else None)
            && CursorOk(d, p0, r.1) && p0 < r.1
    decreases lay
  {
    hide Below, FixedEnd, Bit, Conforms, CursorOk, VectorEnd, StringEnd, Run;
    var sub := Below(d, p0, 0);
    match lay
    case Stop => RunStop(f, g, d, p, sub);
    case Word(n, next) =>
      WordFollows(n, next, f, g, d, p0, p);
      var q := FixedEnd(d, p, 4 * n);
      if q.Some? { LandFollows(next, f, g, d, p0, q.value, skip); }
    case If(_, body, next) =>
      StepIf(lay, f, g, d, p, sub);
      LandFollows(body, f, g, d, p0, p, skip);
      LandFollows(next, f, g, d, p0, p, skip);
      LandFollows(next, f, g, d, p0, Land(body, f, g, d, p, skip).1, skip);
    case If2(_, body, next) =>
      StepIf(lay, f, g, d, p, sub);
      LandFollows(body, f, g, d, p0, p, skip);
      LandFollows(next, f, g, d, p0, p, skip);
      LandFollows(next, f, g, d, p0, Land(body, f, g, d, p, skip).1, skip);
    case Text(next) =>
      SharedFollows(lay, Text(Stop), f, g, d, p0, p, skip);
      LandFollows(next, f, g, d, p0, skip(Text(Stop), p).1, skip);
    case Obj(t, next) =>
      SharedFollows(lay, Obj(t, Stop), f, g, d, p0, p, skip);
      LandFollows(next, f, g, d, p0, skip(Obj(t, Stop), p).1, skip);
    case Many(item, next) =>
      SharedFollows(lay, Many(item, Stop), f, g, d, p0, p, skip);
      LandFollows(next, f, g, d, p0, skip(Many(item, Stop), p).1, skip);
  }

  lemma RunStop(f: nat, g: nat, d: bytes, p: nat, sub: (Type, nat) -> Option<nat>)
    ensures Run(Stop, f, g, d, p, sub) == Some(p)
  {
  }

  lemma WordFollows(n: nat, next: Layout, f: nat, g: nat, d: bytes, p0: nat, p: nat)
    requires p0 < p && p0 < |d| && CursorOk(d, p0, p)
    ensures var q := FixedEnd(d, p, 4 * n);
            && (q.None? ==> Run(Word(n, next), f, g, d, p, Below(d, p0, 0)) == None)
            && (q.Some? ==> Run(Word(n, next), f, g, d, p, Below(d, p0, 0)) ==
                            Run(next, f, g, d, q.value, Below(d, p0, 0))
                            && CursorOk(d, p0, q.value) && p0 < q.value)
  {
    hide Below;
  }

  /** A field read by a shared skipper: the grammar's next step, in bounds either way. */
  lemma SharedFollows(lay: Layout, one: Layout, f: nat, g: nat, d: bytes, p0: nat, p: nat, skip: Skippers)
    requires Conforms(skip, d, p0) && p0 < p && p0 < |d| && CursorOk(d, p0, p)
    requires
      || (lay.Text? && one == Text(Stop))
      || (lay.Obj? && one == Obj(lay.ty, Stop))
      || (lay.Many? && one == Many(lay.item, Stop) && lay.item.Obj? && lay.item.next.Stop?)
    ensures var (ok, q) := skip(one, p);
            && CursorOk(d, p0, q) && p0 < q
            && Run(lay, f, g, d, p, Below(d, p0, 0)) == if ok then Run(lay.next, f, g, d, q, Below(d, p0, 0)) else None
  {
    hide Below, VectorEnd, StringEnd, Conforms;
    var (ok, q) := skip(one, p);
    assert Does(d, p0, one, p, ok, q) by { assert Conforms(skip, d, p0); Instance(skip, d, p0, one, p); }
    TlSkip.Onward(d, p0, p, q);
    OneField(lay, one, f, g, d, p, Below(d, p0, 0));
  }

  lemma OneField(lay: Layout, one: Layout, f: nat, g: nat, d: bytes, p: nat, sub: (Type, nat) -> Option<nat>)
    requires
      || (lay.Text? && one == Text(Stop))
      || (lay.Obj? && one == Obj(lay.ty, Stop))
      || (lay.Many? && one == Many(lay.item, Stop) && lay.item.Obj? && lay.item.next.Stop?)
    ensures Run(lay, f, g, d, p, sub) ==
            match Run(one, 0, 0, d, p, sub) case None => None case Some(q) => Run(lay.next, f, g, d, q, sub)
  {
    hide VectorEnd, StringEnd;
    if lay.Many? {
      var t := lay.item.ty;
      assert lay.item == Obj(t, Stop);
      FlagsUnused(t, 0xFFFF_FFFF, f, g, d, p, sub);
      StepMany(one, 0, 0, d, p, sub);
      StepMany(lay, f, g, d, p, sub);
    }
  }

  lemma Instance(skip: Skippers, d: bytes, p0: nat, one: Layout, p: nat)
    requires Conforms(skip, d, p0) && p0 < p < |d| + 4
    ensures Does(d, p0, one, p, skip(one, p).0, skip(one, p).1)
  {
  }

  /** Vectors of whole objects do not look at the flags around them. */
  lemma FlagsUnused(t: Type, max: nat, f: nat, g: nat, d: bytes, p: nat, sub: (Type, nat) -> Option<nat>)
    ensures VectorEnd(Obj(t, Stop), max, f, g, d, p, sub) == VectorEnd(Obj(t, Stop), max, 0, 0, d, p, sub)
  {
    hide VectorCount;
    var n := VectorCount(d, p);
    if n.Some? { ItemFlagsUnused(t, n.value, f, g, d, p + 8, sub); }
  }

  lemma {:induction false} ItemFlagsUnused(t: Type, n: nat, f: nat, g: nat, d: bytes, p: nat,
                                           sub: (Type, nat) -> Option<nat>)
    ensures RunItems(Obj(t, Stop), n, f, g, d, p, sub) == RunItems(Obj(t, Stop), n, 0, 0, d, p, sub)
  {
    if n > 0 && sub(t, p).Some? { ItemFlagsUnused(t, n - 1, f, g, d, sub(t, p).value, sub); }
  }

  /** Sender, peer and the optional reply header. */
  function ServicePeers(): Layout {
    If(8, Obj(Peer, Stop), Obj(Peer, Stop))
  }

  /** The label peeked out of a reply header: the id of the pinned message. Behind the end of the
      buffer there is nothing to peek. */
  function Peeked(d: bytes, p: nat, e: Entry): Entry {
    if p + 12 <= |d| && Word32(d, p) == 0xafbc09db && Bit(Word32(d, p + 4), 4) then
      e.(text := Words("pinned message %d", Signed32(Word32(d, p + 8)), [], ""))
    else e
  }

  /** The text of the action, or the peeked label when the action has none. */
  function Kept(saved: Words, e: Entry): Entry {
    if Blank(e.text) && !Blank(saved) then e.(text := saved) else e
  }

  /** `domain_history_parse_service`, from the peers on. Reactions (flag 20) are not read; the
      period of flag 25 is read when its four bytes are there. */
  function ServiceRow(d: bytes, p: nat, e0: Entry, flags: uint32, skip: Skippers): Parsed {
    var e := e0.(isService := true);
    var (ok, q) := Land(ServicePeers(), flags, 0, d, p, skip);
    if !ok then Parsed(false, q, e.(complex := true))
    else
      var e1 := if Bit(flags, 3) then Peeked(d, q, e) else e;
      var (ok1, q1) := if Bit(flags, 3) then skip(Obj(ReplyHeader, Stop), q) else (true, q);
      if !ok1 || Short(d, q1, 4) then Parsed(false, q1, e1.(complex := true))
      else
        var a := ServiceAction(d, After(d, q1, 4), e1.(date := Signed32(Read32(d, q1))), skip);
        var e2 := Kept(e1.text, a.e);
        if a.ok && Bit(flags, 25) && !Short(d, a.pos, 4) then Parsed(true, After(d, a.pos, 4), e2)
        else Parsed(a.ok, a.pos, e2)
  }
}
