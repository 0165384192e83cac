/** TL values as trees, their wire encoding, and the laws that tie encoding to skipping:
    the skippers accept exactly the encodings of well-typed trees, stop exactly at their end,
    and never leave the buffer. */
module TlTrees {
  import opened Bytes
  import opened TlCodec
  import opened TlGrammar

  // ---- the cursor ----

  ghost predicate SubOk(d: bytes, sub: (Type, nat) -> Option<nat>) {
    forall t, q :: sub(t, q).Some? ==> CursorOk(d, q, sub(t, q).value)
  }

  lemma StepCursor(d: bytes, p: nat, n: nat)
    requires p < |d| + 4
    ensures FixedEnd(d, p, 4 * n).Some? ==> CursorOk(d, p, FixedEnd(d, p, 4 * n).value)
    ensures StringEnd(d, p).Some? ==> CursorOk(d, p, StringEnd(d, p).value)
    ensures p + 8 <= |d| ==> CursorOk(d, p, p + 8)
  {
    hide ReadString;
    if |d| % 4 == 0 && p % 4 == 0 { StringStaysAligned(d, p); }
  }

  /** Walking any layout keeps the cursor in bounds if walking nested objects does. */
  lemma {:induction false} RunCursor(lay: Layout, f: nat, g: nat, d: bytes, p: nat, sub: (Type, nat) -> Option<nat>)
    requires p < |d| + 4 && SubOk(d, sub)
    ensures Run(lay, f, g, d, p, sub).Some? ==> CursorOk(d, p, Run(lay, f, g, d, p, sub).value)
    decreases lay, 0, 0
  {
    hide FixedEnd, StringEnd, VectorCount, Read32, Bit;
    match lay
    case Stop =>
    case Reject =>
    case Word(n, next) =>
      StepCursor(d, p, n);
      if FixedEnd(d, p, 4 * n).Some? { RunCursor(next, f, g, d, FixedEnd(d, p, 4 * n).value, sub); }
    case Text(next) =>
      StepCursor(d, p, 0);
      if StringEnd(d, p).Some? { RunCursor(next, f, g, d, StringEnd(d, p).value, sub); }
    case Flags(next) =>
      StepCursor(d, p, 1);
      if FixedEnd(d, p, 4).Some? { RunCursor(next, Read32(d, p), g, d, FixedEnd(d, p, 4).value, sub); }
    case Flags2(next) =>
      StepCursor(d, p, 1);
      if FixedEnd(d, p, 4).Some? { RunCursor(next, f, Read32(d, p), d, FixedEnd(d, p, 4).value, sub); }
    case Obj(t, next) =>
      if sub(t, p).Some? { RunCursor(next, f, g, d, sub(t, p).value, sub); }
    case Many(item, next) =>
      VectorCursor(item, 0xFFFF_FFFF, f, g, d, p, sub);
      var r := VectorEnd(item, 0xFFFF_FFFF, f, g, d, p, sub);
      if r.Some? { RunCursor(next, f, g, d, r.value, sub); }
    case ManyMax(max, item, next) =>
      VectorCursor(item, max, f, g, d, p, sub);
      var r := VectorEnd(item, max, f, g, d, p, sub);
      if r.Some? { RunCursor(next, f, g, d, r.value, sub); }
    case If(_, body, next) =>
      RunCursor(body, f, g, d, p, sub);
      RunCursor(next, f, g, d, p, sub);
      var r := Run(body, f, g, d, p, sub);
      if r.Some? { RunCursor(next, f, g, d, r.value, sub); }
    case If2(_, body, next) =>
      RunCursor(body, f, g, d, p, sub);
      RunCursor(next, f, g, d, p, sub);
      var r := Run(body, f, g, d, p, sub);
      if r.Some? { RunCursor(next, f, g, d, r.value, sub); }
  }

  lemma {:induction false} VectorCursor(item: Layout, max: nat, f: nat, g: nat, d: bytes, p: nat,
                                        sub: (Type, nat) -> Option<nat>)
    requires p < |d| + 4 && SubOk(d, sub)
    ensures VectorEnd(item, max, f, g, d, p, sub).Some? ==> CursorOk(d, p, VectorEnd(item, max, f, g, d, p, sub).value)
    decreases item, 2, 0
  {
    hide VectorCount, CursorOk;
    var c := VectorCount(d, p);
    if c.Some? {
      StepCursor(d, p, 0);
      RunItemsCursor(item, c.value, f, g, d, p + 8, sub);
      Compose(d, p, p + 8);
    }
  }

  lemma Compose(d: bytes, p: nat, q: nat)
    ensures forall r: nat :: CursorOk(d, p, q) && CursorOk(d, q, r) ==> CursorOk(d, p, r)
  {
  }

  lemma {:induction false} RunItemsCursor(item: Layout, n: nat, f: nat, g: nat, d: bytes, p: nat,
                                          sub: (Type, nat) -> Option<nat>)
    requires p < |d| + 4 && SubOk(d, sub)
    ensures RunItems(item, n, f, g, d, p, sub).Some? ==> CursorOk(d, p, RunItems(item, n, f, g, d, p, sub).value)
    decreases item, 1, n
  {
    if n > 0 {
      RunCursor(item, f, g, d, p, sub);
      var r := Run(item, f, g, d, p, sub);
      if r.Some? { RunItemsCursor(item, n - 1, f, g, d, r.value, sub); }
    }
  }

  /** Every skipper, on any bytes: success consumes at least the constructor word and keeps
      the cursor in bounds, however large the vector counts in the buffer claim to be. */
  lemma {:induction false} SkipCursor(t: Type, d: bytes, p: nat, depth: nat)
    ensures var r := Skip(t, d, p, depth);
            r.Some? ==> p + 4 <= r.value && CursorOk(d, p, r.value)
    decreases if p <= |d| then |d| - p else 0
  {
    hide Body, Run, Word32;
    if p < |d| && |d| - p >= 4 && !(t == Media && depth >= MEDIA_DEPTH) {
      var inner := if t == Media then depth + 1 else depth;
      var sub := Below(d, p, inner);
      forall u, q: nat ensures sub(u, q).Some? ==> CursorOk(d, q, sub(u, q).value) {
        if p < q <= |d| { SkipCursor(u, d, q, inner); }
      }
      RunCursor(Body(t, Word32(d, p)), 0, 0, d, p + 4, sub);
    }
  }

  // ---- values ----

  /** A value of a layout, read off field by field. Strings keep their length prefix and
      padding as they stand on the wire, since the reader accepts any padding bytes, the long
      prefix for a short string, and both 0xFE and 0xFF as its first byte. */
  datatype Value =
    | VStop
    | VWord(raw: bytes, next: Value)
    | VText(head: bytes, content: bytes, pad: bytes, next: Value)
    | VFlags(word: uint32, next: Value)
    | VObj(ty: Type, ctor: uint32, body: Value, next: Value)
    | VMany(items: Values, next: Value)
    | VPresent(body: Value, next: Value)
    | VAbsent(next: Value)

  datatype Values = Nil | Cons(head: Value, tail: Values)

  function Count(vs: Values): nat {
    match vs case Nil => 0 case Cons(_, tail) => 1 + Count(tail)
  }

  predicate TextOk(head: bytes, content: bytes, pad: bytes) {
    && |pad| == Pad4(|head| + |content|) - |head| - |content|
    && (|head| == 1 ==> head[0] < 254 && |content| == head[0] as int)
    && (|head| != 1 ==>
          && |head| == 4 && head[0] >= 254
          && |content| == head[1] as int + 0x100 * head[2] as int + 0x1_0000 * head[3] as int)
  }

  /** `v` has layout `lay` when the flag words read so far are `f` and `g`. */
  predicate Typed(lay: Layout, f: nat, g: nat, v: Value)
    decreases v
  {
    match v
    case VStop => lay.Stop?
    case VWord(raw, next) => lay.Word? && |raw| == 4 * lay.n && Typed(lay.next, f, g, next)
    case VText(head, content, pad, next) => lay.Text? && TextOk(head, content, pad) && Typed(lay.next, f, g, next)
    case VFlags(w, next) => (lay.Flags? && Typed(lay.next, w, g, next)) || (lay.Flags2? && Typed(lay.next, f, w, next))
    case VObj(t, c, body, next) => lay.Obj? && lay.ty == t && Typed(Body(t, c), 0, 0, body)
        && Typed(lay.next, f, g, next)
    case VMany(items, next) =>
      && (lay.Many? || lay.ManyMax?)
      && Count(items) < TWO_TO_32 && (lay.ManyMax? ==> Count(items) <= lay.max)
      && TypedItems(lay.item, f, g, items) && Typed(lay.next, f, g, next)
    case VPresent(body, next) =>
      && ((lay.If? && Bit(f, lay.bit)) || (lay.If2? && Bit(g, lay.bit)))
      && Typed(lay.body, f, g, body) && Typed(lay.next, f, g, next)
    case VAbsent(next) =>
      && ((lay.If? && !Bit(f, lay.bit)) || (lay.If2? && !Bit(g, lay.bit)))
      && Typed(lay.next, f, g, next)
  }

  predicate TypedItems(item: Layout, f: nat, g: nat, vs: Values)
    decreases vs
  {
    match vs case Nil => true case Cons(v, tail) => Typed(item, f, g, v) && TypedItems(item, f, g, tail)
  }

  function Encode(v: Value): bytes {
    match v
    case VStop => []
    case VWord(raw, next) => raw + Encode(next)
    case VText(head, content, pad, next) => (head + content + pad) + Encode(next)
    case VFlags(w, next) => Enc32(w) + Encode(next)
    case VObj(_, c, body, next) => (Enc32(c) + Encode(body)) + Encode(next)
    case VMany(items, next) => ((Enc32(VECTOR) + Enc32(Count(items))) + EncodeItems(items)) + Encode(next)
    case VPresent(body, next) => Encode(body) + Encode(next)
    case VAbsent(next) => Encode(next)
  }

  function EncodeItems(vs: Values): bytes {
    match vs case Nil => [] case Cons(v, tail) => Encode(v) + EncodeItems(tail)
  }

  function Max(a: nat, b: nat): nat { if a < b then b else a }

  /** How many MessageMedia objects are open at once while `v` is walked. */
  function Nesting(v: Value): nat {
    match v
    case VStop => 0
    case VWord(_, next) => Nesting(next)
    case VText(_, _, _, next) => Nesting(next)
    case VFlags(_, next) => Nesting(next)
    case VObj(t, _, body, next) => Max((if t == Media then 1 else 0) + Nesting(body), Nesting(next))
    case VMany(items, next) => Max(NestingItems(items), Nesting(next))
    case VPresent(body, next) => Max(Nesting(body), Nesting(next))
    case VAbsent(next) => Nesting(next)
  }

  function NestingItems(vs: Values): nat {
    match vs case Nil => 0 case Cons(v, tail) => Max(Nesting(v), NestingItems(tail))
  }

  // ---- skipping undoes encoding ----

  lemma TextReadBack(head: bytes, content: bytes, pad: bytes, d: bytes, p: nat)
    requires TextOk(head, content, pad) && At(d, p, head + content + pad)
    ensures StringEnd(d, p) == Some(p + |head + content + pad|)
  {
    AtSplit(d, p, head + content, pad);
    AtSplit(d, p, head, content);
    assert d[p] == d[p..p + |head|][0];
    if |head| == 4 {
      assert d[p + 1] == d[p..p + 4][1] && d[p + 2] == d[p..p + 4][2] && d[p + 3] == d[p..p + 4][3];
    }
  }

  lemma VectorReadBack(n: nat, d: bytes, p: nat)
    requires n < TWO_TO_32 && At(d, p, Enc32(VECTOR) + Enc32(n))
    ensures VectorCount(d, p) == Some(n)
  {
    AtSplit(d, p, Enc32(VECTOR), Enc32(n));
    Word32OfEnc32(VECTOR, d, p);
    Word32OfEnc32(n, d, p + 4);
  }

  /** Walking `lay` over the encoding of `v` ends exactly at its end, unless `v` nests media
      deeper than the counter still allows; then it is refused. */
  ghost predicate Walks(lay: Layout, f: nat, g: nat, v: Value, d: bytes, p: nat, p0: nat, depth: nat)
    requires p0 <= |d|
  {
    Run(lay, f, g, d, p, Below(d, p0, depth)) ==
    if depth + Nesting(v) <= MEDIA_DEPTH then Some(p + |Encode(v)|) else None
  }

  ghost predicate Encoded(lay: Layout, f: nat, g: nat, v: Value, d: bytes, p: nat, p0: nat, depth: nat) {
    Typed(lay, f, g, v) && At(d, p, Encode(v)) && p0 < p && p0 <= |d| && depth <= MEDIA_DEPTH
  }

  lemma {:induction false} RunOfEncoded(lay: Layout, f: nat, g: nat, v: Value, d: bytes, p: nat, p0: nat, depth: nat)
    requires Encoded(lay, f, g, v, d, p, p0, depth)
    ensures Walks(lay, f, g, v, d, p, p0, depth)
    decreases v, 1
  {
    match v
    case VStop =>
      hide Body, Below, Skip;
    case VObj(_, _, _, _) => RunOfObj(lay, f, g, v, d, p, p0, depth);
    case VMany(_, _) => RunOfMany(lay, f, g, v, d, p, p0, depth);
    case VPresent(_, _) => RunOfIf(lay, f, g, v, d, p, p0, depth);
    case VAbsent(_) => RunOfIf(lay, f, g, v, d, p, p0, depth);
    case _ => RunOfPlain(lay, f, g, v, d, p, p0, depth);
  }

  lemma {:induction false} RunOfPlain(lay: Layout, f: nat, g: nat, v: Value, d: bytes, p: nat, p0: nat, depth: nat)
    requires Encoded(lay, f, g, v, d, p, p0, depth) && (v.VWord? || v.VText? || v.VFlags?)
    ensures Walks(lay, f, g, v, d, p, p0, depth)
    decreases v, 0
  {
    hide Body, StringEnd, Read32, FixedEnd, TextOk, Enc32, Word32, At, Skip, Below;
    match v {
      case VWord(raw, next) =>
        AtSplit(d, p, raw, Encode(next));
        FixedEndInside(d, p, raw);
        RunOfEncoded(lay.next, f, g, next, d, p + |raw|, p0, depth);
      case VText(head, content, pad, next) =>
        var e := head + content + pad;
        AtSplit(d, p, e, Encode(next));
        TextReadBack(head, content, pad, d, p);
        RunOfEncoded(lay.next, f, g, next, d, p + |e|, p0, depth);
      case VFlags(w, next) =>
        AtSplit(d, p, Enc32(w), Encode(next));
        FlagsReadBack(w, d, p);
        RunOfEncoded(lay.next, if lay.Flags? then w else f, if lay.Flags? then g else w, next, d, p + 4, p0, depth);
    }
  }

  predicate Taken(lay: Layout, f: nat, g: nat) {
    (lay.If? && Bit(f, lay.bit)) || (lay.If2? && Bit(g, lay.bit))
  }

  lemma StepIf(lay: Layout, f: nat, g: nat, d: bytes, p: nat, sub: (Type, nat) -> Option<nat>)
    requires lay.If? || lay.If2?
    ensures Run(lay, f, g, d, p, sub) ==
            if Taken(lay, f, g) then
              match Run(lay.body, f, g, d, p, sub) case None => None case Some(q) => Run(lay.next, f, g, d, q, sub)
            else Run(lay.next, f, g, d, p, sub)
  {
    hide Bit;
  }

  lemma {:induction false} RunOfIf(lay: Layout, f: nat, g: nat, v: Value, d: bytes, p: nat, p0: nat, depth: nat)
    requires Encoded(lay, f, g, v, d, p, p0, depth) && (v.VPresent? || v.VAbsent?)
    ensures Walks(lay, f, g, v, d, p, p0, depth)
    decreases v, 0
  {
    hide Body, Bit, At, Below, Skip, Run;
    StepIf(lay, f, g, d, p, Below(d, p0, depth));
    if v.VPresent? {
      AtSplit(d, p, Encode(v.body), Encode(v.next));
      RunOfEncoded(lay.body, f, g, v.body, d, p, p0, depth);
      RunOfEncoded(lay.next, f, g, v.next, d, p + |Encode(v.body)|, p0, depth);
    } else {
      RunOfEncoded(lay.next, f, g, v.next, d, p, p0, depth);
    }
  }

  lemma StepMany(lay: Layout, f: nat, g: nat, d: bytes, p: nat, sub: (Type, nat) -> Option<nat>)
    requires lay.Many? || lay.ManyMax?
    ensures Run(lay, f, g, d, p, sub) ==
            match VectorCount(d, p)
            case None => None
            case Some(n) =>
              if lay.ManyMax? && n > lay.max then None
              else match RunItems(lay.item, n, f, g, d, p + 8, sub) case None => None case Some(q) =>
                  Run(lay.next, f, g, d, q, sub)
  {
  }

  lemma StepObj(lay: Layout, f: nat, g: nat, d: bytes, p: nat, sub: (Type, nat) -> Option<nat>)
    requires lay.Obj?
    ensures Run(lay, f, g, d, p, sub) == match sub(lay.ty, p) case None => None case Some(q) =>
            Run(lay.next, f, g, d, q, sub)
  {
  }

  lemma ValueMany(lay: Layout, f: nat, g: nat, v: Value)
    requires Typed(lay, f, g, v) && v.VMany?
    ensures && (lay.Many? || lay.ManyMax?)
            && Count(v.items) < TWO_TO_32 && (lay.ManyMax? ==> Count(v.items) <= lay.max)
            && TypedItems(lay.item, f, g, v.items) && Typed(lay.next, f, g, v.next)
    ensures Encode(v) == ((Enc32(VECTOR) + Enc32(Count(v.items))) + EncodeItems(v.items)) + Encode(v.next)
    ensures Nesting(v) == Max(NestingItems(v.items), Nesting(v.next))
  {
    hide Body, Enc32;
  }

  lemma ValueObj(lay: Layout, f: nat, g: nat, v: Value)
    requires Typed(lay, f, g, v) && v.VObj?
    ensures lay.Obj? && lay.ty == v.ty && Typed(Body(v.ty, v.ctor), 0, 0, v.body) && Typed(lay.next, f, g, v.next)
    ensures Encode(v) == (Enc32(v.ctor) + Encode(v.body)) + Encode(v.next)
    ensures Nesting(v) == Max((if v.ty == Media then 1 else 0) + Nesting(v.body), Nesting(v.next))
  {
    hide Body, Enc32;
  }

  lemma {:induction false} RunOfObj(lay: Layout, f: nat, g: nat, v: Value, d: bytes, p: nat, p0: nat, depth: nat)
    requires Encoded(lay, f, g, v, d, p, p0, depth) && v.VObj?
    ensures Walks(lay, f, g, v, d, p, p0, depth)
    decreases v, 0
  {
    hide Body, Enc32, At, Skip, Below, Run, Typed, Encode, Nesting;
    ValueObj(lay, f, g, v);
    StepObj(lay, f, g, d, p, Below(d, p0, depth));
    var e := Enc32(v.ctor) + Encode(v.body);
    AtSplit(d, p, e, Encode(v.next));
    SkipOfEncodedAt(v.ty, v.ctor, v.body, d, p, depth);
    BelowIsSkip(v.ty, d, p, p0, depth);
    RunOfEncoded(lay.next, f, g, v.next, d, p + |e|, p0, depth);
  }

  lemma {:induction false} RunOfMany(lay: Layout, f: nat, g: nat, v: Value, d: bytes, p: nat, p0: nat, depth: nat)
    requires Encoded(lay, f, g, v, d, p, p0, depth) && v.VMany?
    ensures Walks(lay, f, g, v, d, p, p0, depth)
    decreases v, 0
  {
    hide Body, Enc32, At, Skip, Below, VectorCount, Run, RunItems, Typed, Encode, Nesting;
    ValueMany(lay, f, g, v);
    StepMany(lay, f, g, d, p, Below(d, p0, depth));
    var items := v.items;
    var h := Enc32(VECTOR) + Enc32(Count(items));
    AtSplit(d, p, h + EncodeItems(items), Encode(v.next));
    AtSplit(d, p, h, EncodeItems(items));
    VectorReadBack(Count(items), d, p);
    ItemsOfEncoded(lay.item, f, g, items, d, p + 8, p0, depth);
    RunOfEncoded(lay.next, f, g, v.next, d, p + 8 + |EncodeItems(items)|, p0, depth);
  }

  lemma FixedEndInside(d: bytes, p: nat, raw: bytes)
    requires At(d, p, raw)
    ensures FixedEnd(d, p, |raw|) == Some(p + |raw|)
  {
  }

  lemma BelowIsSkip(t: Type, d: bytes, p: nat, p0: nat, depth: nat)
    requires p0 < p && p0 <= |d|
    ensures Below(d, p0, depth)(t, p) == Skip(t, d, p, depth)
  {
    hide Body, Run;
  }

  lemma CtorReadBack(c: uint32, d: bytes, p: nat)
    requires At(d, p, Enc32(c))
    ensures p + 4 <= |d| && Word32(d, p) == c
  {
    Word32OfEnc32(c, d, p);
  }

  lemma FlagsReadBack(w: uint32, d: bytes, p: nat)
    requires At(d, p, Enc32(w))
    ensures FixedEnd(d, p, 4) == Some(p + 4) && Read32(d, p) == w
  {
    Word32OfEnc32(w, d, p);
  }

  lemma {:induction false} SkipOfEncodedAt(t: Type, c: uint32, body: Value, d: bytes, p: nat, depth: nat)
    requires Typed(Body(t, c), 0, 0, body) && At(d, p, Enc32(c) + Encode(body)) && depth <= MEDIA_DEPTH
    ensures Skip(t, d, p, depth) ==
            if depth + (if t == Media then 1 else 0) + Nesting(body) <= MEDIA_DEPTH then
                Some(p + |Enc32(c) + Encode(body)|) else None
    decreases body, 2
  {
    hide Body, Enc32, Word32, Run, Below, Encode, Nesting, Typed, At;
    AtSplit(d, p, Enc32(c), Encode(body));
    CtorReadBack(c, d, p);
    if !(t == Media && depth >= MEDIA_DEPTH) {
      RunOfEncoded(Body(t, c), 0, 0, body, d, p + 4, p, if t == Media then depth + 1 else depth);
    }
  }

  lemma {:induction false} ItemsOfEncoded(item: Layout, f: nat, g: nat, vs: Values, d: bytes, p: nat, p0: nat,
                                          depth: nat)
    requires TypedItems(item, f, g, vs) && At(d, p, EncodeItems(vs)) && p0 < p && p0 <= |d| && depth <= MEDIA_DEPTH
    ensures RunItems(item, Count(vs), f, g, d, p, Below(d, p0, depth)) ==
            if depth + NestingItems(vs) <= MEDIA_DEPTH then Some(p + |EncodeItems(vs)|) else None
    decreases vs, 0
  {
    hide Typed, At, Below, Skip, Run;
    match vs
    case Nil =>
    case Cons(v, tail) =>
      AtSplit(d, p, Encode(v), EncodeItems(tail));
      RunOfEncoded(item, f, g, v, d, p, p0, depth);
      ItemsOfEncoded(item, f, g, tail, d, p + |Encode(v)|, p0, depth);
  }

  // ---- whatever is skipped was an encoding ----

  predicate Aligned(d: bytes, p: nat) {
    |d| % 4 == 0 && p % 4 == 0 && p <= |d|
  }

  ghost predicate Decodes(lay: Layout, f: nat, g: nat, v: Value, d: bytes, p: nat, q: nat, depth: nat) {
    Typed(lay, f, g, v) && At(d, p, Encode(v)) && q == p + |Encode(v)| && depth + Nesting(v) <= MEDIA_DEPTH
        && Aligned(d, q)
  }

  lemma FixedDecodes(d: bytes, p: nat, n: nat)
    requires Aligned(d, p) && FixedEnd(d, p, 4 * n).Some?
    ensures var q := FixedEnd(d, p, 4 * n).value;
            Aligned(d, q) && q == p + 4 * n && At(d, p, d[p..q])
    ensures n == 1 ==> Read32(d, p) == Word32(d, p) && At(d, p, Enc32(Read32(d, p)))
  {
    if n == 1 { Enc32OfWord32(d, p); }
  }

  lemma TextDecodes(d: bytes, p: nat) returns (head: bytes, content: bytes, pad: bytes)
    requires Aligned(d, p) && StringEnd(d, p).Some?
    ensures TextOk(head, content, pad) && At(d, p, head + content + pad)
    ensures StringEnd(d, p).value == p + |head + content + pad| && Aligned(d, StringEnd(d, p).value)
  {
    StringStaysAligned(d, p);
    var (h, n) := StringHead(d, p).value;
    var q := StringEnd(d, p).value;
    head, content, pad := d[p..p + h], d[p + h..p + h + n], d[p + h + n..q];
    AtSplit(d, p, head, content);
    AtSplit(d, p, head + content, pad);
  }

  lemma VectorDecodes(d: bytes, p: nat)
    requires Aligned(d, p) && VectorCount(d, p).Some?
    ensures VectorCount(d, p).value < TWO_TO_32 && Aligned(d, p + 8)
    ensures At(d, p, Enc32(VECTOR) + Enc32(VectorCount(d, p).value))
  {
    Enc32OfWord32(d, p);
    Enc32OfWord32(d, p + 4);
    AtSplit(d, p, Enc32(VECTOR), Enc32(VectorCount(d, p).value));
  }

  /** On an aligned buffer, whatever a layout accepts is the encoding of one of its values. */
  lemma {:induction false} RunDecodes(lay: Layout, f: nat, g: nat, d: bytes, p: nat, p0: nat, depth: nat)
    returns (v: Value)
    requires Aligned(d, p) && p0 < p && depth <= MEDIA_DEPTH
    requires Run(lay, f, g, d, p, Below(d, p0, depth)).Some?
    ensures Decodes(lay, f, g, v, d, p, Run(lay, f, g, d, p, Below(d, p0, depth)).value, depth)
    decreases |d| - p0, lay, 0, 1
  {
    hide Body, Bit, At, Below, Skip, FixedEnd, StringEnd, TextOk, Read32, Aligned, Enc32;
    if lay.Stop? {
      v := VStop;
      AtNothing(d, p);
    } else if lay.Obj? {
      v := ObjDecodes(lay, f, g, d, p, p0, depth);
    } else if lay.Many? || lay.ManyMax? {
      v := ManyDecodes(lay, f, g, d, p, p0, depth);
    } else if lay.If? || lay.If2? {
      v := IfDecodes(lay, f, g, d, p, p0, depth);
    } else {
      v := PlainDecodes(lay, f, g, d, p, p0, depth);
    }
  }

  lemma AlignedInside(d: bytes, p: nat)
    requires Aligned(d, p)
    ensures p <= |d|
  {
  }

  lemma AtNothing(d: bytes, p: nat)
    requires Aligned(d, p)
    ensures At(d, p, [])
  {
  }

  lemma {:induction false} PlainDecodes(lay: Layout, f: nat, g: nat, d: bytes, p: nat, p0: nat, depth: nat)
    returns (v: Value)
    requires Aligned(d, p) && p0 < p && depth <= MEDIA_DEPTH
    requires lay.Word? || lay.Text? || lay.Flags? || lay.Flags2?
    requires Run(lay, f, g, d, p, Below(d, p0, depth)).Some?
    ensures Decodes(lay, f, g, v, d, p, Run(lay, f, g, d, p, Below(d, p0, depth)).value, depth)
    decreases |d| - p0, lay, 0, 0
  {
    hide Body, At, Below, Skip, FixedEnd, StringEnd, TextOk, Read32, Aligned, Enc32;
    match lay {
      case Word(n, next) =>
        FixedDecodes(d, p, n);
        var q := FixedEnd(d, p, 4 * n).value;
        var rest := RunDecodes(next, f, g, d, q, p0, depth);
        v := VWord(d[p..q], rest);
        AtSplit(d, p, d[p..q], Encode(rest));
      case Text(next) =>
        var head, content, pad := TextDecodes(d, p);
        var rest := RunDecodes(next, f, g, d, StringEnd(d, p).value, p0, depth);
        v := VText(head, content, pad, rest);
        AtSplit(d, p, head + content + pad, Encode(rest));
      case Flags(next) =>
        FixedDecodes(d, p, 1);
        var rest := RunDecodes(next, Read32(d, p), g, d, p + 4, p0, depth);
        v := VFlags(Read32(d, p), rest);
        AtSplit(d, p, Enc32(Read32(d, p)), Encode(rest));
      case Flags2(next) =>
        FixedDecodes(d, p, 1);
        var rest := RunDecodes(next, f, Read32(d, p), d, p + 4, p0, depth);
        v := VFlags(Read32(d, p), rest);
        AtSplit(d, p, Enc32(Read32(d, p)), Encode(rest));
    }
  }

  lemma {:induction false} IfDecodes(lay: Layout, f: nat, g: nat, d: bytes, p: nat, p0: nat, depth: nat)
    returns (v: Value)
    requires Aligned(d, p) && p0 < p && depth <= MEDIA_DEPTH && (lay.If? || lay.If2?)
    requires Run(lay, f, g, d, p, Below(d, p0, depth)).Some?
    ensures Decodes(lay, f, g, v, d, p, Run(lay, f, g, d, p, Below(d, p0, depth)).value, depth)
    decreases |d| - p0, lay, 0, 0
  {
    hide Body, Bit, At, Below, Skip, Aligned, Run;
    AlignedInside(d, p);
    StepIf(lay, f, g, d, p, Below(d, p0, depth));
    if Taken(lay, f, g) {
      var body := RunDecodes(lay.body, f, g, d, p, p0, depth);
      var rest := RunDecodes(lay.next, f, g, d, p + |Encode(body)|, p0, depth);
      v := VPresent(body, rest);
      AtSplit(d, p, Encode(body), Encode(rest));
    } else {
      var rest := RunDecodes(lay.next, f, g, d, p, p0, depth);
      v := VAbsent(rest);
    }
  }

  lemma {:induction false} ManyDecodes(lay: Layout, f: nat, g: nat, d: bytes, p: nat, p0: nat, depth: nat)
    returns (v: Value)
    requires Aligned(d, p) && p0 < p && depth <= MEDIA_DEPTH && (lay.Many? || lay.ManyMax?)
    requires Run(lay, f, g, d, p, Below(d, p0, depth)).Some?
    ensures Decodes(lay, f, g, v, d, p, Run(lay, f, g, d, p, Below(d, p0, depth)).value, depth)
    decreases |d| - p0, lay, 0, 0
  {
    hide Body, At, Below, Skip, Aligned, VectorCount, Enc32, Run, RunItems;
    AlignedInside(d, p);
    StepMany(lay, f, g, d, p, Below(d, p0, depth));
    var n := VectorCount(d, p).value;
    VectorDecodes(d, p);
    var items := ItemsDecode(lay.item, n, f, g, d, p + 8, p0, depth);
    var rest := RunDecodes(lay.next, f, g, d, p + 8 + |EncodeItems(items)|, p0, depth);
    v := VMany(items, rest);
    var h := Enc32(VECTOR) + Enc32(n);
    AtSplit(d, p, h, EncodeItems(items));
    AtSplit(d, p, h + EncodeItems(items), Encode(rest));
  }

  lemma {:induction false} ItemsDecode(item: Layout, n: nat, f: nat, g: nat, d: bytes, p: nat, p0: nat, depth: nat)
    returns (vs: Values)
    requires Aligned(d, p) && p0 < p && depth <= MEDIA_DEPTH
    requires RunItems(item, n, f, g, d, p, Below(d, p0, depth)).Some?
    ensures TypedItems(item, f, g, vs) && Count(vs) == n && At(d, p, EncodeItems(vs))
            && depth + NestingItems(vs) <= MEDIA_DEPTH
    ensures RunItems(item, n, f, g, d, p, Below(d, p0, depth)) == Some(p + |EncodeItems(vs)|)
            && Aligned(d, p + |EncodeItems(vs)|)
    decreases |d| - p0, item, 1, n
  {
    hide Body, At, Below, Skip, Aligned, Run;
    if n == 0 {
      vs := Nil;
      AtNothing(d, p);
    } else {
      var v := RunDecodes(item, f, g, d, p, p0, depth);
      var tail := ItemsDecode(item, n - 1, f, g, d, p + |Encode(v)|, p0, depth);
      vs := Cons(v, tail);
      AtSplit(d, p, Encode(v), EncodeItems(tail));
    }
  }

  lemma {:induction false} ObjDecodes(lay: Layout, f: nat, g: nat, d: bytes, p: nat, p0: nat, depth: nat)
    returns (v: Value)
    requires Aligned(d, p) && p0 < p && depth <= MEDIA_DEPTH && lay.Obj?
    requires Run(lay, f, g, d, p, Below(d, p0, depth)).Some?
    ensures Decodes(lay, f, g, v, d, p, Run(lay, f, g, d, p, Below(d, p0, depth)).value, depth)
    decreases |d| - p0, lay, 0, 0
  {
    hide Body, At, Below, Skip, Enc32, Aligned, Run;
    AlignedInside(d, p);
    StepObj(lay, f, g, d, p, Below(d, p0, depth));
    BelowIsSkip(lay.ty, d, p, p0, depth);
    var c, body := SkipDecodes(lay.ty, d, p, depth);
    var e := Enc32(c) + Encode(body);
    var rest := RunDecodes(lay.next, f, g, d, p + |e|, p0, depth);
    v := VObj(lay.ty, c, body, rest);
    AtSplit(d, p, e, Encode(rest));
  }

  lemma {:induction false} SkipDecodes(t: Type, d: bytes, p: nat, depth: nat) returns (c: uint32, body: Value)
    requires Aligned(d, p) && depth <= MEDIA_DEPTH && Skip(t, d, p, depth).Some?
    ensures Typed(Body(t, c), 0, 0, body) && At(d, p, Enc32(c) + Encode(body))
    ensures depth + (if t == Media then 1 else 0) + Nesting(body) <= MEDIA_DEPTH
    ensures Skip(t, d, p, depth) == Some(p + |Enc32(c) + Encode(body)|) && Aligned(d, p + |Enc32(c) + Encode(body)|)
    decreases |d| - p
  {
    hide Body, At, Below, Run, Enc32, Word32, Encode, Typed, Nesting;
    c := Word32(d, p);
    FixedDecodes(d, p, 1);
    body := RunDecodes(Body(t, c), 0, 0, d, p + 4, p, if t == Media then depth + 1 else depth);
    AtSplit(d, p, Enc32(c), Encode(body));
  }

  /** What it means for constructor `c` with fields `body` to be an object of type `t`. */
  ghost predicate IsObject(t: Type, c: uint32, body: Value) {
    Typed(Body(t, c), 0, 0, body)
  }

  function ObjectBytes(c: uint32, body: Value): bytes { Enc32(c) + Encode(body) }

  function ObjectNesting(t: Type, body: Value): nat { (if t == Media then 1 else 0) + Nesting(body) }

  /** The skippers and the encoder are inverse: wherever the encoding of an object stands in a
      buffer, with anything before and after it, the skipper of its type stops exactly at its
      end if the object nests at most four MessageMedia deep, and refuses it otherwise. */
  lemma SkipUndoesEncoding(t: Type, c: uint32, body: Value, pre: bytes, suf: bytes)
    requires IsObject(t, c, body)
    ensures Skip(t, pre + ObjectBytes(c, body) + suf, |pre|, 0) ==
            if ObjectNesting(t, body) <= 4 then Some(|pre| + |ObjectBytes(c, body)|) else None
  {
    hide Body, Run, Typed, Enc32, Encode, Nesting, Skip;
    var d := pre + ObjectBytes(c, body) + suf;
    assert At(d, |pre|, Enc32(c) + Encode(body));
    SkipOfEncodedAt(t, c, body, d, |pre|, 0);
  }

  /** On an aligned buffer a skipper succeeds, and stops at `q`, if and only if the bytes up to
      `q` are the encoding of an object of its type with at most four media open at once. */
  lemma SkipAcceptsExactlyEncodings(t: Type, d: bytes, p: nat, q: nat)
    requires Aligned(d, p)
    ensures Skip(t, d, p, 0) == Some(q) <==>
            exists c: uint32, body :: IsObject(t, c, body) && ObjectNesting(t, body) <= 4
                && At(d, p, ObjectBytes(c, body)) && q == p + |ObjectBytes(c, body)|
  {
    hide Body, Run, Typed, Enc32, Encode, Nesting, Skip, At;
    if Skip(t, d, p, 0) == Some(q) {
      var c, body := SkipDecodes(t, d, p, 0);
      assert IsObject(t, c, body) && At(d, p, ObjectBytes(c, body));
    }
    forall c: uint32, body | IsObject(t, c, body) && ObjectNesting(t, body) <= 4 && At(d, p, ObjectBytes(c, body))
      ensures Skip(t, d, p, 0) == Some(p + |ObjectBytes(c, body)|)
    {
      SkipOfEncodedAt(t, c, body, d, p, 0);
    }
  }
}
