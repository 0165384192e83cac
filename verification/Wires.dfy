/** TL objects written out as the bytes a sender produces: words, strings, nested objects and vectors one
    after the other, without reference to the layouts the skippers walk; and when a skipper reads them. */
module Wires {
  import opened Bytes
  import opened TlCodec
  import opened TlGrammar
  import opened TlTrees

  /** What the items of a vector are. */
  datatype Item = AnInt | ALong | AString | AnObject(t: Type)

  /** The fields of an object, in order. A nested object, and each item of a vector, is given by its bytes;
      a field that depends on a flag is there when `on` is true. */
  datatype Wire =
    | End
    | I(w: uint32, next: Wire)                        // int, also the flags words
    | L(x: uint64, next: Wire)                        // long or double
    | S(s: bytes, next: Wire)                         // string or bytes
    | O(t: Type, e: bytes, next: Wire)                // an object
    | V(item: Item, es: seq<bytes>, next: Wire)       // a vector
    | Opt(on: bool, body: Wire, next: Wire)           // a field behind a flag

  /** Flag `k` is set. */
  predicate On(f: nat, k: nat) {
    Bit(f, k)
  }

  function Concat(es: seq<bytes>): bytes {
    if es == [] then [] else es[0] + Concat(es[1..])
  }

  /** The bytes of the fields. */
  function Spell(v: Wire): bytes {
    match v
    case End => []
    case I(w, next) => Enc32(w) + Spell(next)
    case L(x, next) => Enc64(x) + Spell(next)
    case S(s, next) => EncString(s) + Spell(next)
    case O(_, e, next) => e + Spell(next)
    case V(_, es, next) => ((Enc32(0x1cb5c415) + Enc32(|es| % 0x1_0000_0000)) + Concat(es)) + Spell(next)
    case Opt(on, body, next) => (if on then Spell(body) else []) + Spell(next)
  }

  /** Wherever the bytes `e` stand, the skipper of type `t` reads exactly them; `k` media are open around
      them. */
  ghost predicate Accepted(t: Type, e: bytes, k: nat) {
    forall d: bytes, p: nat :: At(d, p, e) ==> Skip(t, d, p, k) == Some(p + |e|)
  }

  ghost predicate ItemGood(item: Item, e: bytes, k: nat) {
    match item
    case AnInt => |e| == 4
    case ALong => |e| == 8
    case AString => exists s :: |s| < 0x100_0000 && e == EncString(s)
    case AnObject(t) => Accepted(t, e, k)
  }

  /** Strings are short enough for their prefix, vectors for their count, and what is nested is read by its
      own skipper. */
  ghost predicate Good(v: Wire, k: nat) {
    match v
    case End => true
    case I(_, next) => Good(next, k)
    case L(_, next) => Good(next, k)
    case S(s, next) => |s| < 0x100_0000 && Good(next, k)
    case O(t, e, next) => Accepted(t, e, k) && Good(next, k)
    case V(item, es, next) =>
      |es| < 0x1_0000_0000 && (forall i :: 0 <= i < |es| ==> ItemGood(item, es[i], k)) && Good(next, k)
    case Opt(on, body, next) => (on ==> Good(body, k)) && Good(next, k)
  }

  /** The skipper of type `t` reads exactly constructor `c` with these fields. */
  ghost predicate Reads(t: Type, c: uint32, v: Wire) {
    forall k: nat | k <= 4 && (t == Media ==> k < 4) ::
      Good(v, if t == Media then k + 1 else k) ==> Accepted(t, Enc32(c) + Spell(v), k)
  }

  /** It does not know the constructor. */
  ghost predicate Refuses(t: Type, c: uint32) {
    forall d: bytes, p: nat, k: nat :: At(d, p, Enc32(c)) ==> Skip(t, d, p, k) == None
  }

  // ---- fields and layouts ----

  predicate ItemFits(lay: Layout, item: Item) {
    match item
    case AnInt => lay == Word(1, Stop)
    case ALong => lay == Word(2, Stop)
    case AString => lay == Text(Stop)
    case AnObject(t) => lay == Obj(t, Stop)
  }

  /** The fields are what the layout asks for, when its flag words are `f` and `g`. */
  predicate Fit(lay: Layout, f: nat, g: nat, v: Wire)
    decreases v, lay
  {
    match lay
    case Stop => v.End?
    case Reject => false
    case Word(n, next) =>
      if n == 0 then Fit(next, f, g, v)
      else if v.I? then Fit(if n == 1 then next else Word(n - 1, next), f, g, v.next)
      else v.L? && n >= 2 && Fit(if n == 2 then next else Word(n - 2, next), f, g, v.next)
    case Text(next) => v.S? && Fit(next, f, g, v.next)
    case Flags(next) => v.I? && Fit(next, v.w, g, v.next)
    case Flags2(next) => v.I? && Fit(next, f, v.w, v.next)
    case Obj(t, next) => v.O? && v.t == t && Fit(next, f, g, v.next)
    case Many(item, next) => v.V? && ItemFits(item, v.item) && Fit(next, f, g, v.next)
    case ManyMax(max, item, next) =>
      v.V? && ItemFits(item, v.item) && |v.es| <= max && Fit(next, f, g, v.next)
    case If(k, body, next) =>
      v.Opt? && v.on == Bit(f, k) && (v.on ==> Fit(body, f, g, v.body)) && Fit(next, f, g, v.next)
    case If2(k, body, next) =>
      v.Opt? && v.on == Bit(g, k) && (v.on ==> Fit(body, f, g, v.body)) && Fit(next, f, g, v.next)
  }

  // ---- fields that fit are read ----

  ghost predicate Ready(v: Wire, d: bytes, p: nat, p0: nat, k: nat) {
    Good(v, k) && At(d, p, Spell(v)) && p0 < p && p0 <= |d|
  }

  ghost predicate Walked(lay: Layout, f: nat, g: nat, v: Wire, d: bytes, p: nat, p0: nat, k: nat)
    requires p0 <= |d|
  {
    Run(lay, f, g, d, p, Below(d, p0, k)) == Some(p + |Spell(v)|)
  }

  lemma {:induction false} FitRuns(lay: Layout, f: nat, g: nat, v: Wire, d: bytes, p: nat, p0: nat, k: nat)
    requires Fit(lay, f, g, v) && Ready(v, d, p, p0, k)
    ensures Walked(lay, f, g, v, d, p, p0, k)
    decreases v, lay, 1
  {
    match lay
    case Stop => hide Below, Skip, Body;
    case Word(_, _) => FitRunsWord(lay, f, g, v, d, p, p0, k);
    case Text(_) => FitRunsText(lay, f, g, v, d, p, p0, k);
    case Flags(_) => FitRunsFlags(lay, f, g, v, d, p, p0, k);
    case Flags2(_) => FitRunsFlags(lay, f, g, v, d, p, p0, k);
    case Obj(_, _) => FitRunsObject(lay, f, g, v, d, p, p0, k);
    case Many(_, _) => FitRunsMany(lay, f, g, v, d, p, p0, k);
    case ManyMax(_, _, _) => FitRunsMany(lay, f, g, v, d, p, p0, k);
    case If(_, _, _) => FitRunsIf(lay, f, g, v, d, p, p0, k);
    case If2(_, _, _) => FitRunsIf(lay, f, g, v, d, p, p0, k);
  }

  /** One word fewer to read, one word further on. */
  lemma WordStep(n: nat, m: nat, next: Layout, f: nat, g: nat, d: bytes, p: nat, sub: (Type, nat) -> Option<nat>)
    requires 1 <= m <= n && p + 4 * m <= |d|
    ensures Run(Word(n, next), f, g, d, p, sub) ==
            if n == m then Run(next, f, g, d, p + 4 * m, sub) else Run(Word(n - m, next), f, g, d, p + 4 * m, sub)
  {
  }

  lemma {:induction false} FitRunsWord(lay: Layout, f: nat, g: nat, v: Wire, d: bytes, p: nat, p0: nat, k: nat)
    requires Fit(lay, f, g, v) && Ready(v, d, p, p0, k) && lay.Word?
    ensures Walked(lay, f, g, v, d, p, p0, k)
    decreases v, lay, 0
  {
    hide Below, Skip, Body, At, Enc32, Enc64, Run;
    var n, next := lay.n, lay.next;
    if n == 0 {
      AtInside(d, p, Spell(v));
      NoWords(next, f, g, d, p, Below(d, p0, k));
      FitRuns(next, f, g, v, d, p, p0, k);
    } else {
      var m := if v.I? then 1 else 2;
      var e := if v.I? then Enc32(v.w) else Enc64(v.x);
      AtSplit(d, p, e, Spell(v.next));
      AtInside(d, p, e);
      WordStep(n, m, next, f, g, d, p, Below(d, p0, k));
      FitRuns(if n == m then next else Word(n - m, next), f, g, v.next, d, p + 4 * m, p0, k);
    }
  }

  lemma AtInside(d: bytes, p: nat, e: bytes)
    requires At(d, p, e)
    ensures p + |e| <= |d|
  {
  }

  lemma NoWords(next: Layout, f: nat, g: nat, d: bytes, p: nat, sub: (Type, nat) -> Option<nat>)
    requires p <= |d|
    ensures Run(Word(0, next), f, g, d, p, sub) == Run(next, f, g, d, p, sub)
  {
  }

  lemma {:induction false} FitRunsText(lay: Layout, f: nat, g: nat, v: Wire, d: bytes, p: nat, p0: nat, k: nat)
    requires Fit(lay, f, g, v) && Ready(v, d, p, p0, k) && lay.Text?
    ensures Walked(lay, f, g, v, d, p, p0, k)
    decreases v, lay, 0
  {
    hide Below, Skip, Body, At, EncString, StringEnd;
    AtSplit(d, p, EncString(v.s), Spell(v.next));
    StringThere(d, p, v.s);
    FitRuns(lay.next, f, g, v.next, d, p + |EncString(v.s)|, p0, k);
  }

  lemma {:induction false} FitRunsObject(lay: Layout, f: nat, g: nat, v: Wire, d: bytes, p: nat, p0: nat, k: nat)
    requires Fit(lay, f, g, v) && Ready(v, d, p, p0, k) && lay.Obj?
    ensures Walked(lay, f, g, v, d, p, p0, k)
    decreases v, lay, 0
  {
    hide Below, Skip, Body, At, Accepted;
    AtSplit(d, p, v.e, Spell(v.next));
    ObjectThere(v.t, v.e, d, p, p0, k);
    FitRuns(lay.next, f, g, v.next, d, p + |v.e|, p0, k);
  }

  lemma {:induction false} FitRunsFlags(lay: Layout, f: nat, g: nat, v: Wire, d: bytes, p: nat, p0: nat, k: nat)
    requires Fit(lay, f, g, v) && Ready(v, d, p, p0, k) && (lay.Flags? || lay.Flags2?)
    ensures Walked(lay, f, g, v, d, p, p0, k)
    decreases v, lay, 0
  {
    hide Below, Skip, Body, At, Enc32, Read32;
    AtSplit(d, p, Enc32(v.w), Spell(v.next));
    FlagsReadBack(v.w, d, p);
    FitRuns(lay.next, if lay.Flags? then v.w else f, if lay.Flags? then g else v.w, v.next, d, p + 4, p0, k);
  }

  lemma StringThere(d: bytes, p: nat, s: bytes)
    requires At(d, p, EncString(s)) && |s| < 0x100_0000
    ensures StringEnd(d, p) == Some(p + |EncString(s)|)
  {
    hide EncString, ReadString;
    StringRoundTrip(s, d, p);
    ReadEnds(d, p);
  }

  lemma ReadEnds(d: bytes, p: nat)
    ensures ReadString(d, p).Some? ==> StringEnd(d, p) == Some(ReadString(d, p).value.1)
  {
  }

  lemma ObjectThere(t: Type, e: bytes, d: bytes, p: nat, p0: nat, k: nat)
    requires Accepted(t, e, k) && At(d, p, e) && p0 < p && p0 <= |d|
    ensures Below(d, p0, k)(t, p) == Some(p + |e|)
  {
    hide Skip;
    BelowIsSkip(t, d, p, p0, k);
  }

  lemma {:induction false} FitRunsIf(lay: Layout, f: nat, g: nat, v: Wire, d: bytes, p: nat, p0: nat, k: nat)
    requires Fit(lay, f, g, v) && Ready(v, d, p, p0, k) && (lay.If? || lay.If2?)
    ensures Walked(lay, f, g, v, d, p, p0, k)
    decreases v, lay, 0
  {
    hide Below, Skip, Body, At, Bit, Run;
    StepIf(lay, f, g, d, p, Below(d, p0, k));
    var e := if v.on then Spell(v.body) else [];
    AtSplit(d, p, e, Spell(v.next));
    if v.on { FitRuns(lay.body, f, g, v.body, d, p, p0, k); }
    FitRuns(lay.next, f, g, v.next, d, p + |e|, p0, k);
  }

  lemma {:induction false} FitRunsMany(lay: Layout, f: nat, g: nat, v: Wire, d: bytes, p: nat, p0: nat, k: nat)
    requires Fit(lay, f, g, v) && Ready(v, d, p, p0, k) && (lay.Many? || lay.ManyMax?)
    ensures Walked(lay, f, g, v, d, p, p0, k)
    decreases v, lay, 0
  {
    hide Below, Skip, Body, At, Enc32, Run, RunItems, VectorCount, ItemGood, Concat;
    StepMany(lay, f, g, d, p, Below(d, p0, k));
    var head := Enc32(0x1cb5c415) + Enc32(|v.es|);
    AtSplit(d, p, head + Concat(v.es), Spell(v.next));
    AtSplit(d, p, head, Concat(v.es));
    VectorReadBack(|v.es|, d, p);
    ItemsRun(v.item, v.es, lay.item, f, g, d, p + 8, p0, k);
    FitRuns(lay.next, f, g, v.next, d, p + 8 + |Concat(v.es)|, p0, k);
  }

  lemma {:induction false} ItemsRun(item: Item, es: seq<bytes>, lay: Layout, f: nat, g: nat, d: bytes, p: nat, p0: nat,
                                    k: nat)
    requires ItemFits(lay, item) && (forall i :: 0 <= i < |es| ==> ItemGood(item, es[i], k))
    requires At(d, p, Concat(es)) && p0 < p && p0 <= |d|
    ensures RunItems(lay, |es|, f, g, d, p, Below(d, p0, k)) == Some(p + |Concat(es)|)
    decreases |es|
  {
    hide Below, Skip, Body, At, Run, ItemGood, ItemFits;
    if es != [] {
      AtSplit(d, p, es[0], Concat(es[1..]));
      ItemRuns(item, es[0], lay, f, g, d, p, p0, k);
      ItemsRun(item, es[1..], lay, f, g, d, p + |es[0]|, p0, k);
    }
  }

  lemma ItemRuns(item: Item, e: bytes, lay: Layout, f: nat, g: nat, d: bytes, p: nat, p0: nat, k: nat)
    requires ItemFits(lay, item) && ItemGood(item, e, k) && At(d, p, e) && p0 < p && p0 <= |d|
    ensures Run(lay, f, g, d, p, Below(d, p0, k)) == Some(p + |e|)
  {
    hide Below, Skip, Body, At, EncString, StringEnd, Accepted;
    AtInside(d, p, e);
    match item
    case AnInt =>
    case ALong =>
    case AString =>
      var s :| |s| < 0x100_0000 && e == EncString(s);
      StringThere(d, p, s);
    case AnObject(t) => ObjectThere(t, e, d, p, p0, k);
  }

  /** Where the fields fit the layout of the constructor, the skipper reads them. */
  lemma FitReads(t: Type, c: uint32, v: Wire)
    requires Fit(Body(t, c), 0, 0, v)
    ensures Reads(t, c, v)
  {
    hide Fit, Body, Good, Accepted, Skip, Spell, Enc32;
    forall k: nat | k <= 4 && (t == Media ==> k < 4) && Good(v, if t == Media then k + 1 else k)
      ensures Accepted(t, Enc32(c) + Spell(v), k)
    {
      FitAccepted(t, c, v, k);
    }
  }

  lemma FitAccepted(t: Type, c: uint32, v: Wire, k: nat)
    requires Fit(Body(t, c), 0, 0, v) && k <= 4 && (t == Media ==> k < 4) && Good(v, if t == Media then k + 1 else k)
    ensures Accepted(t, Enc32(c) + Spell(v), k)
  {
    hide Fit, Body, Good, Skip, Spell, Enc32, At;
    var e := Enc32(c) + Spell(v);
    forall d: bytes, p: nat | At(d, p, e) ensures Skip(t, d, p, k) == Some(p + |e|) {
      FitSkips(t, c, v, d, p, k);
    }
  }

  lemma FitSkips(t: Type, c: uint32, v: Wire, d: bytes, p: nat, k: nat)
    requires Fit(Body(t, c), 0, 0, v) && k <= 4 && (t == Media ==> k < 4) && Good(v, if t == Media then k + 1 else k)
    requires At(d, p, Enc32(c) + Spell(v))
    ensures Skip(t, d, p, k) == Some(p + 4 + |Spell(v)|)
  {
    hide Fit, Body, Good, Spell, Enc32, Word32, Run, Below, At;
    AtSplit(d, p, Enc32(c), Spell(v));
    CtorReadBack(c, d, p);
    AtInside(d, p, Enc32(c));
    FitRuns(Body(t, c), 0, 0, v, d, p + 4, p, if t == Media then k + 1 else k);
  }

  /** What `Reads` says, without its words: an object written out, with anything in front of it and behind
      it, is read to its last byte. */
  lemma ReadsAnywhere(t: Type, c: uint32, v: Wire, k: nat, before: bytes, behind: bytes)
    requires Reads(t, c, v) && k <= 4 && (t == Media ==> k < 4) && Good(v, if t == Media then k + 1 else k)
    ensures var e := Enc32(c) + Spell(v); Skip(t, before + e + behind, |before|, k) == Some(|before| + |e|)
  {
    hide Skip, Good, Spell, Enc32;
    var e := Enc32(c) + Spell(v);
    var d := before + e + behind;
    assert d[|before|..|before| + |e|] == e;
    assert Accepted(t, e, k);
  }

  lemma RejectRefuses(t: Type, c: uint32)
    requires Body(t, c) == Reject
    ensures Refuses(t, c)
  {
    hide Body, Enc32, Word32, At;
    forall d: bytes, p: nat, k: nat | At(d, p, Enc32(c)) ensures Skip(t, d, p, k) == None {
      CtorReadBack(c, d, p);
    }
  }

  // ---- fitting, one field at a time ----

  lemma OptFits(k: nat, l: Layout, lay: Layout, f: nat, g: nat, b: Wire, v: Wire)
    requires Fit(l, f, g, b) && Fit(lay, f, g, v)
    ensures Fit(If(k, l, lay), f, g, Opt(On(f, k), b, v)) && Fit(If2(k, l, lay), f, g, Opt(On(g, k), b, v))
  {
    hide Bit;
  }

  lemma FlagRules()
    ensures forall k: nat, l: Layout, lay: Layout, f: nat, g: nat, b: Wire, v: Wire
              {:trigger Fit(If(k, l, lay), f, g, Opt(On(f, k), b, v))} ::
              Fit(l, f, g, b) && Fit(lay, f, g, v) ==> Fit(If(k, l, lay), f, g, Opt(On(f, k), b, v))
    ensures forall k: nat, l: Layout, lay: Layout, f: nat, g: nat, b: Wire, v: Wire
              {:trigger Fit(If2(k, l, lay), f, g, Opt(On(g, k), b, v))} ::
              Fit(l, f, g, b) && Fit(lay, f, g, v) ==> Fit(If2(k, l, lay), f, g, Opt(On(g, k), b, v))
  {
    hide On;
    forall k: nat, l: Layout, lay: Layout, f: nat, g: nat, b: Wire, v: Wire | Fit(l, f, g, b) && Fit(lay, f, g, v)
      ensures Fit(If(k, l, lay), f, g, Opt(On(f, k), b, v)) && Fit(If2(k, l, lay), f, g, Opt(On(g, k), b, v))
    {
      OptFits(k, l, lay, f, g, b, v);
    }
  }

  /** Everything a statement about a type needs: fields that fit are read, and how a list of fields fits a
      layout when its tail does. */
  lemma Rules(t: Type)
    ensures forall c: uint32, v: Wire {:trigger Reads(t, c, v)} :: Fit(Body(t, c), 0, 0, v) ==> Reads(t, c, v)
    ensures forall c: uint32 {:trigger Refuses(t, c)} :: Body(t, c) == Reject ==> Refuses(t, c)
    ensures forall f: nat, g: nat {:trigger Fit(Stop, f, g, End)} :: Fit(Stop, f, g, End)
    ensures forall n: nat, lay: Layout, f: nat, g: nat, a: uint32, v: Wire
              {:trigger Fit(Word(n, lay), f, g, I(a, v))} ::
              (if n == 1 then Fit(lay, f, g, v) else n > 1 && Fit(Word(n - 1, lay), f, g, v)) ==>
              Fit(Word(n, lay), f, g, I(a, v))
    ensures forall n: nat, lay: Layout, f: nat, g: nat, x: uint64, v: Wire
              {:trigger Fit(Word(n, lay), f, g, L(x, v))} ::
              (if n == 2 then Fit(lay, f, g, v) else n > 2 && Fit(Word(n - 2, lay), f, g, v)) ==>
              Fit(Word(n, lay), f, g, L(x, v))
    ensures forall lay: Layout, f: nat, g: nat, s: bytes, v: Wire {:trigger Fit(Text(lay), f, g, S(s, v))} ::
              Fit(lay, f, g, v) ==> Fit(Text(lay), f, g, S(s, v))
    ensures forall lay: Layout, f: nat, g: nat, a: uint32, v: Wire {:trigger Fit(Flags(lay), f, g, I(a, v))} ::
              Fit(lay, a, g, v) ==> Fit(Flags(lay), f, g, I(a, v))
    ensures forall lay: Layout, f: nat, g: nat, a: uint32, v: Wire {:trigger Fit(Flags2(lay), f, g, I(a, v))} ::
              Fit(lay, f, a, v) ==> Fit(Flags2(lay), f, g, I(a, v))
    ensures forall t: Type, lay: Layout, f: nat, g: nat, e: bytes, v: Wire
              {:trigger Fit(Obj(t, lay), f, g, O(t, e, v))} ::
              Fit(lay, f, g, v) ==> Fit(Obj(t, lay), f, g, O(t, e, v))
    ensures forall l: Layout, lay: Layout, f: nat, g: nat, i: Item, es: seq<bytes>, v: Wire
              {:trigger Fit(Many(l, lay), f, g, V(i, es, v))} ::
              ItemFits(l, i) && Fit(lay, f, g, v) ==> Fit(Many(l, lay), f, g, V(i, es, v))
    ensures forall k: nat, l: Layout, lay: Layout, f: nat, g: nat, b: Wire, v: Wire
              {:trigger Fit(If(k, l, lay), f, g, Opt(On(f, k), b, v))} ::
              Fit(l, f, g, b) && Fit(lay, f, g, v) ==> Fit(If(k, l, lay), f, g, Opt(On(f, k), b, v))
    ensures forall k: nat, l: Layout, lay: Layout, f: nat, g: nat, b: Wire, v: Wire
              {:trigger Fit(If2(k, l, lay), f, g, Opt(On(g, k), b, v))} ::
              Fit(l, f, g, b) && Fit(lay, f, g, v) ==> Fit(If2(k, l, lay), f, g, Opt(On(g, k), b, v))
    ensures forall m: nat, l: Layout, lay: Layout, f: nat, g: nat, i: Item, es: seq<bytes>, v: Wire
              {:trigger Fit(ManyMax(m, l, lay), f, g, V(i, es, v))} ::
              |es| <= m && ItemFits(l, i) && Fit(lay, f, g, v) ==> Fit(ManyMax(m, l, lay), f, g, V(i, es, v))
  {
    hide Reads, Refuses, Body, On, ItemFits, Skip;
    FlagRules();
    forall c: uint32, v: Wire | Fit(Body(t, c), 0, 0, v) ensures Reads(t, c, v) { FitReads(t, c, v); }
    forall c: uint32 | Body(t, c) == Reject ensures Refuses(t, c) { RejectRefuses(t, c); }
  }
}
