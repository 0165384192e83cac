/** What the TL reader and writer mean on byte sequences (`src/core/tl_serial.c`). */
module TlCodec {
  import opened Bytes

  const BOOL_TRUE: uint32 := 0x997275b5
  const BOOL_FALSE: uint32 := 0xbc799737
  const VECTOR: uint32 := 0x1cb5c415

  /** Where a read of `n` bytes leaves the cursor: past the bytes, or clamped to the end. */
  function After(d: bytes, p: nat, n: nat): (q: nat)
    ensures p <= |d| ==> p <= q <= |d|
    ensures q <= |d|
  {
    if p + n <= |d| then p + n else |d|
  }

  /** Where a cursor that was at `p` may be later: not before `p`, less than four bytes past
      the end, and inside and aligned when buffer and start are aligned. */
  predicate CursorOk(d: bytes, p: nat, q: nat) {
    && (if p <= |d| then p else |d|) <= q < |d| + 4
    && (|d| % 4 == 0 && p % 4 == 0 && p <= |d| ==> q % 4 == 0 && q <= |d|)
  }

  /** `read_le32`: the word at the cursor, or 0 when four bytes are not there. */
  function Read32(d: bytes, p: nat): (v: uint32)
  {
    if p + 4 <= |d| then Word32(d, p) else 0
  }

  function Read64(d: bytes, p: nat): (v: uint64)
  {
    if p + 8 <= |d| then Word64(d, p) else 0
  }

  /** A raw read of `n` bytes: the bytes, or zeros when they are not there. */
  function ReadRaw(d: bytes, p: nat, n: nat): (s: bytes)
    ensures |s| == n
  {
    if p + n <= |d| then d[p..p + n] else Zeros(n)
  }

  /** A multiple of four that rounds `n` up. */
  function Pad4(n: nat): (m: nat)
    ensures n <= m < n + 4 && m % 4 == 0
  {
    (n + 3) / 4 * 4
  }

  /** Header size and content length announced by a TL string at `p`. */
  function StringHead(d: bytes, p: nat): (r: Option<(nat, nat)>)
    ensures r.Some? ==> p < |d| && (r.value.0 == 1 || r.value.0 == 4) && r.value.1 < 0x100_0000
    ensures r.Some? ==> p + r.value.0 <= |d|
  {
    if p >= |d| then None
    else if d[p] < 254 then Some((1, d[p] as int))
    else if p + 4 > |d| then None
    else Some((4, d[p + 1] as int + 0x100 * d[p + 2] as int + 0x1_0000 * d[p + 3] as int))
  }

  /** `tl_read_bytes`: the content and the cursor after header, content and padding.
      The padding is added without looking whether the buffer still holds it. */
  function ReadString(d: bytes, p: nat): (r: Option<(bytes, nat)>)
    ensures r.Some? ==> p < |d| && p + 4 <= r.value.1 < |d| + 4 && (r.value.1 - p) % 4 == 0
  {
    match StringHead(d, p)
    case None => None
    case Some((h, n)) =>
      if p + h + n > |d| then None
      else Some((d[p + h..p + h + n], p + Pad4(h + n)))
  }

  /** The cursor after a TL string, which is all the skippers want of it. */
  function StringEnd(d: bytes, p: nat): (r: Option<nat>)
    ensures r.Some? ==> p < |d| && p + 4 <= r.value < |d| + 4 && (r.value - p) % 4 == 0
    ensures r.Some? <==> ReadString(d, p).Some?
    ensures r.Some? ==> r.value == ReadString(d, p).value.1
  {
    match ReadString(d, p)
    case None => None
    case Some((_, q)) => Some(q)
  }

  /** The length prefix: one byte below 254, otherwise 0xFE and the low 24 bits. */
  function LengthPrefix(n: nat): (h: bytes)
    ensures |h| == if n < 254 then 1 else 4
  {
    if n < 254 then [n as byte]
    else [0xFE, (n % 0x100) as byte, (n / 0x100 % 0x100) as byte, (n / 0x1_0000 % 0x100) as byte]
  }

  function Zeros(n: nat): (z: bytes)
    ensures |z| == n
  {
    seq(n, _ => 0)
  }

  /** `tl_write_bytes`: length prefix, content, zero padding. */
  function EncString(s: bytes): (e: bytes)
    ensures |e| % 4 == 0 && |e| == Pad4((if |s| < 254 then 1 else 4) + |s|)
  {
    var h := LengthPrefix(|s|);
    h + s + Zeros(Pad4(|h| + |s|) - |h| - |s|)
  }

  /** A byte string is read back as it was written exactly when its length fits the
      24-bit prefix; a longer one comes back cut to its length modulo 2^24. */
  lemma StringRoundTrip(s: bytes, d: bytes, p: nat)
    requires At(d, p, EncString(s))
    ensures ReadString(d, p) == Some((s, p + |EncString(s)|)) <==> |s| < 0x100_0000
    ensures |s| >= 0x100_0000 ==> ReadString(d, p).Some? && ReadString(d, p).value.0 == s[..|s| % 0x100_0000]
  {
    hide LengthPrefix, StringHead, Pad4, Zeros;
    var h := LengthPrefix(|s|);
    var z := Zeros(Pad4(|h| + |s|) - |h| - |s|);
    AtSplit(d, p, h + s, z);
    AtSplit(d, p, h, s);
    LengthPrefixReadBack(|s|, d, p);
    if |s| >= 0x100_0000 {
      assert d[p + 4..p + 4 + |s| % 0x100_0000] == d[p + 4..p + 4 + |s|][..|s| % 0x100_0000];
    }
  }

  /** Which bytes are read as a string, whoever wrote them: a length in one byte below 254, or in the three
      bytes behind any other; content that does not fit the buffer is refused. */
  lemma StringForms(d: bytes, p: nat)
    requires p < |d|
    ensures d[p] < 254 ==>
              var n := d[p] as int;
              ReadString(d, p) == if p + 1 + n > |d| then None
                                  else Some((d[p + 1..p + 1 + n], p + (n + 4) / 4 * 4))
    ensures d[p] >= 254 && p + 4 > |d| ==> ReadString(d, p) == None
    ensures d[p] >= 254 && p + 4 <= |d| ==>
              var n := d[p + 1] as int + 0x100 * d[p + 2] as int + 0x1_0000 * d[p + 3] as int;
              ReadString(d, p) == if p + 4 + n > |d| then None
                                  else Some((d[p + 4..p + 4 + n], p + (n + 7) / 4 * 4))
  {
  }

  /** A read that does not fit gives zeros and leaves the cursor at the end. */
  lemma ShortReads(d: bytes, p: nat, n: nat)
    ensures p + 4 > |d| ==> Read32(d, p) == 0
    ensures p + 8 > |d| ==> Read64(d, p) == 0
    ensures p + n > |d| ==> After(d, p, n) == |d| && forall i :: 0 <= i < n ==> ReadRaw(d, p, n)[i] == 0
    ensures p + n <= |d| ==> After(d, p, n) == p + n && ReadRaw(d, p, n) == d[p..p + n]
  {
  }

  lemma LengthPrefixReadBack(n: nat, d: bytes, p: nat)
    requires At(d, p, LengthPrefix(n))
    ensures StringHead(d, p) == Some(if n < 254 then (1, n) else (4, n % 0x100_0000))
  {
    var h := LengthPrefix(n);
    assert d[p] == d[p..p + |h|][0];
    if n >= 254 {
      assert d[p + 1] == d[p..p + 4][1] && d[p + 2] == d[p..p + 4][2] && d[p + 3] == d[p..p + 4][3];
      Low24(n);
    }
  }

  lemma Low24(n: nat)
    ensures n % 0x100 + 0x100 * (n / 0x100 % 0x100) + 0x1_0000 * (n / 0x1_0000 % 0x100) == n % 0x100_0000
  {
    var a := n / 0x100;
    var b := a / 0x100;
    assert n / 0x1_0000 == b;
    assert a == a % 0x100 + 0x100 * b && b == b % 0x100 + 0x100 * (b / 0x100);
    Remainder24(n, b / 0x100, n % 0x100 + 0x100 * (a % 0x100) + 0x1_0000 * (b % 0x100));
  }

  lemma Remainder24(n: nat, q: nat, r: nat)
    requires n == 0x100_0000 * q + r && r < 0x100_0000
    ensures n % 0x100_0000 == r
  {
  }

  /** On a buffer of a multiple of four bytes an aligned cursor stays aligned and inside it. */
  lemma StringStaysAligned(d: bytes, p: nat)
    requires |d| % 4 == 0 && p % 4 == 0
    ensures StringEnd(d, p).Some? ==> StringEnd(d, p).value % 4 == 0 && StringEnd(d, p).value <= |d|
  {
  }

  /** No string read at `p` leaves a buffer of `len` bytes, whatever the bytes are. */
  ghost predicate StaysInside(len: nat, p: nat) {
    forall d: bytes | |d| == len && StringEnd(d, p).Some? :: StringEnd(d, p).value <= len
  }

  /** The padded advance stays inside the buffer on all bytes exactly when there is nothing left to
      read, a whole number of words is left, or more than the longest string with its padding. */
  lemma StringStaysInside(len: nat, p: nat)
    ensures StaysInside(len, p) <==> p >= len || (len - p) % 4 == 0 || len - p >= 0x100_0004
  {
    if p < len && (len - p) % 4 != 0 && len - p < 0x100_0004 {
      var d := FillingString(len, p);
      assert StringEnd(d, p).value > len;
    }
    forall d: bytes | |d| == len && StringEnd(d, p).Some? && ((len - p) % 4 == 0 || len - p >= 0x100_0004)
      ensures StringEnd(d, p).value <= len
    {
      PaddedInside(d, p);
    }
  }

  lemma PaddedInside(d: bytes, p: nat)
    requires ReadString(d, p).Some? && ((|d| - p) % 4 == 0 || |d| - p >= 0x100_0004)
    ensures ReadString(d, p).value.1 <= |d|
  {
    hide StringHead;
    var (h, n) := StringHead(d, p).value;
    PadStaysBelow(h + n, |d| - p);
  }

  lemma PadStaysBelow(t: nat, room: nat)
    requires t <= room && (room % 4 == 0 || (t <= 0x100_0003 && room >= 0x100_0004))
    ensures Pad4(t) <= room
  {
  }

  /** Bytes on which the string at `p` fills the rest of the buffer to its last byte. */
  lemma FillingString(len: nat, p: nat) returns (d: bytes)
    requires p < len && len - p < 0x100_0004
    ensures |d| == len && StringEnd(d, p) == Some(p + Pad4(len - p))
  {
    var rest := len - p;
    if rest <= 254 {
      d := Zeros(p) + [(rest - 1) as byte] + Zeros(rest - 1);
      assert d[p] == (rest - 1) as byte;
      assert StringHead(d, p) == Some((1, rest - 1));
    } else {
      var n := rest - 4;
      var prefix: bytes := [0xFE, (n % 0x100) as byte, (n / 0x100 % 0x100) as byte, (n / 0x1_0000 % 0x100) as byte];
      d := Zeros(p) + prefix + Zeros(n);
      assert d[p] == 0xFE && d[p + 1] == prefix[1] && d[p + 2] == prefix[2] && d[p + 3] == prefix[3];
      Low24(n);
      assert StringHead(d, p) == Some((4, n));
    }
  }

  /** So on one byte holding the length 0 the cursor ends three past the end. */
  lemma StringCanOvershoot()
    ensures StringEnd([0], 0) == Some(4) && !StaysInside(1, 0)
  {
    var d: bytes := [0];
    assert StringHead(d, 0) == Some((1, 0));
    assert |d| == 1 && StringEnd(d, 0).value > 1;
  }

  /** A typed TL value, as one writer call takes it and one reader call returns it. */
  datatype Item =
    | Int(i: int) | Long(l: int)
    | Int128(b16: bytes) | Int256(b32: bytes)
    | Bool(b: bool) | VectorBegin(n: uint32) | Str(s: bytes)

  predicate Writable(x: Item) {
    match x
    case Int(i) => -0x8000_0000 <= i < 0x8000_0000
    case Long(l) => -0x8000_0000_0000_0000 <= l < 0x8000_0000_0000_0000
    case Int128(b) => |b| == 16
    case Int256(b) => |b| == 32
    case Str(s) => |s| < 0x100_0000
    case _ => true
  }

  function EncItem(x: Item): (e: bytes)
    requires Writable(x)
    ensures |e| % 4 == 0
  {
    match x
    case Int(i) => Enc32(Unsigned32(i))
    case Long(l) => Enc64(Unsigned64(l))
    case Int128(b) => b
    case Int256(b) => b
    case Bool(b) => Enc32(if b then BOOL_TRUE else BOOL_FALSE)
    case VectorBegin(n) => Enc32(VECTOR) + Enc32(n)
    case Str(s) => EncString(s)
  }

  /** The bytes of a string: its length in one byte, or 0xFE and three bytes, least significant first;
      the content; zeros up to a multiple of four, three at most. */
  lemma StringBytes(s: bytes)
    ensures var e, h := EncString(s), if |s| < 254 then 1 else 4;
            && |e| % 4 == 0 && h + |s| <= |e| < h + |s| + 4
            && e[h..h + |s|] == s
            && (forall i :: h + |s| <= i < |e| ==> e[i] == 0)
            && (|s| < 254 ==> e[0] as int == |s|)
            && (254 <= |s| < 0x100_0000 ==>
                  e[0] == 0xFE && e[1] as int + 0x100 * e[2] as int + 0x1_0000 * e[3] as int == |s|)
  {
    Low24(|s|);
  }

  /** The words and constructors of the fixed-size values. */
  lemma ItemBytes(n: uint32, i: int, l: int, s: bytes)
    requires -0x8000_0000 <= i < 0x8000_0000 && -0x8000_0000_0000_0000 <= l < 0x8000_0000_0000_0000
    ensures EncItem(Bool(true)) == [0xb5, 0x75, 0x72, 0x99] && EncItem(Bool(false)) == [0x37, 0x97, 0x79, 0xbc]
    ensures EncItem(VectorBegin(n)) == [0x15, 0xc4, 0xb5, 0x1c] + Enc32(n)
    ensures EncItem(Int(i)) == Enc32(if i < 0 then i + TWO_TO_32 else i)
    ensures EncItem(Long(l)) == Enc64(if l < 0 then l + TWO_TO_64 else l)
    ensures |s| == 16 ==> EncItem(Int128(s)) == s
    ensures |s| == 32 ==> EncItem(Int256(s)) == s
    ensures |s| < 0x100_0000 ==> EncItem(Str(s)) == EncString(s)
  {
    hide EncString, Enc32, Enc64;
    ConstructorBytes();
    assert EncItem(VectorBegin(n)) == Enc32(VECTOR) + Enc32(n);
  }

  lemma ConstructorBytes()
    ensures Enc32(VECTOR) == [0x15, 0xc4, 0xb5, 0x1c]
    ensures Enc32(BOOL_TRUE) == [0xb5, 0x75, 0x72, 0x99] && Enc32(BOOL_FALSE) == [0x37, 0x97, 0x79, 0xbc]
  {
  }

  datatype Kind = KInt | KLong | KInt128 | KInt256 | KBool | KVectorBegin | KText

  function KindOf(x: Item): Kind {
    match x
    case Int(_) => KInt case Long(_) => KLong
    case Int128(_) => KInt128 case Int256(_) => KInt256
    case Bool(_) => KBool case VectorBegin(_) => KVectorBegin case Str(_) => KText
  }

  /** One typed read. A failed check (an unknown bool, a wrong vector constructor, a string
      that does not fit) gives None; short fixed-width reads give zeros, as in the reader. */
  function DecItem(k: Kind, d: bytes, p: nat): (r: (Option<Item>, nat)) {
    match k
    case KInt => (Some(Int(Signed32(Read32(d, p)))), After(d, p, 4))
    case KLong => (Some(Long(Signed64(Read64(d, p)))), After(d, p, 8))
    case KInt128 => (Some(Int128(ReadRaw(d, p, 16))), After(d, p, 16))
    case KInt256 => (Some(Int256(ReadRaw(d, p, 32))), After(d, p, 32))
    case KBool =>
      (if Read32(d, p) == BOOL_TRUE then Some(Bool(true)) else if Read32(d, p) == BOOL_FALSE then Some(Bool(false))
       else None,
       After(d, p, 4))
    case KVectorBegin =>
      var q := After(d, p, 4);
      (if Read32(d, p) == VECTOR then Some(VectorBegin(Read32(d, q))) else None, After(d, q, 4))
    case KText =>
      match ReadString(d, p)
      case None => (None, |d|)
      case Some((s, q)) => (Some(Str(s)), q)
  }

  lemma ItemRoundTrip(x: Item, d: bytes, p: nat)
    requires Writable(x) && At(d, p, EncItem(x))
    ensures DecItem(KindOf(x), d, p) == (Some(x), p + |EncItem(x)|)
  {
    match x
    case Int(i) => Word32OfEnc32(Unsigned32(i), d, p);
    case Long(l) => Word64OfEnc64(Unsigned64(l), d, p);
    case Bool(b) => Word32OfEnc32(if b then BOOL_TRUE else BOOL_FALSE, d, p);
    case VectorBegin(n) =>
      AtSplit(d, p, Enc32(VECTOR), Enc32(n));
      Word32OfEnc32(VECTOR, d, p);
      Word32OfEnc32(n, d, p + 4);
    case Str(s) => StringRoundTrip(s, d, p);
    case _ =>
  }

  function EncItems(xs: seq<Item>): (e: bytes)
    requires forall i | 0 <= i < |xs| :: Writable(xs[i])
  {
    if xs == [] then [] else EncItem(xs[0]) + EncItems(xs[1..])
  }

  /** Whatever is written, the output length is a multiple of four. */
  lemma {:induction false} ItemsAligned(xs: seq<Item>)
    requires forall i | 0 <= i < |xs| :: Writable(xs[i])
    ensures |EncItems(xs)| % 4 == 0
  {
    hide EncItem, Writable;
    if xs != [] {
      ItemsAligned(xs[1..]);
      SumAligned(|EncItem(xs[0])|, |EncItems(xs[1..])|);
    }
  }

  lemma SumAligned(a: nat, b: nat)
    requires a % 4 == 0 && b % 4 == 0
    ensures (a + b) % 4 == 0
  {
  }

  function DecItems(ks: seq<Kind>, d: bytes, p: nat): (r: (seq<Option<Item>>, nat))
    decreases |ks|
  {
    if ks == [] then ([], p)
    else
      var (x, q) := DecItem(ks[0], d, p);
      var (xs, q') := DecItems(ks[1..], d, q);
      ([x] + xs, q')
  }

  function Kinds(xs: seq<Item>): (ks: seq<Kind>)
    ensures |ks| == |xs|
  {
    seq(|xs|, i requires 0 <= i < |xs| => KindOf(xs[i]))
  }

  function Present(xs: seq<Item>): (os: seq<Option<Item>>)
    ensures |os| == |xs|
  {
    seq(|xs|, i requires 0 <= i < |xs| => Some(xs[i]))
  }

  /** Any list of typed values, written and then read with the matching types, comes back
      whole, and the cursor ends exactly at the end of what was written. */
  lemma {:induction false} ItemsRoundTrip(xs: seq<Item>, d: bytes, p: nat)
    requires forall i | 0 <= i < |xs| :: Writable(xs[i])
    requires At(d, p, EncItems(xs))
    ensures DecItems(Kinds(xs), d, p) == (Present(xs), p + |EncItems(xs)|)
    decreases |xs|
  {
    hide EncItem, DecItem, Writable;
    if xs != [] {
      var e, rest := EncItem(xs[0]), EncItems(xs[1..]);
      AtSplit(d, p, e, rest);
      ItemRoundTrip(xs[0], d, p);
      ItemsRoundTrip(xs[1..], d, p + |e|);
      assert Kinds(xs)[1..] == Kinds(xs[1..]);
      assert Present(xs) == [Some(xs[0])] + Present(xs[1..]);
    }
  }

  // ---- what stands first ----

  lemma WordHere(d: bytes, p: nat, w: uint32, rest: bytes)
    requires At(d, p, Enc32(w) + rest)
    ensures Read32(d, p) == w && After(d, p, 4) == p + 4 && At(d, p + 4, rest)
  {
    hide Enc32, Word32;
    AtSplit(d, p, Enc32(w), rest);
    Word32OfEnc32(w, d, p);
  }

  lemma LongHere(d: bytes, p: nat, w: uint64, rest: bytes)
    requires At(d, p, Enc64(w) + rest)
    ensures Read64(d, p) == w && After(d, p, 8) == p + 8 && At(d, p + 8, rest)
  {
    hide Enc64, Word64;
    AtSplit(d, p, Enc64(w), rest);
    Word64OfEnc64(w, d, p);
  }
}
