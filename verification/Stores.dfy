/** The contents of the session file (`src/app/session_store.c`): up to five data centres and a home,
    their byte format, and the map they stand for. */
module Stores {
  import opened Buffers
  import opened Bytes

  const MAGIC: bytes := [0x54, 0x47, 0x43, 0x53]
  const MAX_DCS := 5
  const HEADER := 16
  const ENTRY_SIZE := 276
  const V1_SIZE := 284
  const MAX_SIZE := 1396

  type int32 = x: int | -0x8000_0000 <= x < 0x8000_0000

  /** What is kept of a session. */
  datatype Saved = Saved(salt: uint64, sessionId: uint64, authKey: bytes)

  datatype Entry = Entry(dc: int32, saved: Saved)

  datatype Store = Store(home: int32, entries: seq<Entry>)

  predicate Valid(st: Store) {
    |st.entries| <= MAX_DCS && forall i :: 0 <= i < |st.entries| ==> |st.entries[i].saved.authKey| == AUTH_KEY_SIZE
  }

  const EMPTY := Store(0, [])

  // ---- bytes ----

  function EncEntry(e: Entry): (s: bytes)
    requires |e.saved.authKey| == AUTH_KEY_SIZE
    ensures |s| == ENTRY_SIZE
  {
    Enc32(Unsigned32(e.dc)) + Enc64(e.saved.salt) + Enc64(e.saved.sessionId) + e.saved.authKey
  }

  function EncEntries(es: seq<Entry>): (s: bytes)
    requires forall i :: 0 <= i < |es| ==> |es[i].saved.authKey| == AUTH_KEY_SIZE
    ensures |s| == ENTRY_SIZE * |es|
  {
    if es == [] then [] else EncEntries(es[..|es| - 1]) + EncEntry(es[|es| - 1])
  }

  function EncHeader(st: Store): (s: bytes)
    requires Valid(st)
    ensures |s| == HEADER
  {
    MAGIC + Enc32(2) + Enc32(Unsigned32(st.home)) + Enc32(|st.entries|)
  }

  function Serialised(st: Store): (s: bytes)
    requires Valid(st)
    ensures |s| == HEADER + ENTRY_SIZE * |st.entries|
  {
    EncHeader(st) + EncEntries(st.entries)
  }

  function DecEntry(buf: bytes, p: nat): (e: Entry)
    requires p + ENTRY_SIZE <= |buf|
    ensures |e.saved.authKey| == AUTH_KEY_SIZE
  {
    Entry(Signed32(Word32(buf, p)), Saved(Word64(buf, p + 4), Word64(buf, p + 12), buf[p + 20..p + 276]))
  }

  function DecEntries(buf: bytes, n: nat): (es: seq<Entry>)
    requires HEADER + ENTRY_SIZE * n <= |buf|
    ensures |es| == n && forall i :: 0 <= i < n ==> |es[i].saved.authKey| == AUTH_KEY_SIZE
  {
    if n == 0 then [] else DecEntries(buf, n - 1) + [DecEntry(buf, HEADER + ENTRY_SIZE * (n - 1))]
  }

  /** What one `fread` gets of the file. */
  function Buffered(file: bytes): bytes {
    if |file| > MAX_SIZE then file[..MAX_SIZE] else file
  }

  /** `read_file_locked`: None for a file that is corrupt, truncated or of another version. */
  function Parsed(file: bytes): (r: Option<Store>)
    ensures r.Some? ==> Valid(r.value)
  {
    var buf := Buffered(file);
    if |buf| < HEADER || buf[..4] != MAGIC then None
    else if Word32(buf, 4) == 1 then
      if |buf| < V1_SIZE then None
      else
        var dc := Signed32(Word32(buf, 8));
        Some(Store(dc, [Entry(dc, Saved(Word64(buf, 12), Word64(buf, 20), buf[28..284]))]))
    else if Word32(buf, 4) != 2 || Word32(buf, 12) > MAX_DCS || |buf| < HEADER + ENTRY_SIZE * Word32(buf, 12) then None
    else Some(Store(Signed32(Word32(buf, 8)), DecEntries(buf, Word32(buf, 12))))
  }

  lemma EntryReadsBack(e: Entry, d: bytes, p: nat)
    requires |e.saved.authKey| == AUTH_KEY_SIZE && At(d, p, EncEntry(e))
    ensures DecEntry(d, p) == e
  {
    hide Enc32, Enc64, Word32, Word64;
    var a, b, c := Enc32(Unsigned32(e.dc)), Enc64(e.saved.salt), Enc64(e.saved.sessionId);
    AtSplit(d, p, a + b + c, e.saved.authKey);
    AtSplit(d, p, a + b, c);
    AtSplit(d, p, a, b);
    Word32OfEnc32(Unsigned32(e.dc), d, p);
    Word64OfEnc64(e.saved.salt, d, p + 4);
    Word64OfEnc64(e.saved.sessionId, d, p + 12);
  }

  lemma {:induction false} EntriesReadBack(es: seq<Entry>, d: bytes)
    requires forall i :: 0 <= i < |es| ==> |es[i].saved.authKey| == AUTH_KEY_SIZE
    requires At(d, HEADER, EncEntries(es))
    ensures DecEntries(d, |es|) == es
    decreases |es|
  {
    hide EncEntry, DecEntry, At;
    assert HEADER + ENTRY_SIZE * |es| <= |d| by { AtFits(d, HEADER, EncEntries(es)); }
    if es != [] {
      var n := |es| - 1;
      AtSplit(d, HEADER, EncEntries(es[..n]), EncEntry(es[n]));
      EntriesReadBack(es[..n], d);
      EntryReadsBack(es[n], d, HEADER + ENTRY_SIZE * n);
      assert es == es[..n] + [es[n]];
    }
  }

  lemma AtFits(d: bytes, p: nat, e: bytes)
    requires At(d, p, e)
    ensures p + |e| <= |d|
  {
  }

  /** Reading undoes writing. */
  lemma ParsedSerialised(st: Store)
    requires Valid(st)
    ensures Parsed(Serialised(st)) == Some(st)
  {
    hide Enc32, Word32, EncEntries, DecEntries;
    var d := Serialised(st);
    var v, h, n := Enc32(2), Enc32(Unsigned32(st.home)), Enc32(|st.entries|);
    assert Buffered(d) == d;
    assert d[..4] == MAGIC && d[4..8] == v && d[8..12] == h && d[12..16] == n;
    Word32OfEnc32(2, d, 4);
    Word32OfEnc32(Unsigned32(st.home), d, 8);
    Word32OfEnc32(|st.entries|, d, 12);
    assert At(d, HEADER, EncEntries(st.entries)) by { assert d[16..] == EncEntries(st.entries); }
    EntriesReadBack(st.entries, d);
  }

  /** A file of version 1, as bytes: one data centre, which is the home. What follows is not looked at; a
      file cut short is refused. */
  lemma VersionOne(dc: int32, salt: uint64, sessionId: uint64, key: bytes, rest: bytes)
    requires |key| == AUTH_KEY_SIZE
    ensures Parsed(V1Bytes(dc, salt, sessionId, key) + rest) ==
            Some(Store(dc, [Entry(dc, Saved(salt, sessionId, key))]))
  {
    hide Enc32, Enc64, Word32, Word64;
    var v, d, a, b := Enc32(1), Enc32(Unsigned32(dc)), Enc64(salt), Enc64(sessionId);
    var file := V1Bytes(dc, salt, sessionId, key) + rest;
    var buf := Buffered(file);
    assert buf[..284] == V1Bytes(dc, salt, sessionId, key);
    assert buf[..4] == [0x54, 0x47, 0x43, 0x53] && buf[4..8] == v && buf[8..12] == d && buf[12..20] == a
           && buf[20..28] == b && buf[28..284] == key;
    Word32OfEnc32(1, buf, 4);
    Word32OfEnc32(Unsigned32(dc), buf, 8);
    Word64OfEnc64(salt, buf, 12);
    Word64OfEnc64(sessionId, buf, 20);
  }

  function V1Bytes(dc: int32, salt: uint64, sessionId: uint64, key: bytes): (s: bytes)
    requires |key| == AUTH_KEY_SIZE
    ensures |s| == 284
  {
    [0x54, 0x47, 0x43, 0x53] + Enc32(1) + Enc32(Unsigned32(dc)) + Enc64(salt) + Enc64(sessionId) + key
  }

  lemma VersionOneCut(dc: int32, salt: uint64, sessionId: uint64, key: bytes, n: nat)
    requires |key| == AUTH_KEY_SIZE && n < 284
    ensures Parsed(V1Bytes(dc, salt, sessionId, key)[..n]).None?
  {
    hide Enc32, Enc64, Word32, Word64;
    var buf := V1Bytes(dc, salt, sessionId, key)[..n];
    if n >= 16 {
      var v := Enc32(1);
      assert buf[4..8] == v;
      Word32OfEnc32(1, buf, 4);
    }
  }

  /** The bytes of a file that is written: header and entries at their places. */
  lemma FileBytes(st: Store, i: nat)
    requires Valid(st) && i < |st.entries|
    ensures var s, p, e := Serialised(st), 16 + 276 * i, st.entries[i];
            && s[..4] == [0x54, 0x47, 0x43, 0x53] && s[4..8] == [2, 0, 0, 0]
            && s[8..12] == Enc32(Unsigned32(st.home)) && s[12..16] == [|st.entries| as byte, 0, 0, 0]
            && |s| == 16 + 276 * |st.entries|
            && s[p..p + 4] == Enc32(Unsigned32(e.dc)) && s[p + 4..p + 12] == Enc64(e.saved.salt)
            && s[p + 12..p + 20] == Enc64(e.saved.sessionId) && s[p + 20..p + 276] == e.saved.authKey
  {
    hide Enc32, Enc64, EncEntries;
    var s, p, e := Serialised(st), 16 + 276 * i, st.entries[i];
    SmallWord(2);
    SmallWord(|st.entries|);
    EntryPlace(st.entries, i);
    var es := EncEntries(st.entries);
    assert s[p..p + 276] == es[276 * i..276 * i + 276];
    EntryBytes(e, s, p);
  }

  lemma SmallWord(n: nat)
    requires n < 256
    ensures Enc32(n) == [n as byte, 0, 0, 0]
  {
  }

  lemma {:induction false} EntryPlace(es: seq<Entry>, i: nat)
    requires i < |es| && forall j :: 0 <= j < |es| ==> |es[j].saved.authKey| == AUTH_KEY_SIZE
    ensures EncEntries(es)[ENTRY_SIZE * i..ENTRY_SIZE * i + ENTRY_SIZE] == EncEntry(es[i])
    decreases |es|
  {
    hide EncEntry;
    if i < |es| - 1 { EntryPlace(es[..|es| - 1], i); }
  }

  lemma EntryBytes(e: Entry, s: bytes, p: nat)
    requires |e.saved.authKey| == AUTH_KEY_SIZE && p + 276 <= |s| && s[p..p + 276] == EncEntry(e)
    ensures s[p..p + 4] == Enc32(Unsigned32(e.dc)) && s[p + 4..p + 12] == Enc64(e.saved.salt)
    ensures s[p + 12..p + 20] == Enc64(e.saved.sessionId) && s[p + 20..p + 276] == e.saved.authKey
  {
    hide Enc32, Enc64;
    var a, b, c := Enc32(Unsigned32(e.dc)), Enc64(e.saved.salt), Enc64(e.saved.sessionId);
    AtSplit(s, p, a + b + c, e.saved.authKey);
    AtSplit(s, p, a + b, c);
    AtSplit(s, p, a, b);
  }

  // ---- loops ----

  /** The buffer of `write_file_atomic`. */
  method Serialise(st: Store) returns (file: bytes)
    requires Valid(st)
    ensures file == Serialised(st)
  {
    hide EncEntry, EncHeader;
    var buf := new byte[MAX_SIZE];
    Copy(EncHeader(st), buf, 0);
    assert buf[..HEADER] == buf[0..HEADER];
    for i := 0 to |st.entries|
      invariant buf[..HEADER + ENTRY_SIZE * i] == EncHeader(st) + EncEntries(st.entries[..i])
    {
      ghost var done := buf[..HEADER + ENTRY_SIZE * i];
      Copy(EncEntry(st.entries[i]), buf, HEADER + ENTRY_SIZE * i);
      assert buf[..HEADER + ENTRY_SIZE * (i + 1)] == done + EncEntry(st.entries[i]);
      assert st.entries[..i + 1][..i] == st.entries[..i];
    }
    assert st.entries[..|st.entries|] == st.entries;
    file := buf[..HEADER + ENTRY_SIZE * |st.entries|];
  }

  /** `read_file_locked` on the bytes of the file. */
  method ReadStore(file: bytes) returns (r: Option<Store>)
    ensures r == Parsed(file)
  {
    hide Word32, Word64, DecEntry;
    var buf := Buffered(file);
    if |buf| < HEADER { return None; }
    if buf[..4] != MAGIC { return None; }
    var version := Word32(buf, 4);
    if version == 1 {
      if |buf| < V1_SIZE { return None; }
      var dc := Signed32(Word32(buf, 8));
      return Some(Store(dc, [Entry(dc, Saved(Word64(buf, 12), Word64(buf, 20), buf[28..284]))]));
    }
    if version != 2 { return None; }
    var count := Word32(buf, 12);
    if count > MAX_DCS { return None; }
    if |buf| < HEADER + count * ENTRY_SIZE { return None; }
    var entries: seq<Entry> := [];
    for i := 0 to count
      invariant HEADER + ENTRY_SIZE * count <= |buf| && entries == DecEntries(buf, i)
    {
      entries := entries + [DecEntry(buf, HEADER + ENTRY_SIZE * i)];
    }
    r := Some(Store(Signed32(Word32(buf, 8)), entries));
  }

  /** `find_entry`: the first entry of a data centre, or -1. */
  method FindEntry(es: seq<Entry>, dc: int32) returns (idx: int)
    ensures idx == Position(es, dc)
  {
    for i := 0 to |es|
      invariant Position(es, dc) == (if Position(es[i..], dc) < 0 then -1 else i + Position(es[i..], dc))
    {
      assert es[i..][1..] == es[i + 1..];
      if es[i].dc == dc { return i; }
    }
    idx := -1;
  }

  function Position(es: seq<Entry>, dc: int32): (idx: int)
    ensures -1 <= idx < |es|
    ensures idx >= 0 ==> es[idx].dc == dc && forall i :: 0 <= i < idx ==> es[i].dc != dc
    ensures idx < 0 ==> forall i :: 0 <= i < |es| ==> es[i].dc != dc
  {
    if es == [] then -1
    else if es[0].dc == dc then 0
    else
      var k := Position(es[1..], dc);
      if k < 0 then -1 else k + 1
  }

  // ---- putting one session in ----

  /** What `upsert` starts from: an absent, corrupt or newer file counts as empty. */
  function View(file: Option<bytes>): (st: Store)
    ensures Valid(st)
  {
    match file
    case None => EMPTY
    case Some(b) => match Parsed(b) case None => EMPTY case Some(st) => st
  }

  /** The store with one session put in, or None when there is no slot left. */
  function Put(st: Store, dc: int32, saved: Saved, setHome: bool): (r: Option<Store>)
    requires Valid(st) && |saved.authKey| == AUTH_KEY_SIZE
    ensures r.Some? ==> Valid(r.value)
  {
    var idx := Position(st.entries, dc);
    if idx < 0 && |st.entries| >= MAX_DCS then None
    else
      var e := Entry(dc, saved);
      Some(Store(if setHome || st.home == 0 then dc else st.home,
                 if idx < 0 then st.entries + [e] else st.entries[idx := e]))
  }

  // ---- the file as a bounded map ----

  datatype Book = Book(home: int32, sessions: map<int32, Saved>)

  function ToMap(es: seq<Entry>): map<int32, Saved> {
    if es == [] then map[] else ToMap(es[1..])[es[0].dc := es[0].saved]
  }

  function BookOf(st: Store): Book { Book(st.home, ToMap(st.entries)) }

  /** The abstract save: a map update, refused when a sixth data centre would come in. */
  function PutBook(b: Book, dc: int32, saved: Saved, setHome: bool): Option<Book> {
    if dc !in b.sessions && |b.sessions| >= MAX_DCS then None
    else Some(Book(if setHome || b.home == 0 then dc else b.home, b.sessions[dc := saved]))
  }

  ghost predicate Unique(es: seq<Entry>) {
    forall i, j :: 0 <= i < j < |es| ==> es[i].dc != es[j].dc
  }

  lemma {:induction false} Lookup(es: seq<Entry>, dc: int32)
    ensures dc in ToMap(es) <==> Position(es, dc) >= 0
    ensures dc in ToMap(es) ==> ToMap(es)[dc] == es[Position(es, dc)].saved
    decreases |es|
  {
    if es != [] { Lookup(es[1..], dc); }
  }

  lemma {:induction false} SizeOfMap(es: seq<Entry>)
    requires Unique(es)
    ensures |ToMap(es)| == |es|
    decreases |es|
  {
    if es != [] {
      SizeOfMap(es[1..]);
      Lookup(es[1..], es[0].dc);
    }
  }

  lemma Replaced(es: seq<Entry>, e: Entry)
    requires Position(es, e.dc) >= 0
    ensures ToMap(es[Position(es, e.dc) := e]) == ToMap(es)[e.dc := e.saved]
  {
    hide ToMap;
    var k := Position(es, e.dc);
    var es' := es[k := e];
    forall x: int32 ensures (x in ToMap(es') <==> x in ToMap(es)[e.dc := e.saved])
                            && (x in ToMap(es') ==> ToMap(es')[x] == ToMap(es)[e.dc := e.saved][x])
    {
      Lookup(es, x);
      Lookup(es', x);
      SamePosition(es, e, x);
    }
  }

  lemma SamePosition(es: seq<Entry>, e: Entry, x: int32)
    requires Position(es, e.dc) >= 0
    ensures Position(es[Position(es, e.dc) := e], x) == Position(es, x)
  {
    hide Position;
    var es' := es[Position(es, e.dc) := e];
    assert forall i :: 0 <= i < |es| ==> es'[i].dc == es[i].dc;
  }

  lemma Appended(es: seq<Entry>, e: Entry)
    requires Position(es, e.dc) < 0
    ensures ToMap(es + [e]) == ToMap(es)[e.dc := e.saved]
  {
    hide ToMap;
    forall x: int32 ensures (x in ToMap(es + [e]) <==> x in ToMap(es)[e.dc := e.saved])
                            && (x in ToMap(es + [e]) ==> ToMap(es + [e])[x] == ToMap(es)[e.dc := e.saved][x])
    {
      Lookup(es, x);
      Lookup(es + [e], x);
      NewPosition(es, e, x);
    }
  }

  lemma NewPosition(es: seq<Entry>, e: Entry, x: int32)
    requires Position(es, e.dc) < 0
    ensures Position(es + [e], x) == if x == e.dc then |es| else Position(es, x)
  {
    hide Position;
    var es' := es + [e];
    var k := Position(es, x);
    assert forall i :: 0 <= i < |es| ==> es'[i] == es[i];
    assert es'[|es|] == e;
  }

  /** A save on the file is a save on the map, and it keeps the ids unique. */
  lemma PutRefines(st: Store, dc: int32, saved: Saved, setHome: bool)
    requires Valid(st) && Unique(st.entries) && |saved.authKey| == AUTH_KEY_SIZE
    ensures var r := Put(st, dc, saved, setHome);
            && PutBook(BookOf(st), dc, saved, setHome) == (if r.Some? then Some(BookOf(r.value)) else None)
            && (r.Some? ==> Unique(r.value.entries))
  {
    hide ToMap, Position;
    var e := Entry(dc, saved);
    SizeOfMap(st.entries);
    Lookup(st.entries, dc);
    if Position(st.entries, dc) < 0 { Appended(st.entries, e); } else { Replaced(st.entries, e); }
  }

  /** A save to what cannot be read, a newer version included, keeps nothing of it. */
  lemma UnreadableIsReplaced(file: bytes, dc: int32, saved: Saved, setHome: bool)
    requires Parsed(file).None? && |saved.authKey| == AUTH_KEY_SIZE
    ensures Put(View(Some(file)), dc, saved, setHome) == Some(Store(dc, [Entry(dc, saved)]))
  {
    hide Parsed;
    assert EMPTY.entries + [Entry(dc, saved)] == [Entry(dc, saved)];
  }

  /** Every version but 1 and 2 is unreadable, whatever follows the version word. */
  lemma OtherVersionsUnreadable(v: uint32, rest: bytes)
    requires v != 1 && v != 2
    ensures Parsed(MAGIC + Enc32(v) + rest).None?
  {
    hide Enc32, Word32;
    var d := MAGIC + Enc32(v) + rest;
    var buf := Buffered(d);
    if |buf| >= HEADER {
      assert buf[4..8] == Enc32(v);
      Word32OfEnc32(v, buf, 4);
    }
  }

  /** Every first start is free of duplicates: no file, an unreadable one, or a v1 file. */
  lemma StartsUnique(file: Option<bytes>)
    requires file.None? || Parsed(file.value).None? || |View(file).entries| == 1
    ensures Unique(View(file).entries)
  {
    hide Parsed;
  }

  /** What a save writes is read back as the store it put together, and fits the read buffer. */
  lemma StoredView(st: Store, dc: int32, saved: Saved, setHome: bool)
    requires Valid(st) && |saved.authKey| == AUTH_KEY_SIZE
    ensures var r := Put(st, dc, saved, setHome);
            r.Some? ==> |Serialised(r.value)| <= MAX_SIZE && View(Some(Serialised(r.value))) == r.value
  {
    hide Serialised, Parsed, Position;
    var r := Put(st, dc, saved, setHome);
    if r.Some? { ParsedSerialised(r.value); }
  }
}
