/** Saving and loading sessions on disk (`src/app/session_store.c`). The disk is a log of operations
    and its files are what the log leaves, so whatever touches a file is in the log, and a stop of
    the process is a prefix of it. */
module SessionFiles {
  import opened Bytes
  import opened Stores
  import Sessions

  // ---- the disk ----

  datatype Name = SessionFile | TempFile

  /** One system call: `open` with O_CREAT, `open` with O_TRUNC, `write`, `rename`, `unlink`. */
  datatype Op =
    | Create(name: Name)
    | Truncate(name: Name)
    | Write(name: Name, content: bytes)
    | RenameTemp
    | Remove(name: Name)

  datatype Files = Files(session: Option<bytes>, temp: Option<bytes>)

  function Get(fs: Files, name: Name): Option<bytes> {
    if name == SessionFile then fs.session else fs.temp
  }

  function Set(fs: Files, name: Name, content: Option<bytes>): Files {
    if name == SessionFile then fs.(session := content) else fs.(temp := content)
  }

  function Apply(fs: Files, op: Op): Files {
    match op
    case Create(name) => if Get(fs, name).None? then Set(fs, name, Some([])) else fs
    case Truncate(name) => Set(fs, name, Some([]))
    case Write(name, content) => if Get(fs, name).None? then fs else Set(fs, name, Some(Get(fs, name).value + content))
    case RenameTemp => if fs.temp.None? then fs else Files(fs.temp, None)
    case Remove(name) => Set(fs, name, None)
  }

  /** The files a log of operations leaves. */
  function Replay(fs: Files, log: seq<Op>): Files
    decreases |log|
  {
    if log == [] then fs else Apply(Replay(fs, log[..|log| - 1]), log[|log| - 1])
  }

  /** A stop after `k` operations, or in the middle of the next one if that is a write, leaves one of
      the `allowed` session files. */
  ghost predicate StopAt(fs: Files, log: seq<Op>, k: nat, allowed: set<Option<bytes>>)
    requires k <= |log|
  {
    var now := Replay(fs, log[..k]);
    && now.session in allowed
    && (k < |log| && log[k].Write? ==>
          forall j :: 0 <= j <= |log[k].content| ==>
              Apply(now, Write(log[k].name, log[k].content[..j])).session in allowed)
  }

  /** Wherever the process stops after the first `from` operations, between two of them or in the
      middle of a write, the session file is one of `allowed`. */
  ghost predicate EveryStop(fs: Files, log: seq<Op>, from: nat, allowed: set<Option<bytes>>) {
    forall k :: from <= k <= |log| ==> StopAt(fs, log, k, allowed)
  }

  lemma StopHere(fs: Files, log: seq<Op>, allowed: set<Option<bytes>>)
    requires Replay(fs, log).session in allowed
    ensures EveryStop(fs, log, |log|, allowed)
  {
    assert log[..|log|] == log;
  }

  /** One more operation is safe if it leaves an allowed file and does not write to the session file. */
  lemma StopLater(fs: Files, log: seq<Op>, from: nat, allowed: set<Option<bytes>>, op: Op)
    requires from <= |log| && EveryStop(fs, log, from, allowed)
    requires Apply(Replay(fs, log), op).session in allowed && (op.Write? ==> op.name == TempFile)
    ensures EveryStop(fs, log + [op], from, allowed)
  {
    hide StopAt, Apply, Replay;
    forall k | from <= k <= |log + [op]| ensures StopAt(fs, log + [op], k, allowed) {
      if k < |log| {
        StopBefore(fs, log, k, allowed, op);
      } else if k == |log| {
        assert StopAt(fs, log, k, allowed);
        StopDuring(fs, log, allowed, op);
      } else {
        StopAfter(fs, log, allowed, op);
      }
    }
  }

  lemma StopBefore(fs: Files, log: seq<Op>, k: nat, allowed: set<Option<bytes>>, op: Op)
    requires k < |log| && StopAt(fs, log, k, allowed)
    ensures StopAt(fs, log + [op], k, allowed)
  {
    hide Apply, Replay;
    assert (log + [op])[..k] == log[..k] && (log + [op])[k] == log[k];
  }

  lemma StopDuring(fs: Files, log: seq<Op>, allowed: set<Option<bytes>>, op: Op)
    requires StopAt(fs, log, |log|, allowed) && (op.Write? ==> op.name == TempFile)
    ensures StopAt(fs, log + [op], |log|, allowed)
  {
    hide Replay;
    assert (log + [op])[..|log|] == log[..|log|];
  }

  lemma StopAfter(fs: Files, log: seq<Op>, allowed: set<Option<bytes>>, op: Op)
    requires Apply(Replay(fs, log), op).session in allowed
    ensures StopAt(fs, log + [op], |log| + 1, allowed)
  {
    hide Apply, Replay;
    Snoc(fs, log, op);
    assert (log + [op])[..|log| + 1] == log + [op];
  }

  lemma Snoc(fs: Files, log: seq<Op>, op: Op)
    ensures Replay(fs, log + [op]) == Apply(Replay(fs, log), op)
  {
    assert (log + [op])[..|log|] == log;
  }

  /** How `lock_file` turns out: `open` fails and creates nothing, `flock` fails, or the lock is held. */
  datatype Locking = CannotOpen | Busy | Locked

  /** What the file system lets happen: the directory, the lock, opening the temporary file, how
      many bytes `write` takes, the rename. */
  datatype Faults = Faults(dir: bool, lock: Locking, openTmp: bool, written: nat, rename: bool)

  class Disk {
    const base: Files
    var log: seq<Op>

    constructor (fs: Files)
      ensures base == fs && log == []
    {
      base, log := fs, [];
    }

    function Now(): Files
      reads this
    {
      Replay(base, log)
    }

    function File(): Option<bytes>
      reads this
    {
      Now().session
    }

    /** A system call, safe for every stop since `from`. */
    method Do(op: Op, ghost from: nat, ghost allowed: set<Option<bytes>>)
      requires from <= |log| && EveryStop(base, log, from, allowed)
      requires Apply(Now(), op).session in allowed && (op.Write? ==> op.name == TempFile)
      modifies this`log
      ensures log == old(log) + [op] && Now() == Apply(old(Now()), op)
      ensures EveryStop(base, log, from, allowed)
    {
      StopLater(base, log, from, allowed, op);
      Snoc(base, log, op);
      log := log + [op];
    }

    /** `open` with O_CREAT, then `flock`. */
    method Lock(l: Locking, ghost from: nat, ghost allowed: set<Option<bytes>>) returns (locked: bool)
      requires from <= |log| && EveryStop(base, log, from, allowed) && Touched(File()) in allowed
      modifies this`log
      ensures locked == l.Locked? && old(log) <= log && Now().temp == old(Now().temp)
      ensures File() == Opened(l, old(File()))
      ensures EveryStop(base, log, from, allowed)
    {
      hide EveryStop, Replay;
      if l.CannotOpen? { return false; }
      Do(Create(SessionFile), from, allowed);
      locked := l.Locked?;
    }

    /** `write_file_atomic`: write the temporary file, then rename it over the session file. */
    method WriteAtomic(st: Store, f: Faults, ghost from: nat, ghost allowed: set<Option<bytes>>) returns (ok: bool)
      requires Valid(st) && from <= |log| && EveryStop(base, log, from, allowed)
      requires File() in allowed && Some(Serialised(st)) in allowed
      modifies this`log
      ensures ok <==> f.openTmp && f.written >= |Serialised(st)| && f.rename
      ensures old(log) <= log && File() == if ok then Some(Serialised(st)) else old(File())
      ensures EveryStop(base, log, from, allowed)
    {
      hide Serialised, EveryStop, Replay;
      var content := Serialise(st);
      if !f.openTmp { return false; }
      Do(Truncate(TempFile), from, allowed);
      var n := if f.written < |content| then f.written else |content|;
      Do(Write(TempFile, content[..n]), from, allowed);
      if n != |content| { Do(Remove(TempFile), from, allowed); return false; }
      assert [] + content[..n] == content;
      if !f.rename { Do(Remove(TempFile), from, allowed); return false; }
      Do(RenameTemp, from, allowed);
      ok := true;
    }
  }

  /** Opening the lock creates the file when it is absent. */
  function Touched(file: Option<bytes>): Option<bytes> {
    if file.None? then Some([]) else file
  }

  /** The session file after an attempt to lock it. */
  function Opened(l: Locking, file: Option<bytes>): Option<bytes> {
    if l.CannotOpen? then file else Touched(file)
  }

  lemma TouchedView(file: Option<bytes>)
    ensures View(Touched(file)) == View(file)
  {
  }

  // ---- saving ----

  function SavedOf(s: Sessions.Session): (r: Saved)
    requires s.Valid()
    reads s
    ensures |r.authKey| == AUTH_KEY_SIZE
  {
    Saved(s.serverSalt, s.sessionId, s.authKey)
  }


  /** Nothing goes wrong while a file of `size` bytes is written. */
  predicate Writes(f: Faults, size: nat) {
    f.dir && f.lock.Locked? && f.openTmp && f.written >= size && f.rename
  }

  /** The session file a save leaves if it succeeds; the old one, with the lock taken, if there is no
      slot for it. */
  function FileWith(file: Option<bytes>, dc: int32, saved: Saved, setHome: bool): Option<bytes>
    requires |saved.authKey| == AUTH_KEY_SIZE
  {
    match Put(View(file), dc, saved, setHome) case None => Touched(file) case Some(st) => Some(Serialised(st))
  }

  /** `upsert`, the body of `session_store_save` (with home) and `session_store_save_dc`. */
  method Upsert(d: Disk, dc: int32, s: Sessions.Session, setHome: bool, f: Faults) returns (ok: bool)
    requires s.Valid()
    modifies d`log
    ensures var r := Put(View(old(d.File())), dc, SavedOf(s), setHome);
            ok <==> s.hasAuthKey && r.Some? && Writes(f, |Serialised(r.value)|)
    ensures ok ==> d.File() == FileWith(old(d.File()), dc, SavedOf(s), setHome)
    ensures !ok ==> d.File() == if s.hasAuthKey && f.dir then Opened(f.lock, old(d.File())) else old(d.File())
    ensures old(d.log) <= d.log
            && EveryStop(d.base, d.log, |old(d.log)|,
                         {old(d.File()), Touched(old(d.File())), FileWith(old(d.File()), dc, SavedOf(s), setHome)})
  {
    hide Serialised, Parsed, Position, EveryStop, Replay;
    ghost var from, was := |d.log|, d.File();
    ghost var allowed := {was, Touched(was), FileWith(was, dc, SavedOf(s), setHome)};
    StopHere(d.base, d.log, allowed);
    if !s.hasAuthKey || !f.dir { return false; }
    var locked := d.Lock(f.lock, from, allowed);
    if !locked { return false; }
    var read := ReadStore(d.File().value);
    TouchedView(was);
    var st := if read.None? then EMPTY else read.value;
    var idx := FindEntry(st.entries, dc);
    if idx < 0 && |st.entries| >= MAX_DCS { return false; }
    var e := Entry(dc, Saved(s.serverSalt, s.sessionId, s.authKey));
    var entries := if idx < 0 then st.entries + [e] else st.entries[idx := e];
    var home := if setHome || st.home == 0 then dc else st.home;
    ok := d.WriteAtomic(Store(home, entries), f, from, allowed);
  }

  /** A save over a file of another version than 1 and 2: it succeeds exactly when there is a key and
      the disk takes one entry, and the file stays as it was exactly when the save fails. */
  method SaveOverOtherVersion(d: Disk, v: uint32, rest: bytes, dc: int32, s: Sessions.Session, setHome: bool, f: Faults)
    returns (ok: bool)
    requires s.Valid() && v != 1 && v != 2 && d.File() == Some(MAGIC + Enc32(v) + rest)
    modifies d`log
    ensures ok <==> s.hasAuthKey && Writes(f, HEADER + ENTRY_SIZE)
    ensures d.File() == old(d.File()) <==> !ok
    ensures ok ==> d.File() == Some(Serialised(Store(dc, [Entry(dc, SavedOf(s))])))
  {
    hide Parsed, Serialised, EveryStop, Replay;
    OtherVersionsUnreadable(v, rest);
    UnreadableIsReplaced(d.File().value, dc, SavedOf(s), setHome);
    ParsedSerialised(Store(dc, [Entry(dc, SavedOf(s))]));
    ok := Upsert(d, dc, s, setHome, f);
  }

  // ---- loading ----

  /** `apply_entry` */
  method ApplyEntry(s: Sessions.Session, v: Saved)
    requires s.Valid() && |v.authKey| == AUTH_KEY_SIZE
    modifies s
    ensures s.Valid() && SavedOf(s) == v && s.hasAuthKey && s.seqNo == 0 && s.lastMsgId == 0
  {
    s.serverSalt, s.sessionId, s.authKey := v.salt, v.sessionId, v.authKey;
    s.hasAuthKey, s.seqNo, s.lastMsgId := true, 0, 0;
  }

  /** `session_store_load_dc` */
  method LoadDc(d: Disk, dc: int32, s: Sessions.Session, lock: Locking) returns (ok: bool)
    requires s.Valid()
    modifies d`log, s
    ensures s.Valid() && d.File() == Opened(lock, old(d.File()))
    ensures ok <==> lock.Locked? && dc in BookOf(View(old(d.File()))).sessions
    ensures ok ==> SavedOf(s) == BookOf(View(old(d.File()))).sessions[dc] && s.hasAuthKey
                   && s.seqNo == 0 && s.lastMsgId == 0
    ensures !ok ==> unchanged(s)
  {
    hide Parsed, Position, ToMap, EveryStop, Replay;
    TouchedView(d.File());
    StopHere(d.base, d.log, {d.File(), Touched(d.File())});
    var locked := d.Lock(lock, |d.log|, {d.File(), Touched(d.File())});
    if !locked { return false; }
    var read := ReadStore(d.File().value);
    Lookup(View(d.File()).entries, dc);
    if read.None? { return false; }
    var idx := FindEntry(read.value.entries, dc);
    if idx < 0 { return false; }
    ApplyEntry(s, read.value.entries[idx].saved);
    ok := true;
  }

  /** `session_store_load`: the session of the home data centre. */
  method LoadHome(d: Disk, s: Sessions.Session, lock: Locking) returns (ok: bool, dc: int32)
    requires s.Valid()
    modifies d`log, s
    ensures s.Valid() && d.File() == Opened(lock, old(d.File()))
    ensures var b := BookOf(View(old(d.File()))); ok <==> lock.Locked? && b.home != 0 && b.home in b.sessions
    ensures ok ==> var b := BookOf(View(old(d.File())));
                   dc == b.home && SavedOf(s) == b.sessions[dc] && s.hasAuthKey && s.seqNo == 0 && s.lastMsgId == 0
    ensures !ok ==> unchanged(s)
  {
    hide Parsed, Position, ToMap, EveryStop, Replay;
    TouchedView(d.File());
    StopHere(d.base, d.log, {d.File(), Touched(d.File())});
    var locked := d.Lock(lock, |d.log|, {d.File(), Touched(d.File())});
    if !locked { return false, 0; }
    var read := ReadStore(d.File().value);
    Lookup(View(d.File()).entries, View(d.File()).home);
    if read.None? { return false, 0; }
    var st := read.value;
    if |st.entries| == 0 || st.home == 0 { return false, 0; }
    var idx := FindEntry(st.entries, st.home);
    if idx < 0 { return false, 0; }
    ApplyEntry(s, st.entries[idx].saved);
    return true, st.home;
  }

  /** A session saved with home is the session the next start loads, if its data centre is a real one:
      id 0 stands for having no home. */
  method SaveThenLoadHome(d: Disk, dc: int32, s: Sessions.Session, t: Sessions.Session, f: Faults, lock: Locking)
    returns (saved: bool, loaded: bool, home: int32)
    requires s.Valid() && t.Valid() && s != t
    modifies d`log, t
    ensures t.Valid()
    ensures var r := Put(View(old(d.File())), dc, SavedOf(s), true);
            saved <==> s.hasAuthKey && r.Some? && Writes(f, |Serialised(r.value)|)
    ensures saved ==> (loaded <==> lock.Locked? && dc != 0)
    ensures loaded ==> saved && home == dc && SavedOf(t) == SavedOf(s) && t.hasAuthKey
    ensures !loaded ==> unchanged(t)
  {
    hide View, BookOf, Put, Serialised, EveryStop, Replay, Writes;
    ghost var st := View(d.File());
    loaded, home := false, 0;
    saved := Upsert(d, dc, s, true, f);
    if !saved { return; }
    StoredView(st, dc, SavedOf(s), true);
    NewHome(st, dc, SavedOf(s));
    loaded, home := LoadHome(d, t, lock);
  }

  /** Whatever was stored before, duplicates included, the home is then the session just put in. */
  lemma NewHome(st: Store, dc: int32, saved: Saved)
    requires Valid(st) && |saved.authKey| == AUTH_KEY_SIZE
    ensures var r := Put(st, dc, saved, true);
            r.Some? ==> var b := BookOf(r.value); b.home == dc && dc in b.sessions && b.sessions[dc] == saved
  {
    hide ToMap, Position;
    var e := Entry(dc, saved);
    if Position(st.entries, dc) < 0 { Appended(st.entries, e); } else { Replaced(st.entries, e); }
  }

  // ---- whole runs ----

  /** One save of a run, and what the disk does to it. */
  datatype Save = Save(dc: int32, saved: Saved, setHome: bool, faults: Faults)

  predicate Complete(ops: seq<Save>) {
    forall i :: 0 <= i < |ops| ==> |ops[i].saved.authKey| == AUTH_KEY_SIZE
  }

  /** There is a slot for the session and the disk takes the new file. */
  predicate Succeeds(b: Book, op: Save) {
    var r := PutBook(b, op.dc, op.saved, op.setHome);
    r.Some? && Writes(op.faults, HEADER + ENTRY_SIZE * |r.value.sessions|)
  }

  /** The map after a run of saves; one that fails changes nothing. */
  function BookAfter(b: Book, ops: seq<Save>): Book
    decreases |ops|
  {
    if ops == [] then b
    else
      var op, before := ops[|ops| - 1], BookAfter(b, ops[..|ops| - 1]);
      if Succeeds(before, op) then PutBook(before, op.dc, op.saved, op.setHome).value else before
  }

  /** Any run of saves, with any faults. From an absent, unreadable, v1 or duplicate-free file on, the
      file always stands for the map after the same saves. */
  method SaveAll(d: Disk, s: Sessions.Session, ops: seq<Save>)
    requires s.Valid() && Complete(ops) && Unique(View(d.File()).entries)
    modifies d`log, s
    ensures s.Valid() && Unique(View(d.File()).entries)
    ensures BookOf(View(d.File())) == BookAfter(BookOf(View(old(d.File()))), ops)
  {
    hide View, BookOf, Put, PutBook, Serialised, Unique, EveryStop, Replay, Writes;
    ghost var b := BookOf(View(d.File()));
    for i := 0 to |ops|
      invariant s.Valid() && Unique(View(d.File()).entries) && BookOf(View(d.File())) == BookAfter(b, ops[..i])
    {
      var op := ops[i];
      ghost var file := d.File();
      ApplyEntry(s, op.saved);
      TouchedView(file);
      var ok := Upsert(d, op.dc, s, op.setHome, op.faults);
      SaveRefines(View(file), op);
      assert ops[..i + 1][..i] == ops[..i];
    }
    assert ops[..|ops|] == ops;
  }

  /** A save with these faults changes the file exactly as the map. */
  lemma SaveRefines(st: Store, op: Save)
    requires Valid(st) && Unique(st.entries) && |op.saved.authKey| == AUTH_KEY_SIZE
    ensures var r := Put(st, op.dc, op.saved, op.setHome);
            && (Succeeds(BookOf(st), op) <==> r.Some? && Writes(op.faults, |Serialised(r.value)|))
            && (r.Some? ==> Unique(r.value.entries) && View(Some(Serialised(r.value))) == r.value
                            && PutBook(BookOf(st), op.dc, op.saved, op.setHome) == Some(BookOf(r.value)))
  {
    hide View, Put, PutBook, Serialised, Unique, Writes, ToMap;
    PutRefines(st, op.dc, op.saved, op.setHome);
    StoredView(st, op.dc, op.saved, op.setHome);
    var r := Put(st, op.dc, op.saved, op.setHome);
    if r.Some? { SizeOfMap(r.value.entries); }
  }

  /** No run of saves exceeds five data centres. */
  lemma {:induction false} AtMostFive(b: Book, ops: seq<Save>)
    requires |b.sessions| <= MAX_DCS
    ensures |BookAfter(b, ops).sessions| <= MAX_DCS
    decreases |ops|
  {
    hide Writes;
    if ops != [] { AtMostFive(b, ops[..|ops| - 1]); }
  }

  /** A save to another data centre, or one that fails, leaves a session alone. */
  lemma StepKeeps(b: Book, ops: seq<Save>, dc: int32)
    requires ops != []
    requires var op := ops[|ops| - 1]; op.dc != dc || !Succeeds(BookAfter(b, ops[..|ops| - 1]), op)
    ensures var before := BookAfter(b, ops[..|ops| - 1]).sessions;
            var after := BookAfter(b, ops).sessions;
            (dc in before <==> dc in after) && (dc in before ==> after[dc] == before[dc])
  {
    hide Writes;
  }

  lemma StepSaves(b: Book, ops: seq<Save>)
    requires ops != [] && Succeeds(BookAfter(b, ops[..|ops| - 1]), ops[|ops| - 1])
    ensures var op, after := ops[|ops| - 1], BookAfter(b, ops).sessions; op.dc in after && after[op.dc] == op.saved
  {
    hide Writes;
  }

  /** The last save of a data centre that succeeded is the one kept: later ones to other data centres,
      and later ones that fail, leave it alone. */
  lemma {:induction false} LastSaveWins(b: Book, ops: seq<Save>, k: nat)
    requires k < |ops| && Succeeds(BookAfter(b, ops[..k]), ops[k])
    requires forall i :: k < i < |ops| ==> ops[i].dc != ops[k].dc || !Succeeds(BookAfter(b, ops[..i]), ops[i])
    ensures ops[k].dc in BookAfter(b, ops).sessions && BookAfter(b, ops).sessions[ops[k].dc] == ops[k].saved
    decreases |ops|
  {
    hide Succeeds, BookAfter;
    var n := |ops| - 1;
    if k < n {
      assert ops[..n][..k] == ops[..k];
      forall i | k < i < n ensures ops[..n][i].dc != ops[k].dc || !Succeeds(BookAfter(b, ops[..n][..i]), ops[..n][i]) {
        assert ops[..n][..i] == ops[..i];
      }
      LastSaveWins(b, ops[..n], k);
      StepKeeps(b, ops, ops[k].dc);
    } else {
      StepSaves(b, ops);
    }
  }

  lemma {:induction false} OthersKept(b: Book, ops: seq<Save>, dc: int32)
    requires forall i :: 0 <= i < |ops| ==> ops[i].dc != dc
    ensures dc in BookAfter(b, ops).sessions <==> dc in b.sessions
    ensures dc in b.sessions ==> BookAfter(b, ops).sessions[dc] == b.sessions[dc]
    decreases |ops|
  {
    hide Writes;
    if ops != [] { OthersKept(b, ops[..|ops| - 1], dc); }
  }

  /** Once there is a home, only a save with home moves it. */
  lemma {:induction false} HomeStays(b: Book, ops: seq<Save>)
    requires b.home != 0 && forall i :: 0 <= i < |ops| ==> !ops[i].setHome
    ensures BookAfter(b, ops).home == b.home
    decreases |ops|
  {
    hide Writes;
    if ops != [] { HomeStays(b, ops[..|ops| - 1]); }
  }

  /** The home always has a session. */
  lemma {:induction false} HomeHasSession(b: Book, ops: seq<Save>)
    requires b.home == 0 || b.home in b.sessions
    ensures var a := BookAfter(b, ops); a.home == 0 || a.home in a.sessions
    decreases |ops|
  {
    hide Writes;
    if ops != [] { HomeHasSession(b, ops[..|ops| - 1]); }
  }
}
