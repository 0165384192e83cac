/** The login flow (`src/app/auth_flow.c`) as a machine over connections, handshakes and server
    replies. What the network, the server, the stored session and the user do is the environment;
    a call without an authorization key fails, because `rpc_send_encrypted` refuses to send. */
module Login {
  import opened Bytes
  import opened Outcomes

  const MAX_MIGRATIONS := 3

  /** What the server answers to `auth.sendCode`; `dc` is the data centre of a migrate error, -1 for
      any other failure. */
  datatype CodeReply = CodeSent | CodeRefused(dc: int)

  /** What the server answers to `auth.signIn`. */
  datatype SignInReply =
    | SignedIn(user: int)
    | SignUpRequired
    | PasswordNeeded
    | SignInRefused(dc: int)

  /** The outcomes of the connections, handshakes and sendCode calls to come; after the last of
      them, failure. */
  datatype Scripts = Scripts(connects: seq<bool>, handshakes: seq<bool>, replies: seq<CodeReply>)

  /** The rest of the environment: the stored session's data centre, the endpoints, the user's input
      and the outcome of the calls that are made at most once. */
  datatype World = World(stored: Option<int>, known: int -> bool, start: int, phone: bool, code: bool,
                         signIn: SignInReply, signUp: Option<int>, password: Option<bool>, getPassword: bool,
                         hasPassword: bool, checkPassword: Option<int>)

  // ---- what the flow does with the environment ----

  /** `connect_dc_ex`: a known endpoint, a connection, a handshake; and what is left of the scripts. */
  function Connecting(dc: int, known: int -> bool, sc: Scripts): (bool, Scripts) {
    if !known(dc) then (false, sc)
    else
      var sc1 := sc.(connects := Rest(sc.connects));
      if !Next(sc.connects) then (false, sc1) else (Next(sc.handshakes), sc1.(handshakes := Rest(sc.handshakes)))
  }

  /** A test data centre, which has a negative id, is only ever left for another one. */
  function Target(dc: int, to: int): int {
    if dc < 0 then -to else to
  }

  /** How the sendCode loop ended, how many migrations it made, whether one of them was soft, and
      what is left of the scripts. */
  datatype CodeRun = CodeRun(ok: bool, dc: int, migrations: nat, soft: bool, left: Scripts)

  /** The sendCode loop on data centre `dc` after `n` migrations. Without a key the call fails at
      once and takes no reply. */
  function CodeLoop(dc: int, keyed: bool, n: nat, soft: bool, known: int -> bool, sc: Scripts): (r: CodeRun)
    requires n <= MAX_MIGRATIONS
    decreases MAX_MIGRATIONS - n
  {
    var reply := if keyed && sc.replies != [] then sc.replies[0] else CodeRefused(-1);
    var sc1 := if keyed then sc.(replies := Rest(sc.replies)) else sc;
    if reply.CodeSent? then CodeRun(true, dc, n, soft, sc1)
    else if reply.dc <= 0 || n == MAX_MIGRATIONS then CodeRun(false, dc, n, soft, sc1)
    else
      var target := Target(dc, reply.dc);
      var (moved, sc2) := Connecting(target, known, sc1);
      if moved then CodeLoop(target, true, n + 1, soft, known, sc2)
      else if !known(target) then CodeRun(false, dc, n + 1, true, sc2)
      else if !Next(sc2.connects) then CodeRun(false, dc, n + 1, true, sc2.(connects := Rest(sc2.connects)))
      else CodeLoop(target, false, n + 1, true, known, sc2.(connects := Rest(sc2.connects)))
  }

  /** The calls after the code succeed. */
  predicate SignsIn(w: World) {
    match w.signIn
    case SignedIn(_) => true
    case SignUpRequired => w.signUp.Some?
    case PasswordNeeded => w.password == Some(true) && w.getPassword && w.hasPassword && w.checkPassword.Some?
    case SignInRefused(_) => false
  }

  function UserOf(w: World): int
    requires SignsIn(w)
  {
    match w.signIn
    case SignedIn(u) => u
    case SignUpRequired => w.signUp.value
    case PasswordNeeded => w.checkPassword.value
  }

  /** Sign-in asks for a migration that may still be made. */
  predicate Sidetracked(w: World, n: nat) {
    w.signIn.SignInRefused? && w.signIn.dc > 0 && n < MAX_MIGRATIONS
  }

  /** How a login went: its result, the migrations it made, whether one of them was soft, whether it
      took over a stored session, and what is left of the scripts. */
  datatype Flow = Flow(ok: bool, dc: int, user: int, migrations: nat, soft: bool, fast: bool, left: Scripts)

  /** The scripts after the attempt to take over the stored session. */
  function AfterRestore(w: World, sc: Scripts): Scripts {
    if w.stored.Some? && w.known(w.stored.value) then sc.(connects := Rest(sc.connects)) else sc
  }

  predicate Restores(w: World, sc: Scripts) {
    w.stored.Some? && w.known(w.stored.value) && Next(sc.connects)
  }

  /** `auth_flow_login` */
  function Outcome(w: World, sc: Scripts): Flow {
    var sc1 := AfterRestore(w, sc);
    if Restores(w, sc) then Flow(true, w.stored.value, 0, 0, false, true, sc1)
    else
      var (connected, sc2) := Connecting(w.start, w.known, sc1);
      if !connected || !w.phone then Flow(false, 0, 0, 0, false, false, sc2)
      else
        var c := CodeLoop(w.start, true, 0, false, w.known, sc2);
        if !c.ok || !w.code then Flow(false, 0, 0, c.migrations, c.soft, false, c.left)
        else if SignsIn(w) then Flow(true, c.dc, UserOf(w), c.migrations, c.soft, false, c.left)
        else if !Sidetracked(w, c.migrations) then Flow(false, 0, 0, c.migrations, c.soft, false, c.left)
        else Flow(false, 0, 0, c.migrations + 1, c.soft, false,
                  Connecting(Target(c.dc, w.signIn.dc), w.known, c.left).1)
  }

  // ---- over every run ----

  /** The first `m` replies ask for migrations that can all be made in full, and the next one is
      that the code was sent. */
  ghost predicate Path(dc: int, known: int -> bool, sc: Scripts, m: nat) {
    && m < |sc.replies| && sc.replies[m] == CodeSent && m <= |sc.connects| && m <= |sc.handshakes|
    && forall i :: 0 <= i < m ==> Moves(dc, known, sc.replies[i]) && sc.connects[i] && sc.handshakes[i]
  }

  predicate Moves(dc: int, known: int -> bool, r: CodeReply) {
    r.CodeRefused? && r.dc > 0 && known(Target(dc, r.dc))
  }

  /** Where a path of `m` migrations ends. */
  function Destination(dc: int, replies: seq<CodeReply>, m: nat): int
    requires m <= |replies| && (m > 0 ==> replies[m - 1].CodeRefused?)
  {
    if m == 0 then dc else Target(dc, replies[m - 1].dc)
  }

  function Dropped(sc: Scripts, m: nat): Scripts
    requires m < |sc.replies| && m <= |sc.connects| && m <= |sc.handshakes|
  {
    Scripts(sc.connects[m..], sc.handshakes[m..], sc.replies[m + 1..])
  }

  /** A path of `m` migrations leads to success, with exactly `m` migrations, none of them soft. */
  lemma {:induction false} PathSucceeds(dc: int, n: nat, known: int -> bool, sc: Scripts, m: nat)
    requires n + m <= MAX_MIGRATIONS && Path(dc, known, sc, m)
    ensures CodeLoop(dc, true, n, false, known, sc) ==
            CodeRun(true, Destination(dc, sc.replies, m), n + m, false, Dropped(sc, m))
    decreases m
  {
    if m > 0 {
      var sc2 := NextOnPath(dc, known, sc, m);
      hide Path;
      PathSucceeds(Target(dc, sc.replies[0].dc), n + 1, known, sc2, m - 1);
      assert Dropped(sc2, m - 1) == Dropped(sc, m);
    }
  }

  lemma NextOnPath(dc: int, known: int -> bool, sc: Scripts, m: nat) returns (sc2: Scripts)
    requires m > 0 && Path(dc, known, sc, m)
    ensures sc2 == Scripts(sc.connects[1..], sc.handshakes[1..], sc.replies[1..]) && Moves(dc, known, sc.replies[0])
    ensures Connecting(Target(dc, sc.replies[0].dc), known, sc.(replies := Rest(sc.replies))) == (true, sc2)
    ensures Path(Target(dc, sc.replies[0].dc), known, sc2, m - 1)
  {
    var target := Target(dc, sc.replies[0].dc);
    sc2 := Scripts(sc.connects[1..], sc.handshakes[1..], sc.replies[1..]);
    assert Moves(dc, known, sc.replies[0]);
    forall i | 0 <= i < m - 1 ensures Moves(target, known, sc2.replies[i]) && sc2.connects[i] && sc2.handshakes[i] {
      assert Moves(dc, known, sc.replies[i + 1]) && sc.connects[i + 1] && sc.handshakes[i + 1];
    }
  }

  /** There is no other way to succeed. */
  lemma {:induction false} SuccessHasPath(dc: int, n: nat, known: int -> bool, sc: Scripts) returns (m: nat)
    requires n <= MAX_MIGRATIONS && CodeLoop(dc, true, n, false, known, sc).ok
    ensures n + m <= MAX_MIGRATIONS && Path(dc, known, sc, m)
    decreases MAX_MIGRATIONS - n
  {
    if sc.replies[0] == CodeSent {
      m := 0;
    } else {
      var target := Target(dc, sc.replies[0].dc);
      var (moved, sc2) := Connecting(target, known, sc.(replies := Rest(sc.replies)));
      NoKeyNoCode(target, n + 1, true, known, sc2.(connects := Rest(sc2.connects)));
      assert moved;
      var k := SuccessHasPath(target, n + 1, known, sc2);
      m := k + 1;
      forall i | 0 <= i < m ensures Moves(dc, known, sc.replies[i]) && sc.connects[i] && sc.handshakes[i] {
        if i > 0 { assert Moves(target, known, sc2.replies[i - 1]) && sc2.connects[i - 1] && sc2.handshakes[i - 1]; }
      }
    }
  }

  /** Without a key the loop fails where it stands. */
  lemma NoKeyNoCode(dc: int, n: nat, soft: bool, known: int -> bool, sc: Scripts)
    requires n <= MAX_MIGRATIONS
    ensures CodeLoop(dc, false, n, soft, known, sc) == CodeRun(false, dc, n, soft, sc)
  {
  }

  /** The code is requested with success exactly along a path of at most three full migrations. */
  lemma CodeSentIff(dc: int, known: int -> bool, sc: Scripts)
    ensures CodeLoop(dc, true, 0, false, known, sc).ok <==>
            exists m :: 0 <= m <= MAX_MIGRATIONS && Path(dc, known, sc, m)
  {
    hide CodeLoop, Path;
    if CodeLoop(dc, true, 0, false, known, sc).ok {
      var m := SuccessHasPath(dc, 0, known, sc);
    }
    forall m | 0 <= m <= MAX_MIGRATIONS && Path(dc, known, sc, m) ensures CodeLoop(dc, true, 0, false, known, sc).ok {
      PathSucceeds(dc, 0, known, sc, m);
    }
  }

  lemma {:induction false} CodeLoopBounds(dc: int, keyed: bool, n: nat, soft: bool, known: int -> bool, sc: Scripts)
    requires n <= MAX_MIGRATIONS && (soft ==> !keyed)
    ensures var r := CodeLoop(dc, keyed, n, soft, known, sc);
            n <= r.migrations <= MAX_MIGRATIONS && (r.soft ==> !r.ok) && (r.dc < 0 <==> dc < 0)
    decreases MAX_MIGRATIONS - n
  {
    if keyed && sc.replies != [] && sc.replies[0].CodeRefused? && sc.replies[0].dc > 0 && n < MAX_MIGRATIONS {
      var target := Target(dc, sc.replies[0].dc);
      var (moved, sc2) := Connecting(target, known, sc.(replies := Rest(sc.replies)));
      CodeLoopBounds(target, true, n + 1, soft, known, sc2);
      CodeLoopBounds(target, false, n + 1, true, known, sc2.(connects := Rest(sc2.connects)));
    }
  }

  /** Every login makes at most three migrations, fails if one of them was soft, and on the fresh
      path ends on a test data centre exactly when it started on one. */
  lemma LoginBounds(w: World, sc: Scripts)
    ensures var o := Outcome(w, sc);
            && o.migrations <= 3
            && (o.soft ==> !o.ok)
            && (o.ok && !o.fast ==> (o.dc < 0 <==> w.start < 0))
  {
    hide CodeLoop;
    var (connected, sc2) := Connecting(w.start, w.known, AfterRestore(w, sc));
    CodeLoopBounds(w.start, true, 0, false, w.known, sc2);
  }

  /** When a login succeeds: a stored session whose data centre can be reached; or, failing that, a
      first connection with a handshake, the user's input, a path of at most three full migrations
      to a sent code, and a sign-in that succeeds. An attempt to restore takes one connection. */
  lemma LoginSucceedsIff(w: World, sc: Scripts)
    ensures Outcome(w, sc).ok <==>
            var k := if w.stored.Some? && w.known(w.stored.value) then 1 else 0;
            || (k == 1 && sc.connects != [] && sc.connects[0])
            || (&& w.known(w.start) && k < |sc.connects| && sc.connects[k] && sc.handshakes != [] && sc.handshakes[0]
                && w.phone && w.code
                && (|| w.signIn.SignedIn?
                    || (w.signIn.SignUpRequired? && w.signUp.Some?)
                    || (w.signIn.PasswordNeeded? && w.password == Some(true) && w.getPassword && w.hasPassword
                        && w.checkPassword.Some?))
                && exists m: nat :: m <= 3 && Leads(w, sc, k, m))
  {
    hide CodeLoop, Path, Leads;
    var k := if w.stored.Some? && w.known(w.stored.value) then 1 else 0;
    var sc2 := Connecting(w.start, w.known, AfterRestore(w, sc)).1;
    CodeSentIff(w.start, w.known, sc2);
    if w.known(w.start) && k < |sc.connects| && sc.connects[k] && sc.handshakes != [] && !Restores(w, sc) {
      assert sc2 == Scripts(sc.connects[k + 1..], sc.handshakes[1..], sc.replies);
      forall m: nat ensures Path(w.start, w.known, sc2, m) <==> Leads(w, sc, k, m) { PathLeads(w, sc, sc2, k, m); }
    }
  }

  /** After `k` connections and the first one with its handshake, `m` data centres are named, known, connected
      to and agree on a key before the code is sent; from a test data centre it is the test data centre of
      that number. */
  ghost predicate Leads(w: World, sc: Scripts, k: nat, m: nat) {
    && m < |sc.replies| && sc.replies[m] == CodeSent && k + 1 + m <= |sc.connects| && 1 + m <= |sc.handshakes|
    && forall i :: 0 <= i < m ==>
         && sc.replies[i].CodeRefused? && sc.replies[i].dc > 0
         && w.known(if w.start < 0 then -sc.replies[i].dc else sc.replies[i].dc)
         && sc.connects[k + 1 + i] && sc.handshakes[1 + i]
  }

  lemma PathLeads(w: World, sc: Scripts, sc2: Scripts, k: nat, m: nat)
    requires k < |sc.connects| && sc.handshakes != []
    requires sc2 == Scripts(sc.connects[k + 1..], sc.handshakes[1..], sc.replies)
    ensures Path(w.start, w.known, sc2, m) <==> Leads(w, sc, k, m)
  {
    if Path(w.start, w.known, sc2, m) {
      forall i | 0 <= i < m
        ensures sc.replies[i].CodeRefused? && sc.replies[i].dc > 0
        ensures w.known(if w.start < 0 then -sc.replies[i].dc else sc.replies[i].dc)
        ensures sc.connects[k + 1 + i] && sc.handshakes[1 + i]
      {
        assert Moves(w.start, w.known, sc2.replies[i]) && sc2.connects[i] && sc2.handshakes[i];
      }
    }
    if Leads(w, sc, k, m) {
      forall i | 0 <= i < m ensures Moves(w.start, w.known, sc2.replies[i]) && sc2.connects[i] && sc2.handshakes[i] {
        assert sc.replies[i].CodeRefused? && sc.connects[k + 1 + i] && sc.handshakes[1 + i];
      }
    }
  }

  /** Where a login ends and as whom: at the stored data centre, or as many migrations from the start as
      there were replies that asked for one, at the data centre the last of them named. */
  lemma LoginResult(w: World, sc: Scripts)
    requires Outcome(w, sc).ok
    ensures var o := Outcome(w, sc);
            && (o.fast ==> w.stored == Some(o.dc))
            && (!o.fast ==>
                  && o.migrations < |sc.replies| && sc.replies[o.migrations] == CodeSent
                  && (o.migrations == 0 ==> o.dc == w.start)
                  && (o.migrations > 0 ==>
                        var r := sc.replies[o.migrations - 1];
                        r.CodeRefused? && o.dc == if w.start < 0 then -r.dc else r.dc)
                  && (w.signIn.SignedIn? ==> o.user == w.signIn.user)
                  && (w.signIn.SignUpRequired? ==> w.signUp == Some(o.user))
                  && (w.signIn.PasswordNeeded? ==> w.checkPassword == Some(o.user)))
  {
    hide CodeLoop, Path;
    if !Restores(w, sc) {
      var sc2 := Connecting(w.start, w.known, AfterRestore(w, sc)).1;
      var m := SuccessHasPath(w.start, 0, w.known, sc2);
      PathSucceeds(w.start, 0, w.known, sc2, m);
      PathReplies(w.start, w.known, sc2, m);
    }
  }

  lemma PathReplies(dc: int, known: int -> bool, sc: Scripts, m: nat)
    requires Path(dc, known, sc, m)
    ensures m < |sc.replies| && sc.replies[m] == CodeSent && (m > 0 ==> sc.replies[m - 1].CodeRefused?)
  {
    if m > 0 { assert Moves(dc, known, sc.replies[m - 1]); }
  }

  /** A run that takes the soft migration: the second data centre answers but refuses the handshake.
      The server would send the code if it were asked again, but the key is gone, so the login fails
      with that reply unread. */
  lemma SoftMigrationTaken()
    ensures var sc := Scripts([true, true, true], [true, false], [CodeRefused(4), CodeSent]);
            var w := World(None, dc => true, 2, true, true, SignedIn(7), None, None, false, false, None);
            Outcome(w, sc) == Flow(false, 0, 0, 1, true, false, Scripts([], [], [CodeSent]))
  {
    hide CodeLoop;
    var known: int -> bool := dc => true;
    var replies := [CodeRefused(4), CodeSent];
    assert Rest([true, true, true]) == [true, true] && Rest([true, true]) == [true] && Rest([true]) == [];
    assert Rest([true, false]) == [false] && Rest([false]) == [] && Rest(replies) == [CodeSent];
    SoftStep(2, 0, known, Scripts([true, true], [false], replies));
  }

  /** The first half of a soft migration is a handshake that fails on an endpoint that answers. */
  lemma SoftStep(dc: int, n: nat, known: int -> bool, sc: Scripts)
    requires n < MAX_MIGRATIONS && sc.replies != [] && Moves(dc, known, sc.replies[0])
    requires Next(sc.connects) && !Next(sc.handshakes) && Next(Rest(sc.connects))
    ensures CodeLoop(dc, true, n, false, known, sc) ==
            CodeRun(false, Target(dc, sc.replies[0].dc), n + 1, true,
                    Scripts(Rest(Rest(sc.connects)), Rest(sc.handshakes), Rest(sc.replies)))
  {
    NoKeyNoCode(Target(dc, sc.replies[0].dc), n + 1, true, known,
                Scripts(Rest(Rest(sc.connects)), Rest(sc.handshakes), Rest(sc.replies)));
  }

  // ---- the client ----

  /** Where the session's key comes from. */
  datatype Origin = NoKey | Stored(dc: int) | Agreed(dc: int)

  class Client {
    var open: bool
    var dcId: int
    var hasKey: bool
    ghost var origin: Origin
    var connects: seq<bool>
    var handshakes: seq<bool>
    var replies: seq<CodeReply>

    ghost predicate Consistent()
      reads this
    {
      hasKey <==> origin != NoKey
    }

    ghost function Left(): Scripts
      reads this
    {
      Scripts(connects, handshakes, replies)
    }

    /** Connected to `dc` with a key of this origin. */
    ghost predicate Ready(dc: int, from: Origin)
      reads this
    {
      open && dcId == dc && hasKey && origin == from
    }

    /** `mtproto_session_init` */
    method InitSession()
      modifies this`hasKey, this`origin
      ensures !hasKey && origin == NoKey
    {
      hasKey, origin := false, NoKey;
    }

    /** `transport_connect` */
    method Connect() returns (ok: bool)
      modifies this`open, this`connects
      ensures open == ok == Next(old(connects)) && connects == Rest(old(connects))
    {
      ok := connects != [] && connects[0];
      if connects != [] { connects := connects[1..]; }
      open := ok;
    }

    method Close()
      modifies this`open
      ensures !open
    {
      open := false;
    }

    /** `mtproto_auth_key_gen` on a connected transport: a failure leaves the session alone. */
    method KeyGen() returns (ok: bool)
      modifies this`hasKey, this`origin, this`handshakes
      ensures ok == Next(old(handshakes)) && handshakes == Rest(old(handshakes))
      ensures ok ==> hasKey && origin == Agreed(dcId)
      ensures !ok ==> hasKey == old(hasKey) && origin == old(origin)
    {
      ok := handshakes != [] && handshakes[0];
      if handshakes != [] { handshakes := handshakes[1..]; }
      if ok { hasKey, origin := true, Agreed(dcId); }
    }

    /** `connect_dc_ex` with the same data centre for endpoint and handshake. */
    method ConnectDc(dc: int, known: int -> bool) returns (ok: bool)
      requires Consistent()
      modifies this
      ensures Consistent() && (ok, Left()) == Connecting(dc, known, old(Left()))
      ensures ok ==> Ready(dc, Agreed(dc))
      ensures !ok ==> hasKey == old(hasKey) && origin == old(origin)
    {
      if !known(dc) { return false; }
      ok := Connect();
      if !ok { return false; }
      dcId := dc;
      ok := KeyGen();
      if !ok { Close(); return false; }
      dcId := dc;
    }

    /** `migrate`: everything is torn down first, so a failure leaves no key. */
    method Migrate(dc: int, known: int -> bool) returns (ok: bool)
      requires Consistent()
      modifies this
      ensures Consistent() && (ok, Left()) == Connecting(dc, known, old(Left()))
      ensures ok ==> Ready(dc, Agreed(dc))
      ensures !ok ==> !hasKey
    {
      Close();
      InitSession();
      ok := ConnectDc(dc, known);
    }

    /** `migrate_soft`: only the connection moves. */
    method MigrateSoft(dc: int, known: int -> bool) returns (ok: bool)
      requires Consistent()
      modifies this
      ensures Consistent() && hasKey == old(hasKey) && origin == old(origin)
      ensures ok <==> known(dc) && Next(old(connects))
      ensures Left() == if known(dc) then old(Left()).(connects := Rest(old(connects))) else old(Left())
      ensures ok ==> open && dcId == dc
    {
      Close();
      if !known(dc) { return false; }
      ok := Connect();
      if !ok { return false; }
      dcId := dc;
    }

    /** `auth_send_code`: without a key nothing can be sent, and the failure names no data centre. */
    method SendCode() returns (r: CodeReply)
      modifies this`replies
      ensures r == if hasKey && old(replies) != [] then old(replies)[0] else CodeRefused(-1)
      ensures replies == if hasKey then Rest(old(replies)) else old(replies)
    {
      if !hasKey || replies == [] { return CodeRefused(-1); }
      r := replies[0];
      replies := replies[1..];
    }

    /** The fast path: take over the stored session and connect to its data centre. */
    method Restore(w: World) returns (ok: bool)
      requires Consistent()
      modifies this
      ensures Consistent() && ok == Restores(w, old(Left())) && Left() == AfterRestore(w, old(Left()))
      ensures ok ==> Ready(w.stored.value, Stored(w.stored.value))
      ensures !ok ==> !hasKey
    {
      InitSession();
      if w.stored.None? { return false; }
      hasKey, origin := true, Stored(w.stored.value);
      if w.known(w.stored.value) {
        ok := Connect();
        if ok { dcId := w.stored.value; return true; }
        Close();
      }
      InitSession();
      ok := false;
    }

    /** The sendCode loop. */
    method RequestCode(dc0: int, w: World) returns (ok: bool, dc: int, migrations: nat, ghost soft: bool)
      requires Consistent() && Ready(dc0, Agreed(dc0))
      modifies this
      ensures Consistent() && CodeRun(ok, dc, migrations, soft, Left()) ==
              CodeLoop(dc0, true, 0, false, w.known, old(Left()))
      ensures ok ==> Ready(dc, Agreed(dc))
    {
      hide Connecting;
      dc, migrations, soft := dc0, 0, false;
      ghost var whole := CodeLoop(dc0, true, 0, false, w.known, Left());
      while true
        invariant Consistent() && migrations <= MAX_MIGRATIONS
        invariant if soft then !hasKey else Ready(dc, Agreed(dc))
        invariant CodeLoop(dc, hasKey, migrations, soft, w.known, Left()) == whole
        decreases MAX_MIGRATIONS - migrations
      {
        var r := SendCode();
        if r.CodeSent? { return true, dc, migrations, soft; }
        if r.dc > 0 && migrations < MAX_MIGRATIONS {
          migrations := migrations + 1;
          var target := if dc < 0 then -r.dc else r.dc;
          var moved := Migrate(target, w.known);
          if moved { dc := target; continue; }
          soft := true;
          moved := MigrateSoft(target, w.known);
          if !moved { return false, dc, migrations, soft; }
          dc := target;
          continue;
        }
        return false, dc, migrations, soft;
      }
    }

    /** The signIn loop, which never takes a second turn: a migration during sign-in gives up. */
    method SignIn(dc: int, migrations0: nat, w: World) returns (ok: bool, user: int, migrations: nat)
      requires Consistent() && Ready(dc, Agreed(dc)) && migrations0 <= MAX_MIGRATIONS
      modifies this
      ensures Consistent() && ok == SignsIn(w)
      ensures ok ==> Ready(dc, Agreed(dc)) && user == UserOf(w)
      ensures !ok && Sidetracked(w, migrations0) ==>
                migrations == migrations0 + 1 && Left() == Connecting(Target(dc, w.signIn.dc), w.known, old(Left())).1
      ensures ok || !Sidetracked(w, migrations0) ==> migrations == migrations0 && Left() == old(Left())
    {
      migrations, user := migrations0, 0;
      match w.signIn
      case SignedIn(u) => return true, u, migrations;
      case SignUpRequired =>
        if w.signUp.None? { return false, 0, migrations; }
        return true, w.signUp.value, migrations;
      case SignInRefused(to) =>
        if to > 0 && migrations < MAX_MIGRATIONS {
          migrations := migrations + 1;
          var target := if dc < 0 then -to else to;
          var moved := Migrate(target, w.known);
        }
        return false, 0, migrations;
      case PasswordNeeded =>
        if w.password.None? || !w.getPassword || !w.hasPassword || !w.password.value { return false, 0, migrations; }
        if w.checkPassword.None? { return false, 0, migrations; }
        return true, w.checkPassword.value, migrations;
    }

    /** `auth_flow_login`: the outcome, and on success a connection to the data centre reported, with
        a key that was stored for it or agreed on it. */
    method Run(w: World) returns (ok: bool, dc: int, user: int, ghost flow: Flow)
      requires Consistent()
      modifies this
      ensures Consistent() && flow == Outcome(w, old(Left())) && flow.left == Left()
      ensures (ok, dc, user) == (flow.ok, flow.dc, flow.user)
      ensures ok ==> Ready(dc, if flow.fast then Stored(dc) else Agreed(dc))
      ensures flow.migrations <= MAX_MIGRATIONS && (flow.soft ==> !ok)
    {
      hide CodeLoop, Connecting;
      ghost var sc := Left();
      flow := Outcome(w, sc);
      LoginBounds(w, sc);
      ok := Restore(w);
      if ok { return true, w.stored.value, 0, flow; }
      ok := ConnectDc(w.start, w.known);
      if !ok || !w.phone { return false, 0, 0, flow; }
      var migrations;
      ghost var soft;
      CodeLoopBounds(w.start, true, 0, false, w.known, Left());
      ok, dc, migrations, soft := RequestCode(w.start, w);
      if !ok || !w.code { return false, 0, 0, flow; }
      ok, user, migrations := SignIn(dc, migrations, w);
      if !ok { return false, 0, 0, flow; }
    }
  }
}
