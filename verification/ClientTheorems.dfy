/** What holds of every run of a TunaSessionClient (client.go). Events are told from the
    section that runs and its outcome, and tallied over the run itself, so none of the
    statements below rests on the history that `ClientRuns` carries along. */
module ClientTheorems {
  import opened ClientTables
  import opened Options
  import opened ClientRuns

  // ---- events of a run ----

  datatype Event = Registering | Creating | Enqueueing | TearingDown

  ghost predicate Creates(w: World, a: Action, key: Text) {
    a.Arrive? && a.key == key && Register(w.tables, a.key, a.slot, a.conn, a.minted).1.Created?
  }

  /** The sweeper removes the key, or a handler's exit section finds that it should close. */
  ghost predicate TearsDown(w: World, a: Action, key: Text)
    requires Enabled(w, a)
  {
    || (a.Sweep? && key in a.keys)
    || (a.ExitHandler? &&
        var task := w.tasks[a.id];
        var exit := Exit(w.tables, task.key, task.remote, task.peer, task.slot);
        task.key == key && exit.Exited? && exit.shouldClose)
  }

  ghost predicate Happens(e: Event, w: World, a: Action, key: Text) {
    Enabled(w, a) &&
    match e
    case Registering => Creates(w, a, key) || (a.RegisterDial? && a.key == key)
    case Creating => Creates(w, a, key)
    case Enqueueing =>
      a.FirstMessage? && a.ok && |w.acceptSession| < ACCEPT_SESSION_BUF_SIZE && w.tasks[a.id].key == key
    case TearingDown => TearsDown(w, a, key)
  }

  ghost function Tally(e: Event, actions: seq<Action>, key: Text): nat {
    if actions == [] then 0
    else
      var front, last := actions[..|actions| - 1], actions[|actions| - 1];
      Tally(e, front, key) + if Happens(e, Run(INIT, front), last, key) then 1 else 0
  }

  /** How many handlers of the key were live when it was last swept; none if it never was. */
  ghost function OrphansOfLastSweep(actions: seq<Action>, key: Text): nat {
    if actions == [] then 0
    else
      var front, last := actions[..|actions| - 1], actions[|actions| - 1];
      var w := Run(INIT, front);
      if last.Sweep? && key in last.keys && Enabled(w, last) then |LiveOf(w.tasks, key)|
      else OrphansOfLastSweep(front, key)
  }

  ghost predicate Closed(w: World, key: Text) {
    IsSessClosed(w.tables, w.closed, key)
  }

  lemma {:induction false} Reached(actions: seq<Action>)
    ensures Inv(Run(INIT, actions))
  {
    InitInv();
    RunKeepsInv(INIT, actions);
  }

  lemma ExitEvents(w: World, id: nat, key: Text)
    requires Inv(w) && Enabled(w, ExitHandler(id))
    ensures var w', task := Step(w, ExitHandler(id)), w.tasks[id];
      && Happens(TearingDown, w, ExitHandler(id), key) == (task.key == key && Count(w.tables.connCount, key) == 1)
      && Count(w'.ledger.torn, key) == Count(w.ledger.torn, key) + One(Happens(TearingDown, w, ExitHandler(id), key))
      && (key in w'.tables.sessions <==> key in w.tables.sessions && !Happens(TearingDown, w, ExitHandler(id), key))
      && (Closed(w, key) ==> Closed(w', key))
  {
    var task := w.tasks[id];
    StepDoesNotPanic(w, ExitHandler(id));
    ExitEffect(w.tables, task.key, task.remote, task.peer, task.slot, key);
  }

  lemma SweepEvents(w: World, keys: set<Text>, key: Text)
    requires Enabled(w, Sweep(keys))
    ensures Count(Step(w, Sweep(keys)).ledger.torn, key) == Count(w.ledger.torn, key) + One(key in keys)
    ensures Count(Step(w, Sweep(keys)).ledger.orphaned, key) ==
            if key in keys then |LiveOf(w.tasks, key)| else Count(w.ledger.orphaned, key)
  {}

  ghost predicate LedgerFollows(w: World, a: Action, key: Text) {
    var l, l' := w.ledger, Step(w, a).ledger;
    && Count(l'.registered, key) == Count(l.registered, key) + One(Happens(Registering, w, a, key))
    && Count(l'.created, key) == Count(l.created, key) + One(Happens(Creating, w, a, key))
    && Count(l'.enqueued, key) == Count(l.enqueued, key) + One(Happens(Enqueueing, w, a, key))
    && (key in l'.expired ==> key in l.expired || a == Expire(key))
    && (!a.ExitHandler? && !a.Sweep? ==> l'.torn == l.torn && l'.orphaned == l.orphaned)
  }

  lemma ArriveEvents(w: World, a: Action, key: Text)
    requires a.Arrive?
    ensures LedgerFollows(w, a, key)
  {}

  lemma FirstMessageEvents(w: World, a: Action, key: Text)
    requires a.FirstMessage?
    ensures LedgerFollows(w, a, key)
  {}

  lemma HandlerEvents(w: World, a: Action, key: Text)
    requires a.EnterHandler? || a.ExitHandler? || a.Sweep?
    ensures LedgerFollows(w, a, key)
  {}

  lemma OtherEvents(w: World, a: Action, key: Text)
    requires !a.Arrive? && !a.FirstMessage? && !a.EnterHandler? && !a.ExitHandler? && !a.Sweep?
    ensures LedgerFollows(w, a, key)
  {}

  lemma StepEvents(w: World, a: Action, key: Text)
    requires Inv(w)
    ensures LedgerFollows(w, a, key)
    ensures var l, l' := w.ledger, Step(w, a).ledger;
      && Count(l'.torn, key) == Count(l.torn, key) + One(Happens(TearingDown, w, a, key))
      && Count(l'.orphaned, key) ==
           if a.Sweep? && Enabled(w, a) && key in a.keys then |LiveOf(w.tasks, key)| else Count(l.orphaned, key)
  {
    match a
    case Arrive(_, _, _, _, _, _, _) => ArriveEvents(w, a, key);
    case FirstMessage(_, _) => FirstMessageEvents(w, a, key);
    case EnterHandler(_) => HandlerEvents(w, a, key);
    case ExitHandler(id) =>
      HandlerEvents(w, a, key);
      if Enabled(w, a) {
        ExitEvents(w, id, key);
      }
    case Sweep(keys) =>
      HandlerEvents(w, a, key);
      if Enabled(w, a) {
        SweepEvents(w, keys, key);
      }
    case _ => OtherEvents(w, a, key);
  }

  /** The history carried by `ClientRuns` records exactly these events. */
  lemma {:induction false} LedgerIsTally(actions: seq<Action>, key: Text)
    ensures var l := Run(INIT, actions).ledger;
      && Count(l.registered, key) == Tally(Registering, actions, key)
      && Count(l.created, key) == Tally(Creating, actions, key)
      && Count(l.enqueued, key) == Tally(Enqueueing, actions, key)
      && Count(l.torn, key) == Tally(TearingDown, actions, key)
      && Count(l.orphaned, key) == OrphansOfLastSweep(actions, key)
      && (key in l.expired ==> Expire(key) in actions)
  {
    if actions != [] {
      var front, last := actions[..|actions| - 1], actions[|actions| - 1];
      assert actions == front + [last];
      LedgerIsTally(front, key);
      Reached(front);
      StepEvents(Run(INIT, front), last, key);
    }
  }

  // ---- safety of the map operations ----

  /** Whatever the interleaving, no section ever writes to a missing inner map, every session
      has its connection table, and no live key is tombstoned. */
  lemma {:induction false} NoNilMapWrite(actions: seq<Action>)
    ensures var w := Run(INIT, actions);
      && !w.panicked
      && w.tables.sessions.Keys <= w.tables.sessionConns.Keys
      && w.tables.sessions.Keys !! w.tables.closedSessionKey
  {
    Reached(actions);
    var w := Run(INIT, actions);
    forall key | key in w.tables.sessions
      ensures key in w.tables.sessionConns && key !in w.tables.closedSessionKey
    {
      assert LifeInv(w, key);
    }
  }

  // ---- handler counts and teardown ----

  /** connCount is the number of live handlers less those the last sweep left behind. */
  lemma {:induction false} ConnCountIsLiveMinusOrphans(actions: seq<Action>, key: Text)
    ensures var w := Run(INIT, actions);
      Count(w.tables.connCount, key) == |LiveOf(w.tasks, key)| - OrphansOfLastSweep(actions, key)
  {
    Reached(actions);
    assert CountInv(Run(INIT, actions), key);
    LedgerIsTally(actions, key);
  }

  /** A registration never overwrites a session, and a teardown always finds one, removes it
      and leaves a tombstone, whatever was swept, expired or reused before. */
  lemma {:induction false} EventsFitTables(actions: seq<Action>, a: Action, key: Text)
    ensures var w, w' := Run(INIT, actions), Step(Run(INIT, actions), a);
      && (Happens(Registering, w, a, key) ==> key !in w.tables.sessions && key in w'.tables.sessions)
      && (Happens(TearingDown, w, a, key) ==>
            key in w.tables.sessions && key !in w'.tables.sessions && key in w'.tables.closedSessionKey)
  {
    var w := Run(INIT, actions);
    Reached(actions);
    assert CountInv(w, key) && LifeInv(w, key);
    if Happens(Registering, w, a, key) {
      RegistrationFits(w, a, key);
    } else if a.ExitHandler? && Enabled(w, a) {
      var task := w.tasks[a.id];
      StepDoesNotPanic(w, a);
      ExitEffect(w.tables, task.key, task.remote, task.peer, task.slot, key);
    }
  }

  lemma RegistrationFits(w: World, a: Action, key: Text)
    requires LifeInv(w, key) && Happens(Registering, w, a, key)
    ensures key !in w.tables.sessions && key in Step(w, a).tables.sessions
  {}

  /** Sessions are conserved: each one registered has been torn down once, or is the one in the
      table. */
  lemma {:induction false} SessionsBalance(actions: seq<Action>, key: Text)
    ensures Tally(Registering, actions, key) ==
            Tally(TearingDown, actions, key) + One(key in Run(INIT, actions).tables.sessions)
  {
    Reached(actions);
    assert LifeInv(Run(INIT, actions), key);
    LedgerIsTally(actions, key);
  }

  /** While its tombstone does not expire, a key is registered, created by the listener,
      queued for accept and torn down at most once each. */
  lemma {:induction false} KeyIsUsedOnce(actions: seq<Action>, key: Text)
    requires Expire(key) !in actions
    ensures Tally(Creating, actions, key) <= Tally(Registering, actions, key) <= 1
    ensures Tally(Enqueueing, actions, key) <= Tally(Creating, actions, key)
    ensures Tally(TearingDown, actions, key) <= 1
  {
    Reached(actions);
    assert LifeInv(Run(INIT, actions), key);
    LedgerIsTally(actions, key);
  }

  /** The exit of a handler tears its session down exactly when the handlers that stay live
      are as many as the last sweep of the key left behind. */
  lemma {:induction false} ExitTearsDownIff(actions: seq<Action>, id: nat)
    requires Enabled(Run(INIT, actions), ExitHandler(id))
    ensures var w := Run(INIT, actions);
      var key := w.tasks[id].key;
      Happens(TearingDown, w, ExitHandler(id), key) <==>
        |LiveOf(w.tasks, key)| - 1 == OrphansOfLastSweep(actions, key)
  {
    var w := Run(INIT, actions);
    var key := w.tasks[id].key;
    Reached(actions);
    ExitEvents(w, id, key);
    ConnCountIsLiveMinusOrphans(actions, key);
  }

  /** With no expiry of the key, a session ends by a sweep or by the exit of its last live
      handler, and that exit always ends it if it is still there. */
  lemma {:induction false} LastHandlerEndsSession(actions: seq<Action>, a: Action, key: Text)
    requires Expire(key) !in actions
    ensures var w := Run(INIT, actions);
      && (Happens(TearingDown, w, a, key) ==> a.Sweep? || (a.ExitHandler? && LiveOf(w.tasks, key) == {a.id}))
      && (a.ExitHandler? && Enabled(w, a) && LiveOf(w.tasks, key) == {a.id} && key in w.tables.sessions ==>
            Happens(TearingDown, w, a, key))
  {
    var w := Run(INIT, actions);
    Reached(actions);
    EventsFitTables(actions, a, key);
    if a.ExitHandler? && Enabled(w, a) {
      ExitEvents(w, a.id, key);
      if key in w.tables.sessions && w.tasks[a.id].key == key {
        NoOrphans(actions, key);
        ConnCountIsLiveMinusOrphans(actions, key);
        Singleton(LiveOf(w.tasks, key), a.id);
      }
    }
  }

  /** A session whose key has not expired has never been swept before. */
  lemma {:induction false} NoOrphans(actions: seq<Action>, key: Text)
    requires Expire(key) !in actions && key in Run(INIT, actions).tables.sessions
    ensures OrphansOfLastSweep(actions, key) == 0
  {
    Reached(actions);
    assert CountInv(Run(INIT, actions), key);
    KeyIsUsedOnce(actions, key);
    SessionsBalance(actions, key);
    LedgerIsTally(actions, key);
  }

  lemma Singleton(s: set<nat>, x: nat)
    requires x in s
    ensures |s| == 1 <==> s == {x}
  {
    if |s| == 1 {
      assert |s - {x}| == 0;
    }
  }

  /** So the rule "a session is torn down by the exit of its last handler, and by no other exit"
      holds of an exit exactly when there is no session, or no orphans are outstanding, or the
      live handlers left are neither none nor as many as the orphans. */
  lemma {:induction false} LastHandlerRuleIff(actions: seq<Action>, id: nat)
    requires Enabled(Run(INIT, actions), ExitHandler(id))
    ensures var w := Run(INIT, actions);
      var key := w.tasks[id].key;
      var left, orphans := |LiveOf(w.tasks, key)| - 1, OrphansOfLastSweep(actions, key);
      (Happens(TearingDown, w, ExitHandler(id), key) <==> key in w.tables.sessions && LiveOf(w.tasks, key) == {id}) <==>
        (key !in w.tables.sessions || orphans == 0 || (left != 0 && left != orphans))
  {
    var w := Run(INIT, actions);
    var key := w.tasks[id].key;
    ExitTearsDownIff(actions, id);
    EventsFitTables(actions, ExitHandler(id), key);
    assert id in LiveOf(w.tasks, key);
    Singleton(LiveOf(w.tasks, key), id);
  }

  // ---- runs that break the rule ----

  /** What the steps below need to know of a world without dials: its goroutines, and for one
      key its session, whether it is tombstoned, and its handler count. */
  ghost predicate At(w: World, key: Text, tasks: map<nat, Task>, sess: Option<Sid>, tombstoned: bool, count: int) {
    && Inv(w) && w.dials == map[] && w.tasks == tasks
    && (if key in w.tables.sessions then Some(w.tables.sessions[key]) else None) == sess
    && (key in w.tables.closedSessionKey <==> tombstoned)
    && Count(w.tables.connCount, key) == count
  }

  function Handler(key: Text, pc: Pc): Task {
    Task(key, Text("r"), Text("p"), Text("0"), pc)
  }

  lemma {:induction false} Then(before: seq<Action>, a: Action) returns (actions: seq<Action>)
    ensures Run(INIT, actions) == Step(Run(INIT, before), a)
    ensures Inv(Run(INIT, actions))
  {
    actions := before + [a];
    assert actions[..|before|] == before;
    Reached(actions);
  }

  lemma Opens(before: seq<Action>, key: Text, id: nat, tasks: map<nat, Task>, count: int) returns (actions: seq<Action>)
    requires At(Run(INIT, before), key, tasks, None, false, count) && id !in tasks
    ensures At(Run(INIT, actions), key, tasks[id := Handler(key, AwaitFirst(id))], Some(id), false, count)
  {
    actions := Then(before, Arrive(id, key, Text("r"), Text("p"), Text("0"), Conn(id), Some(id)));
  }

  lemma Hears(before: seq<Action>, key: Text, id: nat, tasks: map<nat, Task>, sess: Sid, count: int)
    returns (actions: seq<Action>)
    requires id in tasks && tasks[id] == Handler(key, AwaitFirst(sess))
    requires At(Run(INIT, before), key, tasks, Some(sess), false, count)
    ensures At(Run(INIT, actions), key, tasks[id := Handler(key, Ready)], Some(sess), false, count)
  {
    actions := Then(before, FirstMessage(id, true));
  }

  lemma Joins(before: seq<Action>, key: Text, id: nat, tasks: map<nat, Task>, sess: Sid, count: int)
    returns (actions: seq<Action>)
    requires At(Run(INIT, before), key, tasks, Some(sess), false, count) && id !in tasks
    ensures At(Run(INIT, actions), key, tasks[id := Handler(key, Ready)], Some(sess), false, count)
  {
    assert LifeInv(Run(INIT, before), key);
    actions := Then(before, Arrive(id, key, Text("r"), Text("p"), Text("0"), Conn(id), None));
  }

  lemma Enters(before: seq<Action>, key: Text, id: nat, tasks: map<nat, Task>, sess: Sid, count: int)
    returns (actions: seq<Action>)
    requires id in tasks && tasks[id] == Handler(key, Ready)
    requires At(Run(INIT, before), key, tasks, Some(sess), false, count)
    ensures At(Run(INIT, actions), key, tasks[id := Handler(key, Live)], Some(sess), false, count + 1)
  {
    actions := Then(before, EnterHandler(id));
  }

  lemma ClosesAndIsSwept(before: seq<Action>, key: Text, tasks: map<nat, Task>, sess: Sid, count: int)
    returns (actions: seq<Action>)
    requires At(Run(INIT, before), key, tasks, Some(sess), false, count)
    ensures At(Run(INIT, actions), key, tasks, None, true, 0)
  {
    actions := Then(before, CloseSession(sess));
    actions := Then(actions, Sweep({key}));
  }

  lemma Exits(before: seq<Action>, key: Text, id: nat, tasks: map<nat, Task>, count: int) returns (actions: seq<Action>)
    requires id in tasks && tasks[id] == Handler(key, Live) && count <= 0
    requires At(Run(INIT, before), key, tasks, None, true, count)
    ensures At(Run(INIT, actions), key, tasks - {id}, None, true, count - 1)
  {
    var w := Run(INIT, before);
    StepDoesNotPanic(w, ExitHandler(id));
    ExitEffect(w.tables, key, Text("r"), Text("p"), Text("0"), key);
    actions := Then(before, ExitHandler(id));
  }

  lemma Expires(before: seq<Action>, key: Text, tasks: map<nat, Task>, count: int) returns (actions: seq<Action>)
    requires At(Run(INIT, before), key, tasks, None, true, count)
    ensures At(Run(INIT, actions), key, tasks, None, false, count)
  {
    actions := Then(before, Expire(key));
  }

  lemma Use(before: seq<Action>, key: Text, id: nat, count: int) returns (actions: seq<Action>)
    requires At(Run(INIT, before), key, map[], None, false, count)
    ensures At(Run(INIT, actions), key, map[id := Handler(key, Live)], Some(id), false, count + 1)
  {
    actions := Opens(before, key, id, map[], count);
    actions := Hears(actions, key, id, map[id := Handler(key, AwaitFirst(id))], id, count);
    actions := Enters(actions, key, id, map[id := Handler(key, Ready)], id, count);
  }

  lemma UseUp(key: Text) returns (actions: seq<Action>)
    ensures At(Run(INIT, actions), key, map[], None, false, -1)
  {
    InitInv();
    actions := Use([], key, 0, 0);
    actions := ClosesAndIsSwept(actions, key, map[0 := Handler(key, Live)], 0, 1);
    actions := Exits(actions, key, 0, map[0 := Handler(key, Live)], 0);
    actions := Expires(actions, key, map[], -1);
  }

  /** For every key there is a run in which a handler's exit tears its session down although
      another handler is live: the key was swept under a handler, then reused. */
  lemma {:induction false} ReusedKeyLosesALiveHandler(key: Text) returns (actions: seq<Action>)
    ensures Happens(TearingDown, Run(INIT, actions), ExitHandler(2), key)
    ensures LiveOf(Run(INIT, actions).tasks, key) == {1, 2}
  {
    actions := UseUp(key);
    actions := Use(actions, key, 1, -1);
    actions := Joins(actions, key, 2, map[1 := Handler(key, Live)], 1, 0);
    actions := Enters(actions, key, 2, map[1 := Handler(key, Live), 2 := Handler(key, Ready)], 1, 0);
    ExitEvents(Run(INIT, actions), 2, key);
  }

  /** And one in which the last handler exits and leaves its session behind. */
  lemma {:induction false} ReusedKeyKeepsADeadSession(key: Text) returns (actions: seq<Action>)
    ensures var w := Run(INIT, actions);
      && Enabled(w, ExitHandler(1)) && LiveOf(w.tasks, key) == {1} && key in w.tables.sessions
      && !Happens(TearingDown, w, ExitHandler(1), key)
      && key in Step(w, ExitHandler(1)).tables.sessions && LiveOf(Step(w, ExitHandler(1)).tasks, key) == {}
  {
    actions := UseUp(key);
    actions := Use(actions, key, 1, -1);
    var w := Run(INIT, actions);
    ExitEvents(w, 1, key);
    StepDoesNotPanic(w, ExitHandler(1));
  }

  // ---- dialing ----

  /** The connections dialed for a key, the latest one per slot. */
  ghost function DialedBy(actions: seq<Action>, key: Text): map<Text, Conn> {
    if actions == [] then map[]
    else
      var front, last := actions[..|actions| - 1], actions[|actions| - 1];
      var before := DialedBy(front, key);
      if last.Dialed? && last.key == key && Enabled(Run(INIT, front), last) then before[last.slot := last.conn]
      else before
  }

  ghost function TableOf(w: World, key: Text): map<Text, Conn> {
    if key in w.tables.sessionConns then w.tables.sessionConns[key] else map[]
  }

  /** Before its session is registered, nothing but the dial itself touches a key's table. */
  ghost predicate DialInv(w: World, dialed: map<Text, Conn>, key: Text) {
    && (key in w.dials && w.dials[key] != Registered ==> TableOf(w, key) == dialed)
    && (key in w.dials && w.dials[key] == Checked ==> dialed != map[])
    && (key !in w.dials ==> dialed == map[])
    && (key !in w.dials && key !in w.arrived ==> key !in w.tables.sessionConns)
  }

  lemma ExitKeepsDial(w: World, id: nat, dialed: map<Text, Conn>, key: Text)
    requires Inv(w) && Enabled(w, ExitHandler(id)) && DialInv(w, dialed, key)
    ensures DialInv(Step(w, ExitHandler(id)), dialed, key)
  {
    var task := w.tasks[id];
    assert CountInv(w, key) && LifeInv(w, key);
    assert task.key == key ==> id in LiveOf(w.tasks, key);
    StepDoesNotPanic(w, ExitHandler(id));
    ExitEffect(w.tables, task.key, task.remote, task.peer, task.slot, key);
  }

  lemma ArriveKeepsDial(w: World, a: Action, dialed: map<Text, Conn>, key: Text)
    requires a.Arrive? && Enabled(w, a) && DialInv(w, dialed, key)
    ensures DialInv(DoArrive(w, a), dialed, key)
  {}

  lemma QuietKeepsDial(w: World, a: Action, dialed: map<Text, Conn>, key: Text)
    requires LifeInv(w, key) && Enabled(w, a) && DialInv(w, dialed, key)
    requires !a.Arrive? && !a.ExitHandler? && !a.Dialed?
    ensures DialInv(Step(w, a), dialed, key)
  {}

  lemma StepKeepsDial(w: World, a: Action, dialed: map<Text, Conn>, key: Text)
    requires Inv(w) && Enabled(w, a) && DialInv(w, dialed, key)
    ensures DialInv(Step(w, a), if a.Dialed? && a.key == key then dialed[a.slot := a.conn] else dialed, key)
  {
    match a
    case Arrive(_, _, _, _, _, _, _) => ArriveKeepsDial(w, a, dialed, key);
    case ExitHandler(id) => ExitKeepsDial(w, id, dialed, key);
    case Dialed(_, _, _) =>
    case _ =>
      assert LifeInv(w, key);
      QuietKeepsDial(w, a, dialed, key);
  }

  lemma {:induction false} DialTableIsDialed(actions: seq<Action>, key: Text)
    ensures DialInv(Run(INIT, actions), DialedBy(actions, key), key)
  {
    if actions != [] {
      var front, last := actions[..|actions| - 1], actions[|actions| - 1];
      DialTableIsDialed(front, key);
      Reached(front);
      if Enabled(Run(INIT, front), last) {
        StepKeepsDial(Run(INIT, front), last, DialedBy(front, key), key);
      }
    }
  }

  /** When a dialed session is registered, its key has no session yet, and its table holds
      exactly the connections dialed for it, of which there is at least one. */
  lemma {:induction false} DialRegistersItsConns(actions: seq<Action>, key: Text, sess: Sid)
    requires Enabled(Run(INIT, actions), RegisterDial(key, sess))
    ensures var w := Run(INIT, actions);
      && key !in w.tables.sessions && key in w.tables.sessionConns
      && w.tables.sessionConns[key] == DialedBy(actions, key) != map[]
  {
    DialTableIsDialed(actions, key);
    EventsFitTables(actions, RegisterDial(key, sess), key);
  }

  // ---- address counts ----

  /** addrConnCount counts the live handlers per address, and nothing else is stored in it. */
  lemma {:induction false} AddrCountsAreLiveHandlers(actions: seq<Action>, remote: Text, peer: Text)
    ensures var w := Run(INIT, actions);
      && AddrCount(w.tables, remote, peer) == |LiveAt(w.tasks, remote, peer)|
      && (remote in w.tables.addrConnCount && peer in w.tables.addrConnCount[remote] <==>
            LiveAt(w.tasks, remote, peer) != {})
      && (remote in w.tables.addrConnCount <==>
            exists id :: id in w.tasks && w.tasks[id].pc.Live? && w.tasks[id].remote == remote)
  {
    var w := Run(INIT, actions);
    Reached(actions);
    assert AddrInv(w, remote, peer);
    if remote in w.tables.addrConnCount {
      var p :| p in w.tables.addrConnCount[remote];
      assert AddrInv(w, remote, p);
      var id :| id in LiveAt(w.tasks, remote, p);
    }
    if id :| id in w.tasks && w.tasks[id].pc.Live? && w.tasks[id].remote == remote {
      assert AddrInv(w, remote, w.tasks[id].peer);
      assert id in LiveAt(w.tasks, remote, w.tasks[id].peer);
    }
  }

  /** Once every handler has exited nothing is left. */
  lemma {:induction false} QuietMeansEmpty(actions: seq<Action>)
    requires forall id :: id in Run(INIT, actions).tasks ==> !Run(INIT, actions).tasks[id].pc.Live?
    ensures Run(INIT, actions).tables.addrConnCount == map[]
  {
    forall remote
      ensures remote !in Run(INIT, actions).tables.addrConnCount
    {
      AddrCountsAreLiveHandlers(actions, remote, Text(""));
    }
  }

  // ---- closedness ----

  lemma StepKeepsClosed(w: World, a: Action, key: Text)
    requires Inv(w) && Closed(w, key) && a != Expire(key)
    ensures Closed(Step(w, a), key)
  {
    if Enabled(w, a) {
      if a.ExitHandler? {
        ExitEvents(w, a.id, key);
      } else if a.Arrive? {
        ArriveKeepsClosed(w, a, key);
      } else {
        assert LifeInv(w, key);
        QuietKeepsClosed(w, a, key);
      }
    }
  }

  lemma QuietKeepsClosed(w: World, a: Action, key: Text)
    requires LifeInv(w, key) && Closed(w, key) && Enabled(w, a) && a != Expire(key) && !a.ExitHandler? && !a.Arrive?
    ensures Closed(Step(w, a), key)
  {}

  lemma ArriveKeepsClosed(w: World, a: Action, key: Text)
    requires a.Arrive? && Closed(w, key)
    ensures Closed(DoArrive(w, a), key)
  {}

  /** A session reported closed stays so, through every step but the expiry of its tombstone. */
  lemma {:induction false} ClosedStaysClosed(actions: seq<Action>, more: seq<Action>, key: Text)
    requires Closed(Run(INIT, actions), key)
    requires Expire(key) !in more
    ensures Closed(Run(Run(INIT, actions), more), key)
  {
    if more != [] {
      var front := more[..|more| - 1];
      ClosedStaysClosed(actions, front, key);
      Reached(actions);
      RunKeepsInv(Run(INIT, actions), front);
      StepKeepsClosed(Run(Run(INIT, actions), front), more[|more| - 1], key);
    }
  }

  lemma StepCloses(w: World, a: Action, sess: Sid)
    requires Inv(w)
    ensures sess in Step(w, a).closed <==> sess in w.closed || a == CloseSession(sess)
  {
    if a.ExitHandler? && Enabled(w, a) {
      StepDoesNotPanic(w, a);
    }
  }

  lemma {:induction false} ClosedSessions(actions: seq<Action>, sess: Sid)
    ensures sess in Run(INIT, actions).closed <==> CloseSession(sess) in actions
  {
    if actions != [] {
      var front, last := actions[..|actions| - 1], actions[|actions| - 1];
      assert actions == front + [last];
      ClosedSessions(front, sess);
      Reached(front);
      StepCloses(Run(INIT, front), last, sess);
    }
  }

  /** While its tombstone does not expire, a key is reported closed exactly if its session was
      torn down, or is in the table and has closed. */
  lemma {:induction false} ClosedMeansEnded(actions: seq<Action>, key: Text)
    requires Expire(key) !in actions
    ensures var w := Run(INIT, actions);
      Closed(w, key) <==>
        || Tally(TearingDown, actions, key) == 1
        || (key in w.tables.sessions && CloseSession(w.tables.sessions[key]) in actions)
  {
    var w := Run(INIT, actions);
    Reached(actions);
    assert LifeInv(w, key);
    LedgerIsTally(actions, key);
    if key in w.tables.sessions {
      ClosedSessions(actions, w.tables.sessions[key]);
    }
  }

  // ---- address cache ----

  /** An exit that leaves its remote without a live handler on some address. */
  ghost predicate Drops(w: World, a: Action, remote: Text) {
    && a.ExitHandler? && Enabled(w, a) && w.tasks[a.id].remote == remote
    && LiveAt(w.tasks, remote, w.tasks[a.id].peer) == {a.id}
  }

  function Cached(t: Tables, remote: Text): Option<AddrList> {
    if remote in t.pubAddrs then Some(t.pubAddrs[remote]) else None
  }

  /** The list stored last for a remote, unless an address of that remote has since dropped out. */
  ghost function StoredSinceDrop(actions: seq<Action>, remote: Text): Option<AddrList> {
    if actions == [] then None
    else
      var front, last := actions[..|actions| - 1], actions[|actions| - 1];
      var w := Run(INIT, front);
      if last.Fill? && last.remote == remote && Enabled(w, last) then Some(last.list)
      else if Drops(w, last, remote) then None
      else StoredSinceDrop(front, remote)
  }

  lemma StepCache(w: World, a: Action, remote: Text)
    requires Inv(w)
    ensures Cached(Step(w, a).tables, remote) ==
      if a.Fill? && a.remote == remote && Enabled(w, a) then Some(a.list)
      else if Drops(w, a, remote) then None
      else Cached(w.tables, remote)
  {
    if Enabled(w, a) && a.ExitHandler? {
      ExitCache(w, a.id, remote);
    }
  }

  lemma ExitCache(w: World, id: nat, remote: Text)
    requires Inv(w) && Enabled(w, ExitHandler(id))
    ensures Cached(DoExit(w, id).tables, remote) ==
      if Drops(w, ExitHandler(id), remote) then None else Cached(w.tables, remote)
  {
    StepDoesNotPanic(w, ExitHandler(id));
    var task := w.tasks[id];
    assert AddrInv(w, task.remote, task.peer);
    assert id in LiveAt(w.tasks, task.remote, task.peer);
    Singleton(LiveAt(w.tasks, task.remote, task.peer), id);
    assert Exit(w.tables, task.key, task.remote, task.peer, task.slot).tables.pubAddrs ==
           LeaveAddr(w.tables, task.remote, task.peer).pubAddrs;
  }

  lemma {:induction false} CacheIsStoredSinceDrop(actions: seq<Action>, remote: Text)
    ensures Cached(Run(INIT, actions).tables, remote) == StoredSinceDrop(actions, remote)
  {
    if actions != [] {
      var front, last := actions[..|actions| - 1], actions[|actions| - 1];
      CacheIsStoredSinceDrop(front, remote);
      Reached(front);
      StepCache(Run(INIT, front), last, remote);
    }
  }

  lemma {:induction false} StoredAt(actions: seq<Action>, remote: Text) returns (i: nat)
    requires StoredSinceDrop(actions, remote).Some?
    ensures i < |actions| && actions[i] == Fill(remote, StoredSinceDrop(actions, remote).value)
    ensures Enabled(Run(INIT, actions[..i]), actions[i])
    ensures forall j :: i < j < |actions| ==> !Drops(Run(INIT, actions[..j]), actions[j], remote)
  {
    var front, last := actions[..|actions| - 1], actions[|actions| - 1];
    if last.Fill? && last.remote == remote && Enabled(Run(INIT, front), last) {
      i := |actions| - 1;
    } else {
      i := StoredAt(front, remote);
      assert front[..i] == actions[..i];
      forall j | i < j < |actions|
        ensures !Drops(Run(INIT, actions[..j]), actions[j], remote)
      {
        if j < |front| {
          assert front[..j] == actions[..j];
        }
      }
    }
  }

  /** The list is the one stored last, no address of that remote has lost its last handler since, and
      each listed address has a live handler now. */
  ghost predicate Hit(actions: seq<Action>, remote: Text, list: AddrList) {
    && StoredSinceDrop(actions, remote) == Some(list)
    && forall n :: 0 <= n < |list| ==>
         list[n].Some? && LiveAt(Run(INIT, actions).tasks, remote, list[n].value.String()) != {}
  }

  /** The lookup finds a list exactly then. */
  lemma {:induction false} CacheHitIff(actions: seq<Action>, remote: Text, list: AddrList)
    ensures CacheLookup(Run(INIT, actions).tables, remote) == Some(list) <==> Hit(actions, remote, list)
  {
    var t := Run(INIT, actions).tables;
    CacheIsStoredSinceDrop(actions, remote);
    forall n | 0 <= n < |list| && list[n].Some?
      ensures AddrCount(t, remote, list[n].value.String()) > 0 <==>
        LiveAt(Run(INIT, actions).tasks, remote, list[n].value.String()) != {}
    {
      CountedIffLive(actions, remote, list[n].value.String());
    }
  }

  lemma {:induction false} CountedIffLive(actions: seq<Action>, remote: Text, peer: Text)
    ensures AddrCount(Run(INIT, actions).tables, remote, peer) > 0 <==>
      LiveAt(Run(INIT, actions).tasks, remote, peer) != {}
  {
    AddrCountsAreLiveHandlers(actions, remote, peer);
    var live := LiveAt(Run(INIT, actions).tasks, remote, peer);
    assert |live| == 0 <==> live == {};
  }

  /** And then an earlier fetch stored it, with at least one valid address. */
  lemma {:induction false} CacheHit(actions: seq<Action>, remote: Text, list: AddrList) returns (i: nat)
    requires CacheLookup(Run(INIT, actions).tables, remote) == Some(list)
    ensures i < |actions| && actions[i] == Fill(remote, list) && Enabled(Run(INIT, actions[..i]), actions[i])
    ensures forall j :: i < j < |actions| ==> !Drops(Run(INIT, actions[..j]), actions[j], remote)
    ensures exists p :: Some(p) in list && p.ip != "" && p.port != 0
  {
    CacheHitIff(actions, remote, list);
    i := StoredAt(actions, remote);
  }
}
