/** All goroutines of one TunaSessionClient (client.go) as a transition system. A step is one
    lock-protected section, or something the environment does: an ncp session closes, a
    tombstone expires, a dialed address answers. Steps of different goroutines interleave
    freely, so a run is an arbitrary list of actions; an action that no goroutine is ready
    for leaves the world as it is. */
module ClientRuns {
  import opened ClientTables
  import opened Options

  const ACCEPT_SESSION_BUF_SIZE := 1024

  /** Where a connection goroutine stands: the creator of a session waits for its first
      message, then (like every other one) calls handleConn, whose handler is live between
      its entry and its exit section. */
  datatype Pc = AwaitFirst(sess: Sid) | Ready | Live

  datatype Task = Task(key: Text, remote: Text, peer: Text, slot: Text, pc: Pc)

  /** Progress of a local dial: id drawn, connections counted, session registered. */
  datatype Dial = Minted | Checked | Registered

  /** History of the run. It is written by steps and never read by them.
      `orphaned`: handlers live when the key was last swept; `registered`, `created`,
      `enqueued`, `torn`: sessions put into the table, those of them put there by the
      listener, accept-queue insertions, and sessions torn down, per key;
      `expired`: keys whose tombstone has ever expired. */
  datatype Ledger = Ledger(
    orphaned: map<Text, int>,
    registered: map<Text, int>,
    created: map<Text, int>,
    enqueued: map<Text, int>,
    torn: map<Text, int>,
    expired: set<Text>)

  datatype World = World(
    tables: Tables,
    closed: set<Sid>,
    tasks: map<nat, Task>,
    dials: map<Text, Dial>,
    arrived: set<Text>,
    acceptSession: seq<Sid>,
    panicked: bool,
    ledger: Ledger)

  datatype Action =
    | Arrive(id: nat, key: Text, remote: Text, peer: Text, slot: Text, conn: Conn, minted: Option<Sid>)
    | FirstMessage(id: nat, ok: bool)
    | EnterHandler(id: nat)
    | ExitHandler(id: nat)
    | Sweep(keys: set<Text>)
    | Mint(key: Text)
    | Dialed(key: Text, slot: Text, conn: Conn)
    | CheckConns(key: Text)
    | RegisterDial(key: Text, sess: Sid)
    | Spawn(id: nat, key: Text, remote: Text, peer: Text, slot: Text)
    | Fill(remote: Text, list: AddrList)
    | Accept
    | CloseSession(sess: Sid)
    | Expire(key: Text)

  ghost const INIT := World(EMPTY, {}, map[], map[], {}, [], false, Ledger(map[], map[], map[], map[], map[], {}))

  // ---- goroutines by state ----

  predicate IsLive(task: Task, key: Text) {
    task.pc.Live? && task.key == key
  }

  predicate IsLiveAt(task: Task, remote: Text, peer: Text) {
    task.pc.Live? && task.remote == remote && task.peer == peer
  }

  predicate IsAwaiting(task: Task, key: Text) {
    task.pc.AwaitFirst? && task.key == key
  }

  ghost function LiveOf(tasks: map<nat, Task>, key: Text): set<nat> {
    set id | id in tasks && IsLive(tasks[id], key)
  }

  ghost function LiveAt(tasks: map<nat, Task>, remote: Text, peer: Text): set<nat> {
    set id | id in tasks && IsLiveAt(tasks[id], remote, peer)
  }

  ghost function AwaitingOf(tasks: map<nat, Task>, key: Text): set<nat> {
    set id | id in tasks && IsAwaiting(tasks[id], key)
  }

  function Bump(m: map<Text, int>, key: Text): map<Text, int> {
    m[key := Count(m, key) + 1]
  }

  // ---- steps ----

  ghost predicate Enabled(w: World, a: Action) {
    !w.panicked &&
    match a
    // keys minted by a local dial never arrive at the listener
    case Arrive(id, key, _, _, _, _, _) => id !in w.tasks && key !in w.dials
    case FirstMessage(id, _) => id in w.tasks && w.tasks[id].pc.AwaitFirst?
    case EnterHandler(id) => id in w.tasks && w.tasks[id].pc.Ready?
    case ExitHandler(id) => id in w.tasks && w.tasks[id].pc.Live?
    // a session may close while the sweeper is at work, so any set of closed ones can be caught
    case Sweep(keys) => keys <= w.tables.sessions.Keys && forall k :: k in keys ==> w.tables.sessions[k] in w.closed
    case Mint(key) => key !in w.arrived && key !in w.dials
    case Dialed(key, _, _) => key in w.dials
    case CheckConns(key) =>
      && key in w.dials && w.dials[key] == Minted
      && key in w.tables.sessionConns && w.tables.sessionConns[key] != map[]
    case RegisterDial(key, _) => key in w.dials && w.dials[key] == Checked
    case Spawn(id, key, _, _, _) => id !in w.tasks && key in w.dials && w.dials[key] == Registered
    case Fill(_, list) => Classify(list) == FetchStore
    case Accept => w.acceptSession != []
    case CloseSession(_) => true
    case Expire(key) => key in w.tables.closedSessionKey
  }

  ghost function Step(w: World, a: Action): World {
    if !Enabled(w, a) then w else
    match a
    case Arrive(_, _, _, _, _, _, _) => DoArrive(w, a)
    case FirstMessage(id, ok) => DoFirstMessage(w, id, ok)
    case EnterHandler(id) => DoEnter(w, id)
    case ExitHandler(id) => DoExit(w, id)
    case Sweep(keys) => DoSweep(w, keys)
    case Mint(key) => w.(dials := w.dials[key := Minted])
    case Dialed(key, slot, conn) => w.(tables := DialConn(w.tables, key, slot, conn))
    case CheckConns(key) => w.(dials := w.dials[key := Checked])
    case RegisterDial(key, sess) =>
      w.(tables := DialSession(w.tables, key, sess), dials := w.dials[key := Registered],
         ledger := w.ledger.(registered := Bump(w.ledger.registered, key)))
    case Spawn(id, key, remote, peer, slot) => w.(tasks := w.tasks[id := Task(key, remote, peer, slot, Ready)])
    case Fill(remote, list) => w.(tables := Store(w.tables, remote, list))
    case Accept => w.(acceptSession := w.acceptSession[1..])
    case CloseSession(sess) => w.(closed := w.closed + {sess})
    case Expire(key) =>
      w.(tables := w.tables.(closedSessionKey := w.tables.closedSessionKey - {key}),
         ledger := w.ledger.(expired := w.ledger.expired + {key}))
  }

  ghost function DoArrive(w: World, a: Action): World
    requires a.Arrive?
  {
    var (tables, r) := Register(w.tables, a.key, a.slot, a.conn, a.minted);
    var w1 := w.(tables := tables, arrived := w.arrived + {a.key});
    match r
    case NilTable => w.(panicked := true)
    case Refused => w1
    case NotCreated => w1
    case Joined(_) => w1.(tasks := w.tasks[a.id := Task(a.key, a.remote, a.peer, a.slot, Ready)])
    case Created(sess) =>
      w1.(tasks := w.tasks[a.id := Task(a.key, a.remote, a.peer, a.slot, AwaitFirst(sess))],
          ledger := w.ledger.(registered := Bump(w.ledger.registered, a.key), created := Bump(w.ledger.created, a.key)))
  }

  ghost function DoFirstMessage(w: World, id: nat, ok: bool): World
    requires id in w.tasks && w.tasks[id].pc.AwaitFirst?
  {
    if !ok then w.(tasks := w.tasks - {id})
    else
      var w1 := w.(tasks := w.tasks[id := w.tasks[id].(pc := Ready)]);
      if |w.acceptSession| < ACCEPT_SESSION_BUF_SIZE then
        w1.(acceptSession := w.acceptSession + [w.tasks[id].pc.sess],
            ledger := w.ledger.(enqueued := Bump(w.ledger.enqueued, w.tasks[id].key)))
      else w1
  }

  ghost function DoEnter(w: World, id: nat): World
    requires id in w.tasks
  {
    var task := w.tasks[id];
    if task.key in w.tables.sessions then
      w.(tables := Enter(w.tables, task.key, task.remote, task.peer), tasks := w.tasks[id := task.(pc := Live)])
    else w.(tasks := w.tasks - {id})
  }

  ghost function DoExit(w: World, id: nat): World
    requires id in w.tasks
  {
    var task := w.tasks[id];
    match Exit(w.tables, task.key, task.remote, task.peer, task.slot)
    case ExitNilMap => w.(panicked := true)
    case Exited(tables, shouldClose) =>
      w.(tables := tables, tasks := w.tasks - {id},
         ledger := if shouldClose then w.ledger.(torn := Bump(w.ledger.torn, task.key)) else w.ledger)
  }

  ghost function DoSweep(w: World, keys: set<Text>): World {
    w.(tables := TearDown(w.tables, keys),
       ledger := w.ledger.(
         orphaned := map k | k in w.ledger.orphaned.Keys + keys ::
           if k in keys then |LiveOf(w.tasks, k)| else w.ledger.orphaned[k],
         torn := map k | k in w.ledger.torn.Keys + keys ::
           if k in keys then Count(w.ledger.torn, k) + 1 else w.ledger.torn[k]))
  }

  ghost function Run(w: World, actions: seq<Action>): World {
    if actions == [] then w else Step(Run(w, actions[..|actions| - 1]), actions[|actions| - 1])
  }

  // ---- what every step keeps ----

  ghost predicate HasSession(w: World, key: Text) {
    key in w.tables.sessions
  }

  /** The handler count of a key, with the handlers a sweep left behind as a debt. */
  ghost predicate CountInv(w: World, key: Text) {
    var live := |LiveOf(w.tasks, key)|;
    var debt := Count(w.ledger.orphaned, key);
    && Count(w.tables.connCount, key) == live - debt
    && 0 <= debt
    && (!HasSession(w, key) ==> live <= debt)
    && (Count(w.ledger.torn, key) == 0 ==> debt == 0)
  }

  /** Sessions come and go in balance, and a key that has not expired is used once. */
  ghost predicate LifeInv(w: World, key: Text) {
    var registered := Count(w.ledger.registered, key);
    && registered == Count(w.ledger.torn, key) + One(HasSession(w, key))
    && 0 <= Count(w.ledger.torn, key)
    && (HasSession(w, key) ==> key in w.tables.sessionConns && key !in w.tables.closedSessionKey)
    && (key in w.tables.closedSessionKey ==> registered > 0)
    && (key !in w.ledger.expired ==> registered <= 1)
    && (key !in w.ledger.expired && registered > 0 ==> HasSession(w, key) || key in w.tables.closedSessionKey)
    && (key in w.dials ==> key !in w.arrived)
    && (registered > 0 ==> key in w.arrived || (key in w.dials && w.dials[key] == Registered))
    && (key in w.dials && w.dials[key] == Checked ==> key in w.tables.sessionConns)
    && Count(w.ledger.enqueued, key) + |AwaitingOf(w.tasks, key)| <= Count(w.ledger.created, key) <= registered
  }

  /** No inner map is empty and every stored count is positive. */
  ghost predicate AddrShape(t: Tables, remote: Text, peer: Text) {
    remote in t.addrConnCount ==>
      && t.addrConnCount[remote] != map[]
      && (peer in t.addrConnCount[remote] ==> t.addrConnCount[remote][peer] >= 1)
  }

  /** The per-address counts are exactly the live handlers. */
  ghost predicate AddrInv(w: World, remote: Text, peer: Text) {
    AddrShape(w.tables, remote, peer) && AddrCount(w.tables, remote, peer) == |LiveAt(w.tasks, remote, peer)|
  }

  ghost predicate Inv(w: World) {
    && !w.panicked
    && (forall key :: CountInv(w, key) && LifeInv(w, key))
    && (forall remote, peer :: AddrInv(w, remote, peer))
  }

  function One(b: bool): int {
    if b then 1 else 0
  }

  lemma Moved(before: set<nat>, after: set<nat>, id: nat, now: bool)
    requires forall x :: x != id ==> (x in after <==> x in before)
    requires id in after <==> now
    ensures |after| == |before| - One(id in before) + One(now)
  {
    assert after == before - {id} + (if now then {id} else {});
  }

  /** A goroutine starts or moves on: it leaves its old class and joins its new one. */
  lemma PutTask(tasks: map<nat, Task>, id: nat, task: Task, key: Text)
    ensures |LiveOf(tasks[id := task], key)| ==
            |LiveOf(tasks, key)| - One(id in tasks && IsLive(tasks[id], key)) + One(IsLive(task, key))
    ensures |AwaitingOf(tasks[id := task], key)| ==
            |AwaitingOf(tasks, key)| - One(id in tasks && IsAwaiting(tasks[id], key)) + One(IsAwaiting(task, key))
  {
    Moved(LiveOf(tasks, key), LiveOf(tasks[id := task], key), id, IsLive(task, key));
    PutAwaiting(tasks, id, task, key);
  }

  lemma PutAwaiting(tasks: map<nat, Task>, id: nat, task: Task, key: Text)
    ensures |AwaitingOf(tasks[id := task], key)| ==
            |AwaitingOf(tasks, key)| - One(id in tasks && IsAwaiting(tasks[id], key)) + One(IsAwaiting(task, key))
  {
    Moved(AwaitingOf(tasks, key), AwaitingOf(tasks[id := task], key), id, IsAwaiting(task, key));
  }

  lemma PutTaskAt(tasks: map<nat, Task>, id: nat, task: Task, remote: Text, peer: Text)
    ensures |LiveAt(tasks[id := task], remote, peer)| ==
            |LiveAt(tasks, remote, peer)| - One(id in tasks && IsLiveAt(tasks[id], remote, peer)) +
            One(IsLiveAt(task, remote, peer))
  {
    Moved(LiveAt(tasks, remote, peer), LiveAt(tasks[id := task], remote, peer), id, IsLiveAt(task, remote, peer));
  }

  lemma DropTask(tasks: map<nat, Task>, id: nat, key: Text)
    requires id in tasks
    ensures |LiveOf(tasks - {id}, key)| == |LiveOf(tasks, key)| - One(IsLive(tasks[id], key))
    ensures |AwaitingOf(tasks - {id}, key)| == |AwaitingOf(tasks, key)| - One(IsAwaiting(tasks[id], key))
  {
    assert LiveOf(tasks - {id}, key) == LiveOf(tasks, key) - {id};
    assert AwaitingOf(tasks - {id}, key) == AwaitingOf(tasks, key) - {id};
  }

  lemma DropTaskAt(tasks: map<nat, Task>, id: nat, remote: Text, peer: Text)
    requires id in tasks
    ensures |LiveAt(tasks - {id}, remote, peer)| ==
            |LiveAt(tasks, remote, peer)| - One(IsLiveAt(tasks[id], remote, peer))
  {
    assert LiveAt(tasks - {id}, remote, peer) == LiveAt(tasks, remote, peer) - {id};
  }

  lemma InitInv()
    ensures Inv(INIT)
  {
    forall key
      ensures CountInv(INIT, key) && LifeInv(INIT, key)
    {
      assert LiveOf(map[], key) == {} && AwaitingOf(map[], key) == {};
    }
    forall remote, peer
      ensures AddrInv(INIT, remote, peer)
    {
      assert LiveAt(map[], remote, peer) == {};
    }
  }

  lemma ArriveKeepsCount(w: World, a: Action, key: Text)
    requires a.Arrive? && Enabled(w, a) && CountInv(w, key)
    ensures CountInv(DoArrive(w, a), key)
  {
    var r := Register(w.tables, a.key, a.slot, a.conn, a.minted).1;
    if r.Joined? || r.Created? {
      var pc := if r.Created? then AwaitFirst(r.sess) else Ready;
      PutTask(w.tasks, a.id, Task(a.key, a.remote, a.peer, a.slot, pc), key);
    }
  }

  lemma CreateKeepsLife(w: World, a: Action, key: Text)
    requires a.Arrive? && Enabled(w, a) && LifeInv(w, key)
    requires Register(w.tables, a.key, a.slot, a.conn, a.minted).1.Created?
    ensures LifeInv(DoArrive(w, a), key)
  {
    PutAwaiting(w.tasks, a.id, Task(a.key, a.remote, a.peer, a.slot, AwaitFirst(a.minted.value)), key);
  }

  lemma JoinKeepsLife(w: World, a: Action, key: Text)
    requires a.Arrive? && Enabled(w, a) && LifeInv(w, key)
    requires !Register(w.tables, a.key, a.slot, a.conn, a.minted).1.Created?
    ensures LifeInv(DoArrive(w, a), key)
  {
    PutAwaiting(w.tasks, a.id, Task(a.key, a.remote, a.peer, a.slot, Ready), key);
  }

  lemma ArriveKeepsLife(w: World, a: Action, key: Text)
    requires a.Arrive? && Enabled(w, a) && LifeInv(w, key)
    ensures LifeInv(DoArrive(w, a), key)
  {
    if Register(w.tables, a.key, a.slot, a.conn, a.minted).1.Created? {
      CreateKeepsLife(w, a, key);
    } else {
      JoinKeepsLife(w, a, key);
    }
  }

  lemma FirstMessageKeeps(w: World, id: nat, ok: bool, key: Text)
    requires id in w.tasks && w.tasks[id].pc.AwaitFirst? && CountInv(w, key) && LifeInv(w, key)
    ensures CountInv(DoFirstMessage(w, id, ok), key)
    ensures LifeInv(DoFirstMessage(w, id, ok), key)
  {
    if ok {
      PutTask(w.tasks, id, w.tasks[id].(pc := Ready), key);
      FirstMessageHeard(w, id, key);
    } else {
      DropTask(w.tasks, id, key);
    }
  }

  lemma FirstMessageHeard(w: World, id: nat, key: Text)
    requires id in w.tasks && w.tasks[id].pc.AwaitFirst? && LifeInv(w, key)
    ensures LifeInv(DoFirstMessage(w, id, true), key)
  {
    PutAwaiting(w.tasks, id, w.tasks[id].(pc := Ready), key);
  }

  lemma EnterKeeps(w: World, id: nat, key: Text)
    requires id in w.tasks && w.tasks[id].pc.Ready? && CountInv(w, key) && LifeInv(w, key)
    ensures CountInv(DoEnter(w, id), key)
    ensures LifeInv(DoEnter(w, id), key)
  {
    if w.tasks[id].key in w.tables.sessions {
      PutTask(w.tasks, id, w.tasks[id].(pc := Live), key);
    } else {
      DropTask(w.tasks, id, key);
    }
  }

  lemma ExitEffect(t: Tables, k: Text, remote: Text, peer: Text, slot: Text, key: Text)
    requires remote in t.addrConnCount
    ensures var Exited(t', closes) := Exit(t, k, remote, peer, slot);
      && (closes <==> Count(t.connCount, k) == 1)
      && Count(t'.connCount, key) == Count(t.connCount, key) - One(key == k)
      && (key in t'.sessions <==> key in t.sessions && !(closes && key == k))
      && (key in t'.sessionConns <==> key in t.sessionConns && !(closes && key == k))
      && (key in t'.closedSessionKey <==> key in t.closedSessionKey || (closes && key == k))
  {}

  lemma ExitKeeps(w: World, id: nat, key: Text)
    requires id in w.tasks && w.tasks[id].pc.Live? && CountInv(w, key) && LifeInv(w, key)
    ensures CountInv(DoExit(w, id), key)
    ensures LifeInv(DoExit(w, id), key)
  {
    DropTask(w.tasks, id, key);
    var task := w.tasks[id];
    if task.remote in w.tables.addrConnCount {
      ExitEffect(w.tables, task.key, task.remote, task.peer, task.slot, key);
    }
  }

  lemma SweepKeeps(w: World, keys: set<Text>, key: Text)
    requires keys <= w.tables.sessions.Keys && CountInv(w, key) && LifeInv(w, key)
    ensures CountInv(DoSweep(w, keys), key)
    ensures LifeInv(DoSweep(w, keys), key)
  {}

  lemma DialKeeps(w: World, a: Action, key: Text)
    requires a.Mint? || a.Dialed? || a.CheckConns? || a.RegisterDial?
    requires Enabled(w, a) && CountInv(w, key) && LifeInv(w, key)
    ensures CountInv(Step(w, a), key) && LifeInv(Step(w, a), key)
  {}

  lemma StepKeepsKey(w: World, a: Action, key: Text)
    requires Enabled(w, a) && CountInv(w, key) && LifeInv(w, key)
    ensures CountInv(Step(w, a), key) && LifeInv(Step(w, a), key)
  {
    match a
    case Arrive(_, _, _, _, _, _, _) =>
      ArriveKeepsCount(w, a, key);
      ArriveKeepsLife(w, a, key);
    case FirstMessage(id, ok) => FirstMessageKeeps(w, id, ok, key);
    case EnterHandler(id) => EnterKeeps(w, id, key);
    case ExitHandler(id) => ExitKeeps(w, id, key);
    case Sweep(keys) => SweepKeeps(w, keys, key);
    case Mint(_) => DialKeeps(w, a, key);
    case Dialed(_, _, _) => DialKeeps(w, a, key);
    case CheckConns(_) => DialKeeps(w, a, key);
    case RegisterDial(_, _) => DialKeeps(w, a, key);
    case Spawn(id, k, remote, peer, slot) => PutTask(w.tasks, id, Task(k, remote, peer, slot, Ready), key);
    case _ =>
  }

  lemma EnterKeepsAddr(w: World, id: nat, remote: Text, peer: Text)
    requires id in w.tasks && w.tasks[id].pc.Ready? && AddrInv(w, remote, peer)
    ensures AddrInv(DoEnter(w, id), remote, peer)
  {
    if w.tasks[id].key in w.tables.sessions {
      PutTaskAt(w.tasks, id, w.tasks[id].(pc := Live), remote, peer);
    } else {
      DropTaskAt(w.tasks, id, remote, peer);
    }
  }

  lemma LeaveAddrEffect(t: Tables, r: Text, p: Text, remote: Text, peer: Text)
    requires r in t.addrConnCount && AddrCount(t, remote, peer) >= One(remote == r && peer == p)
    requires AddrShape(t, remote, peer)
    ensures AddrCount(LeaveAddr(t, r, p), remote, peer) == AddrCount(t, remote, peer) - One(remote == r && peer == p)
    ensures AddrShape(LeaveAddr(t, r, p), remote, peer)
  {
    if remote == r {
      assert peer != p && peer in t.addrConnCount[r] ==> peer in t.addrConnCount[r] - {p};
    }
  }

  lemma ExitKeepsAddr(w: World, id: nat, remote: Text, peer: Text)
    requires id in w.tasks && w.tasks[id].pc.Live? && AddrInv(w, remote, peer)
    ensures AddrInv(DoExit(w, id), remote, peer)
  {
    var task := w.tasks[id];
    if task.remote in w.tables.addrConnCount {
      DropTaskAt(w.tasks, id, remote, peer);
      LeaveAddrEffect(w.tables, task.remote, task.peer, remote, peer);
      assert Exit(w.tables, task.key, task.remote, task.peer, task.slot).tables.addrConnCount ==
             LeaveAddr(w.tables, task.remote, task.peer).addrConnCount;
    }
  }

  lemma StepKeepsAddr(w: World, a: Action, remote: Text, peer: Text)
    requires Enabled(w, a) && AddrInv(w, remote, peer)
    ensures AddrInv(Step(w, a), remote, peer)
  {
    match a
    case Arrive(id, k, r, p, slot, conn, minted) =>
      var outcome := Register(w.tables, k, slot, conn, minted).1;
      if outcome.Joined? || outcome.Created? {
        var pc := if outcome.Created? then AwaitFirst(outcome.sess) else Ready;
        PutTaskAt(w.tasks, id, Task(k, r, p, slot, pc), remote, peer);
      }
    case FirstMessage(id, _) =>
      PutTaskAt(w.tasks, id, w.tasks[id].(pc := Ready), remote, peer);
      DropTaskAt(w.tasks, id, remote, peer);
    case EnterHandler(id) => EnterKeepsAddr(w, id, remote, peer);
    case ExitHandler(id) => ExitKeepsAddr(w, id, remote, peer);
    case Spawn(id, k, r, p, slot) => PutTaskAt(w.tasks, id, Task(k, r, p, slot, Ready), remote, peer);
    case _ =>
  }

  /** No step writes to a missing map: a live handler's remote is always counted, and a
      session always has its connection table. */
  lemma StepDoesNotPanic(w: World, a: Action)
    requires Inv(w) && Enabled(w, a)
    ensures !Step(w, a).panicked
  {
    match a
    case Arrive(_, key, _, _, _, _, _) => assert LifeInv(w, key);
    case ExitHandler(id) =>
      var task := w.tasks[id];
      assert AddrInv(w, task.remote, task.peer);
      assert id in LiveAt(w.tasks, task.remote, task.peer);
    case _ =>
  }

  lemma StepKeepsInv(w: World, a: Action)
    requires Inv(w)
    ensures Inv(Step(w, a))
  {
    if Enabled(w, a) {
      StepDoesNotPanic(w, a);
      forall key
        ensures CountInv(Step(w, a), key) && LifeInv(Step(w, a), key)
      {
        StepKeepsKey(w, a, key);
      }
      forall remote, peer
        ensures AddrInv(Step(w, a), remote, peer)
      {
        StepKeepsAddr(w, a, remote, peer);
      }
    }
  }

  lemma {:induction false} RunKeepsInv(w: World, actions: seq<Action>)
    requires Inv(w)
    ensures Inv(Run(w, actions))
  {
    if actions != [] {
      RunKeepsInv(w, actions[..|actions| - 1]);
      StepKeepsInv(Run(w, actions[..|actions| - 1]), actions[|actions| - 1]);
    }
  }
}
