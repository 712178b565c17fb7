/** The state of a TunaSessionClient told from the events of a run (client.go): what the tables hold
    for each key, where each goroutine stands, and what is on the accept queue. */
module Histories {
  import opened ClientTables
  import opened Options
  import opened ClientRuns
  import opened ClientTheorems

  // ---- tables, key by key ----

  type Slots = map<Text, Conn>

  /** What is kept for one key. */
  datatype Life = Life(sess: Option<Sid>, conns: Option<Slots>, tombstoned: bool, dial: Option<Dial>, arrived: bool)

  const UNUSED := Life(None, None, false, None, false)

  function Put(conns: Option<Slots>, slot: Text, conn: Conn): Option<Slots> {
    Some((if conns.Some? then conns.value else map[])[slot := conn])
  }

  function Remove(conns: Option<Slots>, slot: Text): Option<Slots> {
    if conns.Some? then Some(conns.value - {slot}) else None
  }

  /** A connection of a peer arrives: it joins the session, or is refused, or begins a session with
      a table of its own. */
  function Joined(l: Life, slot: Text, conn: Conn, minted: Option<Sid>): Life {
    var here := l.(arrived := true);
    if l.sess.Some? then here.(conns := Put(l.conns, slot, conn))
    else if l.tombstoned || minted == None then here
    else here.(sess := minted, conns := Put(None, slot, conn))
  }

  function TornDown(l: Life): Life {
    l.(sess := None, conns := None, tombstoned := true)
  }

  /** What an event means for the key. An exit tears down exactly if the handlers it leaves are as
      many as the last sweep left behind. */
  ghost function Next(l: Life, w: World, a: Action, key: Text, orphans: nat): Life
    requires Enabled(w, a)
  {
    match a
    case Arrive(_, k, _, _, slot, conn, minted) => if k == key then Joined(l, slot, conn, minted) else l
    case ExitHandler(id) =>
      if w.tasks[id].key != key then l
      else if |LiveOf(w.tasks, key)| - 1 == orphans then TornDown(l)
      else l.(conns := Remove(l.conns, w.tasks[id].slot))
    case Sweep(keys) => if key in keys then TornDown(l) else l
    case Mint(k) => if k == key then l.(dial := Some(Minted)) else l
    case Dialed(k, slot, conn) => if k == key then l.(conns := Put(l.conns, slot, conn)) else l
    case CheckConns(k) => if k == key then l.(dial := Some(Checked)) else l
    case RegisterDial(k, sess) => if k == key then l.(sess := Some(sess), dial := Some(Registered)) else l
    case Expire(k) => if k == key then l.(tombstoned := false) else l
    case _ => l
  }

  ghost function Told(actions: seq<Action>, key: Text): Life {
    if actions == [] then UNUSED
    else
      var front, last := actions[..|actions| - 1], actions[|actions| - 1];
      if Enabled(Run(INIT, front), last)
      then Next(Told(front, key), Run(INIT, front), last, key, OrphansOfLastSweep(front, key))
      else Told(front, key)
  }

  function At<T>(m: map<Text, T>, key: Text): Option<T> {
    if key in m then Some(m[key]) else None
  }

  ghost predicate Matches(w: World, key: Text, l: Life) {
    && At(w.tables.sessions, key) == l.sess
    && At(w.tables.sessionConns, key) == l.conns
    && (key in w.tables.closedSessionKey <==> l.tombstoned)
    && At(w.dials, key) == l.dial
    && (key in w.arrived <==> l.arrived)
  }

  lemma ArriveMatches(w: World, a: Action, key: Text, l: Life)
    requires a.Arrive? && Enabled(w, a) && Matches(w, key, l) && LifeInv(w, a.key)
    ensures Matches(DoArrive(w, a), key, if a.key == key then Joined(l, a.slot, a.conn, a.minted) else l)
  {}

  lemma LeaveAddrTells(t: Tables, remote: Text, peer: Text)
    requires remote in t.addrConnCount
    ensures var t' := LeaveAddr(t, remote, peer);
      && t'.sessions == t.sessions && t'.sessionConns == t.sessionConns
      && t'.closedSessionKey == t.closedSessionKey && t'.connCount == t.connCount
  {}

  lemma LeaveSlotTells(t: Tables, k: Text, slot: Text, key: Text)
    ensures var t' := LeaveSlot(t, k, slot);
      && t'.sessions == t.sessions && t'.closedSessionKey == t.closedSessionKey && t'.connCount == t.connCount
      && At(t'.sessionConns, key) == if k == key then Remove(At(t.sessionConns, key), slot) else At(t.sessionConns, key)
  {}

  lemma TearDownTells(t: Tables, k: Text, key: Text)
    ensures var t' := TearDown(t, {k});
      && At(t'.sessions, key) == (if k == key then None else At(t.sessions, key))
      && At(t'.sessionConns, key) == (if k == key then None else At(t.sessionConns, key))
      && (key in t'.closedSessionKey <==> k == key || key in t.closedSessionKey)
  {}

  lemma ExitMatches(w: World, id: nat, key: Text, l: Life, orphans: nat)
    requires Inv(w) && Enabled(w, ExitHandler(id)) && Matches(w, key, l) && Count(w.ledger.orphaned, key) == orphans
    ensures Matches(DoExit(w, id), key, Next(l, w, ExitHandler(id), key, orphans))
  {
    var task := w.tasks[id];
    StepDoesNotPanic(w, ExitHandler(id));
    assert CountInv(w, key);
    var t := LeaveAddr(w.tables, task.remote, task.peer);
    LeaveAddrTells(w.tables, task.remote, task.peer);
    LeaveSlotTells(t, task.key, task.slot, key);
    TearDownTells(LeaveSlot(t, task.key, task.slot), task.key, key);
  }

  lemma SweepMatches(w: World, keys: set<Text>, key: Text, l: Life)
    requires Matches(w, key, l)
    ensures Matches(DoSweep(w, keys), key, if key in keys then TornDown(l) else l)
  {}

  lemma QuietMatches(w: World, a: Action, key: Text, l: Life)
    requires Enabled(w, a) && Matches(w, key, l) && !a.Arrive? && !a.ExitHandler? && !a.Sweep?
    ensures Matches(Step(w, a), key, Next(l, w, a, key, 0))
  {}

  /** In every run the tables hold for each key exactly what the events say: its session, the
      connections put into its slots and not taken out, whether it is tombstoned, how far its
      dial has come. */
  lemma {:induction false} TablesAreTold(actions: seq<Action>, key: Text)
    ensures Matches(Run(INIT, actions), key, Told(actions, key))
  {
    if actions != [] {
      var front, last := actions[..|actions| - 1], actions[|actions| - 1];
      var w, l := Run(INIT, front), Told(front, key);
      TablesAreTold(front, key);
      Reached(front);
      LedgerIsTally(front, key);
      if Enabled(w, last) {
        match last
        case Arrive(_, k, _, _, _, _, _) =>
          assert LifeInv(w, k);
          ArriveMatches(w, last, key, l);
        case ExitHandler(id) => ExitMatches(w, id, key, l, OrphansOfLastSweep(front, key));
        case Sweep(keys) => SweepMatches(w, keys, key, l);
        case _ => QuietMatches(w, last, key, l);
      }
    }
  }

  // ---- goroutines ----

  /** What an event means for one goroutine, given what the tables say of a key. */
  ghost function NextTask(t: Option<Task>, a: Action, id: nat, life: Text -> Life): Option<Task> {
    match a
    case Arrive(i, key, remote, peer, slot, _, minted) =>
      if i != id then t
      else if life(key).sess.Some? then Some(Task(key, remote, peer, slot, Ready))
      else if life(key).tombstoned || minted == None then t
      else Some(Task(key, remote, peer, slot, AwaitFirst(minted.value)))
    case FirstMessage(i, ok) =>
      if i != id || t == None then t else if ok then Some(t.value.(pc := Ready)) else None
    case EnterHandler(i) =>
      if i != id || t == None then t else if life(t.value.key).sess.Some? then Some(t.value.(pc := Live)) else None
    case ExitHandler(i) => if i != id then t else None
    case Spawn(i, key, remote, peer, slot) => if i != id then t else Some(Task(key, remote, peer, slot, Ready))
    case _ => t
  }

  ghost function TaskTold(actions: seq<Action>, id: nat): Option<Task> {
    if actions == [] then None
    else
      var front, last := actions[..|actions| - 1], actions[|actions| - 1];
      if Enabled(Run(INIT, front), last) then NextTask(TaskTold(front, id), last, id, key => Told(front, key))
      else TaskTold(front, id)
  }

  function TaskAt(tasks: map<nat, Task>, id: nat): Option<Task> {
    if id in tasks then Some(tasks[id]) else None
  }

  lemma StepTask(w: World, a: Action, id: nat, life: Text -> Life)
    requires Inv(w) && Enabled(w, a)
    requires forall key :: Matches(w, key, life(key))
    ensures TaskAt(Step(w, a).tasks, id) == NextTask(TaskAt(w.tasks, id), a, id, life)
  {
    StepDoesNotPanic(w, a);
    match a
    case Arrive(_, key, _, _, _, _, _) => assert Matches(w, key, life(key));
    case EnterHandler(i) => assert Matches(w, w.tasks[i].key, life(w.tasks[i].key));
    case _ =>
  }

  /** In every run each goroutine stands where the events say. */
  lemma {:induction false} TasksAreTold(actions: seq<Action>, id: nat)
    ensures TaskAt(Run(INIT, actions).tasks, id) == TaskTold(actions, id)
  {
    if actions != [] {
      var front, last := actions[..|actions| - 1], actions[|actions| - 1];
      TasksAreTold(front, id);
      Reached(front);
      if Enabled(Run(INIT, front), last) {
        forall key
          ensures Matches(Run(INIT, front), key, Told(front, key))
        {
          TablesAreTold(front, key);
        }
        StepTask(Run(INIT, front), last, id, key => Told(front, key));
      }
    }
  }

  // ---- the accept queue ----

  /** The sessions handed to callers of Accept, in order. */
  ghost function HandedOut(actions: seq<Action>): seq<Sid> {
    if actions == [] then []
    else
      var front, last := actions[..|actions| - 1], actions[|actions| - 1];
      var w := Run(INIT, front);
      HandedOut(front) + if last.Accept? && Enabled(w, last) then [w.acceptSession[0]] else []
  }

  /** The session that a goroutine has begun and whose first message it awaits. */
  ghost function Begun(actions: seq<Action>, id: nat): Option<Sid> {
    var t := TaskTold(actions, id);
    if t.Some? && t.value.pc.AwaitFirst? then Some(t.value.pc.sess) else None
  }

  /** The sessions, in order, whose first message was read while fewer than 1024 were queued. */
  ghost function Queued(actions: seq<Action>): seq<Sid> {
    if actions == [] then []
    else
      var front, last := actions[..|actions| - 1], actions[|actions| - 1];
      Queued(front) +
      if last.FirstMessage? && last.ok && Begun(front, last.id).Some? && |Queued(front)| - |HandedOut(front)| < 1024
      then [Begun(front, last.id).value]
      else []
  }

  /** In every run what was handed out, followed by what is queued, is exactly that list. */
  lemma {:induction false} QueueIsTold(actions: seq<Action>)
    ensures HandedOut(actions) + Run(INIT, actions).acceptSession == Queued(actions)
  {
    if actions != [] {
      var front, last := actions[..|actions| - 1], actions[|actions| - 1];
      QueueIsTold(front);
      Reached(front);
      if last.FirstMessage? {
        TasksAreTold(front, last.id);
      }
      StepQueue(Run(INIT, front), last, HandedOut(front));
    }
  }

  lemma StepQueue(w: World, a: Action, out: seq<Sid>)
    requires !w.panicked
    ensures var out' := out + if a.Accept? && Enabled(w, a) then [w.acceptSession[0]] else [];
      out' + Step(w, a).acceptSession == out + w.acceptSession +
      if a.FirstMessage? && a.ok && a.id in w.tasks && w.tasks[a.id].pc.AwaitFirst? && |w.acceptSession| < 1024
      then [w.tasks[a.id].pc.sess] else []
  {}

  // ---- a registered session stays ----

  ghost predicate NeverTornDown(w: World, more: seq<Action>, key: Text) {
    forall i :: 0 <= i < |more| ==> !Happens(TearingDown, Run(w, more[..i]), more[i], key)
  }

  lemma RegisterKeepsSession(t: Tables, k: Text, slot: Text, conn: Conn, minted: Option<Sid>, key: Text)
    requires key in t.sessions
    ensures At(Register(t, k, slot, conn, minted).0.sessions, key) == At(t.sessions, key)
  {}

  lemma ArriveKeepsSession(w: World, a: Action, key: Text)
    requires a.Arrive? && key in w.tables.sessions
    ensures At(DoArrive(w, a).tables.sessions, key) == At(w.tables.sessions, key)
  {
    RegisterKeepsSession(w.tables, a.key, a.slot, a.conn, a.minted, key);
  }

  lemma ExitKeepsSession(w: World, id: nat, key: Text)
    requires Inv(w) && Enabled(w, ExitHandler(id)) && key in w.tables.sessions
    requires !Happens(TearingDown, w, ExitHandler(id), key)
    ensures At(DoExit(w, id).tables.sessions, key) == At(w.tables.sessions, key)
  {
    StepDoesNotPanic(w, ExitHandler(id));
  }

  lemma QuietKeepsSession(w: World, a: Action, key: Text)
    requires LifeInv(w, key) && Enabled(w, a) && key in w.tables.sessions && !a.Arrive? && !a.ExitHandler?
    requires !Happens(TearingDown, w, a, key)
    ensures At(Step(w, a).tables.sessions, key) == At(w.tables.sessions, key)
  {}

  lemma {:induction false} SessionStays(w: World, more: seq<Action>, key: Text)
    requires Inv(w) && key in w.tables.sessions && NeverTornDown(w, more, key)
    ensures Inv(Run(w, more)) && At(Run(w, more).tables.sessions, key) == At(w.tables.sessions, key)
  {
    RunKeepsInv(w, more);
    if more != [] {
      var front, last := more[..|more| - 1], more[|more| - 1];
      assert forall i :: 0 <= i < |front| ==> front[..i] == more[..i] && front[i] == more[i];
      SessionStays(w, front, key);
      var before := Run(w, front);
      assert LifeInv(before, key);
      if Enabled(before, last) {
        match last
        case Arrive(_, _, _, _, _, _, _) => ArriveKeepsSession(before, last, key);
        case ExitHandler(id) => ExitKeepsSession(before, id, key);
        case _ => QuietKeepsSession(before, last, key);
      }
    }
  }

  /** The session that a dial registers is the one in the table until it is torn down. */
  lemma {:induction false} DialedSessionStays(actions: seq<Action>, key: Text, sess: Sid, more: seq<Action>)
    requires Enabled(Run(INIT, actions), RegisterDial(key, sess))
    requires NeverTornDown(Step(Run(INIT, actions), RegisterDial(key, sess)), more, key)
    ensures At(Run(Step(Run(INIT, actions), RegisterDial(key, sess)), more).tables.sessions, key) == Some(sess)
  {
    var all := Then(actions, RegisterDial(key, sess));
    SessionStays(Run(INIT, all), more, key);
  }
}
