/** Sessions that no goroutine serves (client.go): a listener registers a session before its first
    message is read, and a dialer before it starts the handlers. When such a session stays behind,
    and for how long. */
module Abandoned {
  import opened ClientTables
  import opened Options
  import opened ClientRuns
  import opened ClientTheorems

  predicate IsServing(task: Task, key: Text) {
    task.key == key && !task.pc.AwaitFirst?
  }

  /** A goroutine of the key is about to handle its connection, or does. */
  ghost predicate Serving(tasks: map<nat, Task>, key: Text) {
    exists id :: id in tasks && IsServing(tasks[id], key)
  }

  /** The session is in the table and no goroutine awaits its first message or handles a connection. */
  ghost predicate IsAbandoned(w: World, key: Text) {
    key in w.tables.sessions && forall id :: id in w.tasks ==> w.tasks[id].key != key
  }

  /** A goroutine of the key gets as far as handling its connection: it joins a session, it has
      read the first message, or it belongs to the dialer. */
  ghost predicate Readies(w: World, a: Action, key: Text) {
    Enabled(w, a) &&
    match a
    case Arrive(_, k, _, _, slot, conn, minted) => k == key && Register(w.tables, k, slot, conn, minted).1.Joined?
    case FirstMessage(id, ok) => ok && w.tasks[id].key == key
    case Spawn(_, k, _, _, _) => k == key
    case _ => false
  }

  /** The first message of the key's session cannot be read. */
  ghost predicate Misses(w: World, a: Action, key: Text) {
    a.FirstMessage? && Enabled(w, a) && !a.ok && w.tasks[a.id].key == key
  }

  ghost predicate EverReady(actions: seq<Action>, key: Text) {
    exists i :: 0 <= i < |actions| && Readies(Run(INIT, actions[..i]), actions[i], key)
  }

  ghost predicate EverMissed(actions: seq<Action>, key: Text) {
    exists i :: 0 <= i < |actions| && Misses(Run(INIT, actions[..i]), actions[i], key)
  }

  // ---- what every step keeps ----

  ghost predicate ServiceInv(w: World, key: Text, ready: bool, missed: bool) {
    && (Serving(w.tasks, key) ==> ready)
    && (ready ==> Count(w.ledger.registered, key) > 0)
    && (key in w.dials && w.dials[key] == Registered ==> Count(w.ledger.registered, key) > 0)
    && (HasSession(w, key) && ready ==> Serving(w.tasks, key))
    && (!ready ==> Count(w.ledger.created, key) == |AwaitingOf(w.tasks, key)| + One(missed))
  }

  lemma ServingPut(tasks: map<nat, Task>, id: nat, task: Task, key: Text)
    requires id in tasks ==> !IsServing(tasks[id], key) || IsServing(task, key)
    ensures Serving(tasks[id := task], key) <==> Serving(tasks, key) || IsServing(task, key)
  {
    var after := tasks[id := task];
    if IsServing(task, key) {
      assert id in after && IsServing(after[id], key);
    } else if Serving(tasks, key) {
      var other :| other in tasks && IsServing(tasks[other], key);
      assert other in after && IsServing(after[other], key);
    }
  }

  lemma ServingDrop(tasks: map<nat, Task>, id: nat, key: Text)
    requires id in tasks && !IsServing(tasks[id], key)
    ensures Serving(tasks - {id}, key) <==> Serving(tasks, key)
  {
    if Serving(tasks, key) {
      var other :| other in tasks && IsServing(tasks[other], key);
      assert other in tasks - {id} && IsServing((tasks - {id})[other], key);
    }
  }

  lemma CreateKeepsService(w: World, a: Action, key: Text, ready: bool, missed: bool)
    requires a.Arrive? && Enabled(w, a) && LifeInv(w, key) && key !in w.ledger.expired
    requires Register(w.tables, a.key, a.slot, a.conn, a.minted).1.Created? && ServiceInv(w, key, ready, missed)
    ensures ServiceInv(DoArrive(w, a), key, ready, missed)
  {
    var task := Task(a.key, a.remote, a.peer, a.slot, AwaitFirst(a.minted.value));
    PutAwaiting(w.tasks, a.id, task, key);
    ServingPut(w.tasks, a.id, task, key);
  }

  lemma JoinKeepsService(w: World, a: Action, key: Text, ready: bool, missed: bool)
    requires a.Arrive? && Enabled(w, a) && LifeInv(w, key)
    requires !Register(w.tables, a.key, a.slot, a.conn, a.minted).1.Created? && ServiceInv(w, key, ready, missed)
    ensures ServiceInv(DoArrive(w, a), key, ready || Readies(w, a, key), missed)
  {
    var task := Task(a.key, a.remote, a.peer, a.slot, Ready);
    PutAwaiting(w.tasks, a.id, task, key);
    ServingPut(w.tasks, a.id, task, key);
  }

  lemma FirstMessageKeepsService(w: World, a: Action, key: Text, ready: bool, missed: bool)
    requires a.FirstMessage? && Enabled(w, a) && LifeInv(w, key) && key !in w.ledger.expired
    requires ServiceInv(w, key, ready, missed)
    ensures ServiceInv(Step(w, a), key, ready || Readies(w, a, key), missed || Misses(w, a, key))
  {
    var task := w.tasks[a.id];
    assert task.key == key ==> a.id in AwaitingOf(w.tasks, key);
    if a.ok {
      PutAwaiting(w.tasks, a.id, task.(pc := Ready), key);
      ServingPut(w.tasks, a.id, task.(pc := Ready), key);
    } else {
      DropTask(w.tasks, a.id, key);
      ServingDrop(w.tasks, a.id, key);
    }
  }

  lemma EnterKeepsService(w: World, id: nat, key: Text, ready: bool, missed: bool)
    requires Enabled(w, EnterHandler(id)) && ServiceInv(w, key, ready, missed)
    ensures ServiceInv(DoEnter(w, id), key, ready, missed)
  {
    var task := w.tasks[id];
    if task.key in w.tables.sessions {
      PutAwaiting(w.tasks, id, task.(pc := Live), key);
      ServingPut(w.tasks, id, task.(pc := Live), key);
    } else {
      DropTask(w.tasks, id, key);
      if task.key != key {
        ServingDrop(w.tasks, id, key);
      }
    }
  }

  /** An exit that leaves the session there leaves a live handler. */
  lemma ExitKeepsService(w: World, id: nat, key: Text, ready: bool, missed: bool)
    requires Inv(w) && Enabled(w, ExitHandler(id)) && key !in w.ledger.expired
    requires ServiceInv(w, key, ready, missed)
    ensures ServiceInv(DoExit(w, id), key, ready, missed)
  {
    var task := w.tasks[id];
    StepDoesNotPanic(w, ExitHandler(id));
    ExitEvents(w, id, key);
    DropTask(w.tasks, id, key);
    assert CountInv(w, key) && LifeInv(w, key);
    if task.key != key {
      ServingDrop(w.tasks, id, key);
    } else if key in DoExit(w, id).tables.sessions {
      var rest := LiveOf(w.tasks - {id}, key);
      assert |rest| > 0;
      var other :| other in rest;
      assert other in w.tasks - {id} && IsServing((w.tasks - {id})[other], key);
    }
  }

  lemma SpawnKeepsService(w: World, a: Action, key: Text, ready: bool, missed: bool)
    requires a.Spawn? && Enabled(w, a) && ServiceInv(w, key, ready, missed)
    ensures ServiceInv(Step(w, a), key, ready || Readies(w, a, key), missed)
  {
    var task := Task(a.key, a.remote, a.peer, a.slot, Ready);
    PutAwaiting(w.tasks, a.id, task, key);
    ServingPut(w.tasks, a.id, task, key);
  }

  predicate LeavesTasks(a: Action) {
    !a.Arrive? && !a.FirstMessage? && !a.EnterHandler? && !a.ExitHandler? && !a.Spawn?
  }

  lemma QuietKeepsService(w: World, a: Action, key: Text, ready: bool, missed: bool)
    requires Enabled(w, a) && LeavesTasks(a) && LifeInv(w, key) && ServiceInv(w, key, ready, missed)
    ensures ServiceInv(Step(w, a), key, ready, missed)
  {}

  lemma StepKeepsService(w: World, a: Action, key: Text, ready: bool, missed: bool)
    requires Inv(w) && Enabled(w, a) && key !in w.ledger.expired
    requires ServiceInv(w, key, ready, missed)
    ensures ServiceInv(Step(w, a), key, ready || Readies(w, a, key), missed || Misses(w, a, key))
  {
    assert LifeInv(w, key);
    match a
    case Arrive(_, k, _, _, slot, conn, minted) =>
      if Register(w.tables, k, slot, conn, minted).1.Created? {
        CreateKeepsService(w, a, key, ready, missed);
      } else {
        JoinKeepsService(w, a, key, ready, missed);
      }
    case FirstMessage(_, _) => FirstMessageKeepsService(w, a, key, ready, missed);
    case EnterHandler(id) => EnterKeepsService(w, id, key, ready, missed);
    case ExitHandler(id) => ExitKeepsService(w, id, key, ready, missed);
    case Spawn(_, _, _, _, _) => SpawnKeepsService(w, a, key, ready, missed);
    case _ => QuietKeepsService(w, a, key, ready, missed);
  }

  lemma EverSnoc(front: seq<Action>, last: Action, key: Text)
    ensures EverReady(front + [last], key) <==> EverReady(front, key) || Readies(Run(INIT, front), last, key)
    ensures EverMissed(front + [last], key) <==> EverMissed(front, key) || Misses(Run(INIT, front), last, key)
  {
    var all := front + [last];
    assert all[..|front|] == front && all[|front|] == last;
    assert forall i :: 0 <= i < |front| ==> all[..i] == front[..i] && all[i] == front[i];
  }

  lemma {:induction false} RunKeepsService(actions: seq<Action>, key: Text)
    requires Expire(key) !in actions
    ensures ServiceInv(Run(INIT, actions), key, EverReady(actions, key), EverMissed(actions, key))
  {
    if actions == [] {
      assert AwaitingOf(map[], key) == {};
    } else {
      var front, last := actions[..|actions| - 1], actions[|actions| - 1];
      assert actions == front + [last];
      RunKeepsService(front, key);
      EverSnoc(front, last, key);
      Reached(front);
      LedgerIsTally(front, key);
      if Enabled(Run(INIT, front), last) {
        StepKeepsService(Run(INIT, front), last, key, EverReady(front, key), EverMissed(front, key));
      }
    }
  }

  // ---- exactly when, and for how long ----

  /** While its tombstone does not expire, a session in the table is served by no goroutine exactly
      if none of its goroutines ever got as far as handling a connection, and, where the listener
      made it, its first message could not be read. */
  lemma {:induction false} AbandonedIff(actions: seq<Action>, key: Text)
    requires Expire(key) !in actions && key in Run(INIT, actions).tables.sessions
    ensures IsAbandoned(Run(INIT, actions), key) <==>
      !EverReady(actions, key) && (Tally(Creating, actions, key) == 0 || EverMissed(actions, key))
  {
    var w := Run(INIT, actions);
    RunKeepsService(actions, key);
    KeyIsUsedOnce(actions, key);
    LedgerIsTally(actions, key);
    NoTaskIff(w.tasks, key);
  }

  lemma NoTaskIff(tasks: map<nat, Task>, key: Text)
    ensures (forall id :: id in tasks ==> tasks[id].key != key) <==>
      |AwaitingOf(tasks, key)| == 0 && !Serving(tasks, key)
  {
    if forall id :: id in tasks ==> tasks[id].key != key {
      assert AwaitingOf(tasks, key) == {};
    } else {
      var id :| id in tasks && tasks[id].key == key;
      if !IsServing(tasks[id], key) {
        assert id in AwaitingOf(tasks, key);
      }
    }
  }

  /** A connection for the key arrives, or its dialer starts a handler. */
  predicate Serves(a: Action, key: Text) {
    (a.Arrive? && a.key == key) || (a.Spawn? && a.key == key)
  }

  ghost predicate KeepsAbandoned(w: World, w': World, key: Text)
    requires key in w.tables.sessions
  {
    IsAbandoned(w', key) && w'.tables.sessions[key] == w.tables.sessions[key]
  }

  lemma HandlerKeepsAbandoned(w: World, a: Action, key: Text)
    requires Inv(w) && IsAbandoned(w, key) && Enabled(w, a)
    requires a.EnterHandler? || a.ExitHandler? || a.FirstMessage?
    ensures KeepsAbandoned(w, Step(w, a), key)
  {
    assert w.tasks[a.id].key != key;
    if a.ExitHandler? {
      StepDoesNotPanic(w, a);
    }
  }

  lemma ArriveKeepsAbandoned(w: World, a: Action, key: Text)
    requires IsAbandoned(w, key) && a.Arrive? && a.key != key
    ensures KeepsAbandoned(w, DoArrive(w, a), key)
  {}

  lemma QuietKeepsAbandoned(w: World, a: Action, key: Text)
    requires LifeInv(w, key) && IsAbandoned(w, key) && Enabled(w, a) && w.tables.sessions[key] !in w.closed
    requires !Serves(a, key) && !a.Arrive? && !a.EnterHandler? && !a.ExitHandler? && !a.FirstMessage?
    ensures KeepsAbandoned(w, Step(w, a), key)
  {}

  lemma StepKeepsAbandoned(w: World, a: Action, key: Text)
    requires Inv(w) && IsAbandoned(w, key) && w.tables.sessions[key] !in w.closed
    requires !Serves(a, key)
    ensures KeepsAbandoned(w, Step(w, a), key)
  {
    if Enabled(w, a) {
      match a
      case Arrive(_, _, _, _, _, _, _) => ArriveKeepsAbandoned(w, a, key);
      case FirstMessage(_, _) => HandlerKeepsAbandoned(w, a, key);
      case EnterHandler(_) => HandlerKeepsAbandoned(w, a, key);
      case ExitHandler(_) => HandlerKeepsAbandoned(w, a, key);
      case _ =>
        assert LifeInv(w, key);
        QuietKeepsAbandoned(w, a, key);
    }
  }

  /** It stays so until another connection arrives for it or its session closes by itself. */
  lemma {:induction false} AbandonedStays(actions: seq<Action>, more: seq<Action>, key: Text)
    requires IsAbandoned(Run(INIT, actions), key)
    requires var sess := Run(INIT, actions).tables.sessions[key];
      sess !in Run(INIT, actions).closed && forall a :: a in more ==> !Serves(a, key) && a != CloseSession(sess)
    ensures var w, w' := Run(INIT, actions), Run(Run(INIT, actions), more);
      && IsAbandoned(w', key) && w'.tables.sessions[key] == w.tables.sessions[key]
      && w.tables.sessions[key] !in w'.closed
  {
    if more != [] {
      var w, front, last := Run(INIT, actions), more[..|more| - 1], more[|more| - 1];
      assert last in more;
      AbandonedStays(actions, front, key);
      Reached(actions);
      RunKeepsInv(w, front);
      StepKeepsAbandoned(Run(w, front), last, key);
      StepCloses(Run(w, front), last, w.tables.sessions[key]);
    }
  }

  /** Such a run, for every key: a connection arrives, and its first message cannot be read. */
  lemma {:induction false} FirstMessageFails(key: Text)
    ensures var arrival := Arrive(0, key, Text("r"), Text("p"), Text("0"), Conn(0), Some(0));
      IsAbandoned(Run(INIT, [arrival, FirstMessage(0, false)]), key)
  {
    var a := [Arrive(0, key, Text("r"), Text("p"), Text("0"), Conn(0), Some(0)), FirstMessage(0, false)];
    assert a[..1][..0] == [];
    assert Run(INIT, a[..1]) == Step(INIT, a[0]);
  }
}
