/** The state of a listening UdpSession told from the events of a run (udpsession.go): what the
    receive loop is about to do, which TCP connections are on record, and which datagrams were
    queued and read. */
module UdpHistories {
  import opened Keys
  import opened Options
  import opened UdpTables
  import opened UdpRuns

  /** The peer whose datagrams come from an address at the end of a run. */
  function PeerAt(c: Config, actions: seq<Action>, src: string): Option<SessionAddr> {
    Route(Run(c, INIT, actions).tables, src)
  }

  // ---- the receive loop ----

  /** What a packet makes the receive loop do next: queue the datagram without its header for the
      peer at its source, insert a session id that is not bound, or close the session of the
      peer at its source. */
  function Pending(c: Config, actions: seq<Action>, a: Action): Pc {
    match a
    case RecvUser(src, packet) =>
      (match PeerAt(c, actions, src)
       case Some(peer) => if packet == [] then Idle else Resolved(Datagram(packet[1..], peer))
       case None => Idle)
    case RecvSessionID(addr) => if BoundAfter(c, INIT, actions, addr.Key(), None).Some? then Idle else Binding(addr)
    case RecvClose(src) =>
      (match PeerAt(c, actions, src)
       case Some(peer) => Closing(peer.Key())
       case None => Idle)
    case _ => Idle
  }

  /** The steps that the receive loop makes. */
  predicate OfLoop(a: Action) {
    a.RecvUser? || a.RecvSessionID? || a.RecvClose? || a.QueueUser? || a.Insert? || a.PeerClose?
  }

  function PcTold(c: Config, actions: seq<Action>): Pc {
    if actions == [] then Idle
    else
      var front, last := actions[..|actions| - 1], actions[|actions| - 1];
      if OfLoop(last) && Enabled(Run(c, INIT, front), last) then Pending(c, front, last) else PcTold(c, front)
  }

  lemma {:induction false} LoopIsTold(c: Config, actions: seq<Action>)
    ensures Run(c, INIT, actions).pc == PcTold(c, actions)
  {
    if actions != [] {
      var front, last := actions[..|actions| - 1], actions[|actions| - 1];
      LoopIsTold(c, front);
      if last.RecvSessionID? {
        KeyTableIsBoundAfter(c, INIT, front, last.addr.Key());
      }
    }
  }

  lemma {:induction false} PendingStays(c: Config, w: World, more: seq<Action>)
    requires w.pc != Idle && forall a :: a in more ==> !a.QueueUser? && !a.Insert? && !a.PeerClose?
    ensures Run(c, w, more).pc == w.pc
  {
    if more != [] {
      PendingStays(c, w, more[..|more| - 1]);
      assert more[|more| - 1] in more;
    }
  }

  /** A CLOSE from an address closes the session routed there when it arrived, whatever other
      goroutines do before the loop gets the lock; then the key is unbound, no address leads to
      it, and its TCP connection is dropped if it was still bound. */
  lemma CloseIsCarriedOut(c: Config, actions: seq<Action>, src: string, more: seq<Action>)
    requires Run(c, INIT, actions).pc == Idle && PeerAt(c, actions, src).Some?
    requires forall a :: a in more ==> !a.QueueUser? && !a.Insert? && !a.PeerClose?
    ensures var key := PeerAt(c, actions, src).value.Key();
      var w := Run(c, Step(c, Run(c, INIT, actions), RecvClose(src)), more);
      var w' := Step(c, w, PeerClose(key));
      && Enabled(w, PeerClose(key)) && w'.pc == Idle
      && Bound(w'.tables, key) == None && !Routed(w'.tables, key)
      && (Bound(w.tables, key).Some? ==> key !in w'.tables.tcpConns)
  {
    var key, w1 := PeerAt(c, actions, src).value.Key(), Step(c, Run(c, INIT, actions), RecvClose(src));
    PendingStays(c, w1, more);
    var w := Run(c, w1, more);
    RunSnoc(c, INIT, actions, RecvClose(src));
    Reached(c, actions + [RecvClose(src)]);
    RunKeepsInv(c, w1, more);
    StepKeepsIndex(c, w, PeerClose(key));
    RoutedIff(Step(c, w, PeerClose(key)).tables, key);
  }

  // ---- TCP connections ----

  /** The TCP connection on record for a key: the one attached last, unless it was detached or the
      session, being bound, was closed since. */
  function TcpTold(c: Config, actions: seq<Action>, key: string): Option<nat> {
    if actions == [] then None
    else
      var front, last := actions[..|actions| - 1], actions[|actions| - 1];
      if !Enabled(Run(c, INIT, front), last) then TcpTold(c, front, key)
      else if last.TcpAttach? && last.key == key then Some(last.conn)
      else if last == TcpDetach(key) || last == Shutdown then None
      else if Closes(last, key) && BoundAfter(c, INIT, front, key, None).Some? then None
      else TcpTold(c, front, key)
  }

  function TcpAt(t: Tables, key: string): Option<nat> {
    if key in t.tcpConns then Some(t.tcpConns[key]) else None
  }

  lemma StepTcp(c: Config, w: World, a: Action, key: string)
    requires Enabled(w, a)
    ensures TcpAt(Step(c, w, a).tables, key) ==
      if a.TcpAttach? && a.key == key then Some(a.conn)
      else if a == TcpDetach(key) || a == Shutdown then None
      else if Closes(a, key) && Bound(w.tables, key).Some? then None
      else TcpAt(w.tables, key)
  {}

  lemma {:induction false} TcpConnsAreTold(c: Config, actions: seq<Action>, key: string)
    ensures TcpAt(Run(c, INIT, actions).tables, key) == TcpTold(c, actions, key)
  {
    if actions != [] {
      var front, last := actions[..|actions| - 1], actions[|actions| - 1];
      TcpConnsAreTold(c, front, key);
      KeyTableIsBoundAfter(c, INIT, front, key);
      if Enabled(Run(c, INIT, front), last) {
        StepTcp(c, Run(c, INIT, front), last, key);
      }
    }
  }

  // ---- readers ----

  /** Readers that have found the connection open, less those that have taken a datagram or left. */
  function InsideTold(c: Config, actions: seq<Action>): int {
    if actions == [] then 0
    else
      var front, last := actions[..|actions| - 1], actions[|actions| - 1];
      InsideTold(c, front) +
      if !Enabled(Run(c, INIT, front), last) then 0
      else if last.StartRead? then 1
      else if last.Take? || last.LeaveRead? then -1
      else 0
  }

  lemma {:induction false} ReadersAreTold(c: Config, actions: seq<Action>)
    ensures Run(c, INIT, actions).open <==> CloseConn !in actions
    ensures Run(c, INIT, actions).inside == InsideTold(c, actions)
  {
    if actions != [] {
      var front, last := actions[..|actions| - 1], actions[|actions| - 1];
      assert actions == front + [last];
      ReadersAreTold(c, front);
      StepReaders(c, Run(c, INIT, front), last);
    }
  }

  /** The tables are emptied only after the connection was closed. */
  lemma ShutdownComesLast(c: Config, actions: seq<Action>)
    requires Enabled(Run(c, INIT, actions), Shutdown)
    ensures CloseConn in actions
  {
    ReadersAreTold(c, actions);
  }

  lemma StepReaders(c: Config, w: World, a: Action)
    ensures Step(c, w, a).open <==> w.open && a != CloseConn
    ensures Step(c, w, a).inside == w.inside +
      if !Enabled(w, a) then 0 else if a.StartRead? then 1 else if a.Take? || a.LeaveRead? then -1 else 0
  {}

  // ---- datagrams ----

  /** The datagrams that arrived from the address of some peer, without their header. */
  function Arrivals(c: Config, actions: seq<Action>): seq<Datagram> {
    if actions == [] then []
    else
      var front, last := actions[..|actions| - 1], actions[|actions| - 1];
      Arrivals(c, front) +
      if last.RecvUser? && Enabled(Run(c, INIT, front), last) && PeerAt(c, front, last.src).Some?
      then [Datagram(last.packet[1..], PeerAt(c, front, last.src).value)]
      else []
  }

  /** Those of them that there was room for, told from the bytes outstanding. */
  function Queued(c: Config, actions: seq<Action>): seq<Datagram> {
    if actions == [] then []
    else
      var front, last := actions[..|actions| - 1], actions[|actions| - 1];
      var w, pc := Run(c, INIT, front), PcTold(c, front);
      Queued(c, front) +
      if last.QueueUser? && pc.Resolved? && |w.tables.recvChan| < c.slots
         && Bytes(w.tables.recvChan) + Bytes(w.unsettled) + |pc.d.data| < c.limit
      then [pc.d]
      else []
  }

  /** What readers were given. */
  function Reads(c: Config, actions: seq<Action>): seq<Datagram> {
    if actions == [] then []
    else
      var front, last := actions[..|actions| - 1], actions[|actions| - 1];
      var w := Run(c, INIT, front);
      Reads(c, front) + if last.Take? && Enabled(w, last) then [w.tables.recvChan[0]] else []
  }

  lemma StepDatagrams(c: Config, w: World, a: Action)
    requires BufferInv(c, w)
    ensures var w' := Step(c, w, a);
      && w'.arrived == w.arrived +
         (if a.RecvUser? && Enabled(w, a) && Route(w.tables, a.src).Some?
          then [Datagram(a.packet[1..], Route(w.tables, a.src).value)] else [])
      && w'.enqueued == w.enqueued +
         (if a.QueueUser? && w.pc.Resolved? && |w.tables.recvChan| < c.slots
             && Bytes(w.tables.recvChan) + Bytes(w.unsettled) + |w.pc.d.data| < c.limit
          then [w.pc.d] else [])
      && w'.dequeued == w.dequeued + (if a.Take? && Enabled(w, a) then [w.tables.recvChan[0]] else [])
  {}

  lemma {:induction false} HistoryIsTold(c: Config, actions: seq<Action>)
    ensures var w := Run(c, INIT, actions);
      w.arrived == Arrivals(c, actions) && w.enqueued == Queued(c, actions) && w.dequeued == Reads(c, actions)
  {
    if actions != [] {
      var front, last := actions[..|actions| - 1], actions[|actions| - 1];
      HistoryIsTold(c, front);
      LoopIsTold(c, front);
      Reached(c, front);
      StepDatagrams(c, Run(c, INIT, front), last);
    }
  }

  /** In every run what readers were given, followed by what is in the buffer, is exactly the list of
      those there was room for, in order, and that is a subsequence of the eligible arrivals. */
  lemma {:induction false} BufferIsTold(c: Config, actions: seq<Action>)
    ensures Reads(c, actions) + Run(c, INIT, actions).tables.recvChan == Queued(c, actions)
    ensures exists kept :: Selects(kept, Arrivals(c, actions), Queued(c, actions))
  {
    Reached(c, actions);
    HistoryIsTold(c, actions);
    assert Selects(Run(c, INIT, actions).kept, Arrivals(c, actions), Queued(c, actions));
  }
}
