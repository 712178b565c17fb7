/** All goroutines of a listening UdpSession (udpsession.go, udp.go) as a transition system: the
    one receive loop, which handles a packet in two separately locked halves, the goroutines
    that watch the TCP connections, any number of readers, each of which finds the session open,
    later takes a datagram and later still settles the byte budget, and the owner, who closes
    first the connection and then the session. A run is any list of actions; one that is not
    enabled changes nothing. A packet read before the connection closed may be handled after. */
module UdpRuns {
  import opened Keys
  import opened Options
  import opened UdpTables

  /** Between the two halves the receive loop holds what the first one found: the peer a user
      datagram was resolved to, an unknown session id to insert, or the key to close. */
  datatype Pc = Idle | Resolved(d: Datagram) | Binding(addr: SessionAddr) | Closing(key: string)

  /** `open`: the UDP connection is not closed. `inside`: readers that have found it open and have
      not taken a datagram. `unsettled`: datagrams taken whose budget is not yet returned. The
      rest is history: eligible arrivals without their header, datagrams queued and taken, and the
      position among the arrivals of each one queued. */
  datatype World = World(
    tables: Tables,
    pc: Pc,
    open: bool,
    inside: nat,
    unsettled: seq<Datagram>,
    arrived: seq<Datagram>,
    enqueued: seq<Datagram>,
    dequeued: seq<Datagram>,
    kept: seq<nat>)

  datatype Config = Config(limit: int, slots: Slots)

  datatype Action =
    | RecvUser(src: string, packet: seq<byte>)
    | QueueUser
    | RecvSessionID(addr: SessionAddr)
    | Insert(addr: SessionAddr)
    | RecvClose(src: string)
    | PeerClose(key: string)
    | TcpClose(key: string)
    | TcpAttach(key: string, conn: nat)
    | TcpDetach(key: string)
    | CloseConn
    | Shutdown
    | StartRead
    | LeaveRead
    | Take
    | Return(i: nat)

  const INIT := World(EMPTY, Idle, true, 0, [], [], [], [], [])

  predicate Enabled(w: World, a: Action) {
    match a
    case RecvUser(_, packet) => w.pc == Idle && packet != []
    case QueueUser => w.pc.Resolved?
    case RecvSessionID(_) => w.pc == Idle
    case Insert(addr) => w.pc == Binding(addr)
    case RecvClose(_) => w.pc == Idle
    case PeerClose(key) => w.pc == Closing(key)
    case TcpClose(_) => true
    case TcpAttach(_, _) => true
    case TcpDetach(_) => true
    case CloseConn => true
    case Shutdown => !w.open
    case StartRead => w.open
    case LeaveRead => w.inside > 0
    case Take => w.inside > 0 && w.tables.recvChan != []
    case Return(i) => i < |w.unsettled|
  }

  function Step(c: Config, w: World, a: Action): World {
    if !Enabled(w, a) then w else
    var t := w.tables;
    match a
    case RecvUser(src, packet) =>
      if src in t.udpAddrToSessAddr then
        var d := Datagram(packet[1..], t.udpAddrToSessAddr[src]);
        w.(pc := Resolved(d), arrived := w.arrived + [d])
      else w
    case QueueUser => DoQueue(c, w)
    case RecvSessionID(addr) => if addr.Key() in t.sessKeyToSessAddr then w else w.(pc := Binding(addr))
    case Insert(addr) => w.(tables := Bind(t, addr), pc := Idle)
    case RecvClose(src) => if src in t.udpAddrToSessAddr then w.(pc := Closing(t.udpAddrToSessAddr[src].Key())) else w
    case PeerClose(key) => w.(tables := ConnClosed(t, key), pc := Idle)
    case TcpClose(key) => w.(tables := ConnClosed(t, key))
    case TcpAttach(key, conn) => w.(tables := t.(tcpConns := t.tcpConns[key := conn]))
    case TcpDetach(key) => w.(tables := t.(tcpConns := t.tcpConns - {key}))
    case CloseConn => w.(open := false)
    case Shutdown => w.(tables := CloseAll(t))
    case StartRead => w.(inside := w.inside + 1)
    case LeaveRead => w.(inside := w.inside - 1)
    case Take =>
      w.(tables := Dequeue(t), inside := w.inside - 1,
         unsettled := w.unsettled + [t.recvChan[0]], dequeued := w.dequeued + [t.recvChan[0]])
    case Return(i) => w.(tables := Settle(t, w.unsettled[i]), unsettled := w.unsettled[..i] + w.unsettled[i + 1..])
  }

  function DoQueue(c: Config, w: World): World
    requires w.pc.Resolved?
  {
    var d := w.pc.d;
    var w1 := w.(tables := Enqueue(w.tables, d, c.limit, c.slots), pc := Idle);
    if Room(w.tables, |d.data|, c.limit, c.slots) then
      w1.(enqueued := w.enqueued + [d], kept := w.kept + [if w.arrived == [] then 0 else |w.arrived| - 1])
    else w1
  }

  function Run(c: Config, w: World, actions: seq<Action>): World {
    if actions == [] then w
    else Step(c, Run(c, w, actions[..|actions| - 1]), actions[|actions| - 1])
  }

  lemma RunSnoc(c: Config, w: World, actions: seq<Action>, a: Action)
    ensures Run(c, w, actions + [a]) == Step(c, Run(c, w, actions), a)
  {
    assert (actions + [a])[..|actions|] == actions;
  }

  // ---- invariants ----

  ghost predicate IndexInv(w: World) {
    && (forall addr :: RouteInv(w.tables, addr))
    && OwnKeys(w.tables.sessKeyToSessAddr)
    && (w.pc.Binding? ==> w.pc.addr.Key() !in w.tables.sessKeyToSessAddr)
  }

  /** The budget in use is what is queued or taken and not yet settled. */
  ghost predicate BufferInv(c: Config, w: World) {
    && w.tables.recvSize == Bytes(w.tables.recvChan) + Bytes(w.unsettled)
    && (w.tables.recvSize == 0 || w.tables.recvSize < c.limit)
    && |w.tables.recvChan| <= c.slots
  }

  ghost predicate Selects(kept: seq<nat>, all: seq<Datagram>, some: seq<Datagram>) {
    && |kept| == |some|
    && (forall i, j :: 0 <= i < j < |kept| ==> kept[i] < kept[j])
    && (forall i :: 0 <= i < |kept| ==> kept[i] < |all| && some[i] == all[kept[i]])
  }

  ghost predicate FifoInv(w: World) {
    && w.enqueued == w.dequeued + w.tables.recvChan
    && Selects(w.kept, w.arrived, w.enqueued)
    && (w.pc.Resolved? ==>
          && w.arrived != [] && w.arrived[|w.arrived| - 1] == w.pc.d
          && forall i :: 0 <= i < |w.kept| ==> w.kept[i] < |w.arrived| - 1)
  }

  lemma StepKeepsIndex(c: Config, w: World, a: Action)
    requires IndexInv(w)
    ensures IndexInv(Step(c, w, a))
  {
    if Enabled(w, a) {
      match a
      case PeerClose(key) => ClosedKeepsIndex(w.tables, key);
      case TcpClose(key) => ClosedKeepsIndex(w.tables, key);
      case Insert(addr) => BindKeepsIndex(w.tables, addr);
      case _ => QuietKeepsIndex(c, w, a);
    }
  }

  lemma ClosedKeepsIndex(t: Tables, key: string)
    requires (forall addr :: RouteInv(t, addr)) && OwnKeys(t.sessKeyToSessAddr)
    ensures (forall addr :: RouteInv(ConnClosed(t, key), addr)) && OwnKeys(ConnClosed(t, key).sessKeyToSessAddr)
  {
    forall addr
      ensures AgreeAt(t.sessKeyToSessAddr, t.udpAddrToSessAddr, addr)
    {
      assert RouteInv(t, addr);
    }
    ClosedKeepsAgreement(t, key);
  }

  lemma BindKeepsIndex(t: Tables, peer: SessionAddr)
    requires (forall addr :: RouteInv(t, addr)) && OwnKeys(t.sessKeyToSessAddr) && peer.Key() !in t.sessKeyToSessAddr
    ensures (forall addr :: RouteInv(Bind(t, peer), addr)) && OwnKeys(Bind(t, peer).sessKeyToSessAddr)
  {
    forall addr
      ensures RouteInv(Bind(t, peer), addr)
    {
      assert RouteInv(t, addr);
    }
  }

  lemma QuietKeepsIndex(c: Config, w: World, a: Action)
    requires IndexInv(w) && Enabled(w, a) && !a.PeerClose? && !a.TcpClose? && !a.Insert?
    ensures IndexInv(Step(c, w, a))
  {
    forall addr
      ensures RouteInv(Step(c, w, a).tables, addr)
    {
      assert RouteInv(w.tables, addr);
    }
  }

  lemma StepKeepsBuffer(c: Config, w: World, a: Action)
    requires BufferInv(c, w)
    ensures BufferInv(c, Step(c, w, a))
  {
    if Enabled(w, a) {
      match a
      case QueueUser => QueueKeepsBuffer(c, w);
      case Take => BytesConcat(w.unsettled, [w.tables.recvChan[0]]);
      case Return(i) => BytesOf(w.unsettled, i);
      case _ => QuietKeepsBuffer(c, w, a);
    }
  }

  lemma QueueKeepsBuffer(c: Config, w: World)
    requires BufferInv(c, w) && w.pc.Resolved?
    ensures BufferInv(c, DoQueue(c, w))
  {
    BytesConcat(w.tables.recvChan, [w.pc.d]);
  }

  lemma QuietKeepsBuffer(c: Config, w: World, a: Action)
    requires BufferInv(c, w) && Enabled(w, a) && !a.QueueUser? && !a.Take? && !a.Return?
    ensures BufferInv(c, Step(c, w, a))
  {}

  lemma StepKeepsFifo(c: Config, w: World, a: Action)
    requires FifoInv(w)
    ensures FifoInv(Step(c, w, a))
  {
    if Enabled(w, a) {
      match a
      case QueueUser => QueueKeepsFifo(c, w);
      case Take =>
        var chan := w.tables.recvChan;
        assert w.dequeued + chan == w.dequeued + [chan[0]] + chan[1..];
      case _ => QuietKeepsFifo(c, w, a);
    }
  }

  lemma QueueKeepsFifo(c: Config, w: World)
    requires FifoInv(w) && w.pc.Resolved?
    ensures FifoInv(DoQueue(c, w))
  {
    assert w.dequeued + w.tables.recvChan + [w.pc.d] == w.dequeued + (w.tables.recvChan + [w.pc.d]);
  }

  lemma QuietKeepsFifo(c: Config, w: World, a: Action)
    requires FifoInv(w) && Enabled(w, a) && !a.QueueUser? && !a.Take?
    ensures FifoInv(Step(c, w, a))
  {}

  ghost predicate Inv(c: Config, w: World) {
    IndexInv(w) && BufferInv(c, w) && FifoInv(w)
  }

  lemma {:induction false} RunKeepsInv(c: Config, w: World, actions: seq<Action>)
    requires Inv(c, w)
    ensures Inv(c, Run(c, w, actions))
  {
    if actions != [] {
      var before, a := Run(c, w, actions[..|actions| - 1]), actions[|actions| - 1];
      RunKeepsInv(c, w, actions[..|actions| - 1]);
      StepKeepsIndex(c, before, a);
      StepKeepsBuffer(c, before, a);
      StepKeepsFifo(c, before, a);
    }
  }

  lemma Reached(c: Config, actions: seq<Action>)
    ensures Inv(c, Run(c, INIT, actions))
  {
    RunKeepsInv(c, INIT, actions);
  }

  // ---- the index ----

  /** Under all interleavings, each address entry is a peer that sends from that address and
      that the key table holds under the peer's own key, even when several keys have bound one
      address. */
  lemma {:induction false} IndexesAgree(c: Config, actions: seq<Action>, addr: string)
    requires addr in Run(c, INIT, actions).tables.udpAddrToSessAddr
    ensures var t := Run(c, INIT, actions).tables;
      var peer := t.udpAddrToSessAddr[addr];
      peer.udpAddr == addr && peer.Key() in t.sessKeyToSessAddr && t.sessKeyToSessAddr[peer.Key()] == peer
  {
    Reached(c, actions);
    assert RouteInv(Run(c, INIT, actions).tables, addr);
  }

  predicate Closes(a: Action, key: string) {
    a == PeerClose(key) || a == TcpClose(key) || a == Shutdown
  }

  predicate Opens(a: Action, key: string) {
    a.Insert? && a.addr.Key() == key
  }

  /** Where the session of a key is bound at the end of a run, told from the accepted session
      ids and the closes alone. */
  function BoundAfter(c: Config, w: World, actions: seq<Action>, key: string, start: Option<string>): Option<string> {
    if actions == [] then start
    else
      var front, last := actions[..|actions| - 1], actions[|actions| - 1];
      if !Enabled(Run(c, w, front), last) then BoundAfter(c, w, front, key, start)
      else if Closes(last, key) then None
      else if Opens(last, key) then Some(last.addr.udpAddr)
      else BoundAfter(c, w, front, key, start)
  }

  lemma StepBinds(c: Config, w: World, a: Action, key: string)
    requires Enabled(w, a)
    ensures Bound(Step(c, w, a).tables, key) ==
      if Closes(a, key) then None else if Opens(a, key) then Some(a.addr.udpAddr) else Bound(w.tables, key)
  {}

  lemma {:induction false} KeyTableIsBoundAfter(c: Config, w: World, actions: seq<Action>, key: string)
    ensures Bound(Run(c, w, actions).tables, key) == BoundAfter(c, w, actions, key, Bound(w.tables, key))
  {
    if actions != [] {
      var front, last := actions[..|actions| - 1], actions[|actions| - 1];
      KeyTableIsBoundAfter(c, w, front, key);
      if Enabled(Run(c, w, front), last) {
        StepBinds(c, Run(c, w, front), last, key);
      }
    }
  }

  /** A bound key is never bound again before it is closed. */
  lemma StepKeepsBound(c: Config, w: World, a: Action, key: string)
    requires IndexInv(w) && Bound(w.tables, key).Some? && !Closes(a, key)
    ensures Bound(Step(c, w, a).tables, key) == Bound(w.tables, key)
  {
    if Enabled(w, a) {
      StepBinds(c, w, a, key);
    }
  }

  lemma {:induction false} UnclosedStaysBound(c: Config, w: World, more: seq<Action>, key: string)
    requires IndexInv(w) && Bound(w.tables, key).Some?
    requires forall a :: a in more ==> !Closes(a, key)
    ensures IndexInv(Run(c, w, more))
    ensures Bound(Run(c, w, more).tables, key) == Bound(w.tables, key)
  {
    if more != [] {
      var front, last := more[..|more| - 1], more[|more| - 1];
      UnclosedStaysBound(c, w, front, key);
      assert last in more;
      StepKeepsIndex(c, Run(c, w, front), last);
      StepKeepsBound(c, Run(c, w, front), last, key);
    }
  }

  /** A reply to a datagram that was resolved to a peer goes back to the datagram's source as
      long as the session was not closed since; after a close it fails; after a reopening it
      goes to the address of the reopening. */
  lemma ReplyRouting(c: Config, actions: seq<Action>, src: string, more: seq<Action>)
    requires src in Run(c, INIT, actions).tables.udpAddrToSessAddr
    ensures var w := Run(c, INIT, actions);
      var peer := w.tables.udpAddrToSessAddr[src];
      var reply := ReplyAddr(Run(c, w, more).tables, peer);
      && reply == BoundAfter(c, w, more, peer.Key(), Some(src))
      && ((forall a :: a in more ==> !Closes(a, peer.Key())) ==> reply == Some(src))
  {
    Reached(c, actions);
    var w := Run(c, INIT, actions);
    assert RouteInv(w.tables, src);
    var key := w.tables.udpAddrToSessAddr[src].Key();
    KeyTableIsBoundAfter(c, w, more, key);
    if forall a :: a in more ==> !Closes(a, key) {
      UnclosedStaysBound(c, w, more, key);
    }
  }

  // ---- sessions without an address ----

  /** A session that replies can be sent to and that no datagram is taken for. */
  ghost predicate CutOff(t: Tables, key: string) {
    Bound(t, key).Some? && !Routed(t, key)
  }

  /** Another session id arrives from the address of the key, or another session bound to the same
      address is closed. */
  predicate TakesAddress(t: Tables, a: Action, key: string) {
    || (a.Insert? && Bound(t, key) == Some(a.addr.udpAddr))
    || ((a.TcpClose? || a.PeerClose?) && a.key != key && Bound(t, a.key) == Bound(t, key))
  }

  /** What every step does to the route of every address. */
  lemma StepRoutes(c: Config, w: World, a: Action, addr: string)
    requires Enabled(w, a)
    ensures Route(Step(c, w, a).tables, addr) ==
      if a.Insert? && a.addr.udpAddr == addr then Some(a.addr)
      else if a == Shutdown || ((a.TcpClose? || a.PeerClose?) && Bound(w.tables, a.key) == Some(addr)) then None
      else Route(w.tables, addr)
  {}

  /** Only the address it is bound to can lead to a key. */
  lemma RoutedIff(t: Tables, key: string)
    requires forall addr :: RouteInv(t, addr)
    ensures Routed(t, key) <==>
      Bound(t, key).Some? && var peer := Route(t, Bound(t, key).value); peer.Some? && peer.value.Key() == key
  {
    if Routed(t, key) {
      var addr :| addr in t.udpAddrToSessAddr && t.udpAddrToSessAddr[addr].Key() == key;
      assert RouteInv(t, addr);
    }
  }

  lemma StepCutsOffIff(c: Config, w: World, a: Action, key: string)
    requires IndexInv(w) && Enabled(w, a) && Routed(w.tables, key)
    ensures CutOff(Step(c, w, a).tables, key) <==> TakesAddress(w.tables, a, key)
  {
    var t, t' := w.tables, Step(c, w, a).tables;
    StepKeepsIndex(c, w, a);
    RoutedIff(t, key);
    RoutedIff(t', key);
    StepBinds(c, w, a, key);
    StepRoutes(c, w, a, Bound(t, key).value);
  }

  /** In every reachable state, a step leaves a session without its address exactly if it is one
      of these. */
  lemma CutOffIff(c: Config, actions: seq<Action>, a: Action, key: string)
    requires Enabled(Run(c, INIT, actions), a) && Routed(Run(c, INIT, actions).tables, key)
    ensures var w := Run(c, INIT, actions);
      CutOff(Step(c, w, a).tables, key) <==> TakesAddress(w.tables, a, key)
  {
    Reached(c, actions);
    StepCutsOffIff(c, Run(c, INIT, actions), a, key);
  }

  /** Once it has none, it never gets one again before it is closed itself: a repeated session id
      of a bound key is ignored. */
  lemma {:induction false} CutOffStays(c: Config, w: World, more: seq<Action>, key: string)
    requires IndexInv(w) && CutOff(w.tables, key)
    requires forall a :: a in more ==> !Closes(a, key)
    ensures IndexInv(Run(c, w, more)) && CutOff(Run(c, w, more).tables, key)
  {
    if more != [] {
      var front, last := more[..|more| - 1], more[|more| - 1];
      CutOffStays(c, w, front, key);
      assert last in more;
      var before := Run(c, w, front);
      StepKeepsIndex(c, before, last);
      StepKeepsCutOff(c, before, last, key);
    }
  }

  lemma StepKeepsCutOff(c: Config, w: World, a: Action, key: string)
    requires IndexInv(w) && CutOff(w.tables, key) && !Closes(a, key)
    ensures CutOff(Step(c, w, a).tables, key)
  {
    StepKeepsBound(c, w, a, key);
    var t' := Step(c, w, a).tables;
    forall addr | addr in t'.udpAddrToSessAddr
      ensures t'.udpAddrToSessAddr[addr].Key() != key
    {
      if Enabled(w, a) {
        StepRoutes(c, w, a, addr);
      }
    }
  }

  /** A session id arrives and is accepted. */
  function Joining(peer: SessionAddr): seq<Action> {
    [RecvSessionID(peer), Insert(peer)]
  }

  lemma Joins(c: Config, before: seq<Action>, peer: SessionAddr)
    requires var w := Run(c, INIT, before); w.pc == Idle && peer.Key() !in w.tables.sessKeyToSessAddr
    ensures var w := Run(c, INIT, before);
      Run(c, INIT, before + Joining(peer)) == w.(tables := Bind(w.tables, peer))
  {
    RunSnoc(c, INIT, before, RecvSessionID(peer));
    RunSnoc(c, INIT, before + [RecvSessionID(peer)], Insert(peer));
    assert before + [RecvSessionID(peer)] + [Insert(peer)] == before + Joining(peer);
  }

  lemma BothJoin(c: Config, p1: SessionAddr, p2: SessionAddr)
    requires p1.Key() != p2.Key()
    ensures Run(c, INIT, Joining(p1) + Joining(p2)) == INIT.(tables := Bind(Bind(EMPTY, p1), p2))
  {
    Joins(c, [], p1);
    assert [] + Joining(p1) == Joining(p1);
    Joins(c, Joining(p1), p2);
  }

  /** Two sessions bind one address and the first is closed: the second stays bound, and no address
      leads to it however the run goes on, unless it is closed. */
  lemma SharedAddressIsCut(c: Config, p1: SessionAddr, p2: SessionAddr, more: seq<Action>)
    requires p1.udpAddr == p2.udpAddr && p1.Key() != p2.Key()
    requires forall a :: a in more ==> !Closes(a, p2.Key())
    ensures var both := Joining(p1) + Joining(p2);
      var w := Run(c, INIT, both + [TcpClose(p1.Key())]);
      && Routed(Run(c, INIT, both).tables, p2.Key())
      && CutOff(w.tables, p2.Key()) && CutOff(Run(c, w, more).tables, p2.Key())
  {
    var both := Joining(p1) + Joining(p2);
    BothJoin(c, p1, p2);
    assert p2.udpAddr in Run(c, INIT, both).tables.udpAddrToSessAddr;
    CutOffIff(c, both, TcpClose(p1.Key()), p2.Key());
    RunSnoc(c, INIT, both, TcpClose(p1.Key()));
    Reached(c, both + [TcpClose(p1.Key())]);
    CutOffStays(c, Run(c, INIT, both + [TcpClose(p1.Key())]), more, p2.Key());
  }

  // ---- after a close ----

  /** The datagram that the receive loop has resolved to the key but not yet queued. */
  predicate InFlight(w: World, key: string) {
    w.pc.Resolved? && w.pc.d.from.Key() == key
  }

  /** How many of the queued datagrams can still be taken: while the connection is open all of
      them, then only as many as there are readers inside. */
  function Takable(w: World): nat {
    if w.open || w.inside >= |w.tables.recvChan| then |w.tables.recvChan| else w.inside
  }

  /** There is room for the datagram once all that can be taken is taken and settled. */
  predicate CanFit(c: Config, w: World, d: Datagram) {
    var left := w.tables.recvChan[Takable(w)..];
    |left| < c.slots && Bytes(left) + |d.data| < c.limit
  }

  /** From w0 to w datagrams were taken from the queue, and none was added. */
  ghost predicate OnlyTaken(w0: World, w: World) {
    var taken := |w0.tables.recvChan| - |w.tables.recvChan|;
    && 0 <= taken && w.tables.recvChan == w0.tables.recvChan[taken..]
    && (w0.open || (!w.open && taken + w.inside <= w0.inside))
  }

  /** From a closed key on: it stays closed, and what is queued for it is at most the datagram
      that was in flight, as the next one queued, and only if there can be room for it. */
  ghost predicate Cut(c: Config, w0: World, w: World, key: string) {
    && key !in w.tables.sessKeyToSessAddr
    && w0.enqueued <= w.enqueued
    && (InFlight(w, key) ==> w.pc == w0.pc && w.enqueued == w0.enqueued && OnlyTaken(w0, w))
    && (forall i :: |w0.enqueued| <= i < |w.enqueued| && w.enqueued[i].from.Key() == key ==>
          InFlight(w0, key) && CanFit(c, w0, w0.pc.d) && i == |w0.enqueued| && w.enqueued[i] == w0.pc.d)
  }

  ghost predicate Unopened(more: seq<Action>, key: string) {
    forall a :: a in more ==> !Opens(a, key)
  }

  lemma StepKeepsCut(c: Config, w0: World, w: World, a: Action, key: string)
    requires Inv(c, w) && Cut(c, w0, w, key) && !Opens(a, key)
    ensures Cut(c, w0, Step(c, w, a), key)
  {
    if Enabled(w, a) {
      match a
      case RecvUser(src, _) => assert RouteInv(w.tables, src);
      case QueueUser => QueueKeepsCut(c, w0, w, key);
      case Take => TakeKeepsCut(c, w0, w, key);
      case _ => QuietKeepsCut(c, w0, w, a, key);
    }
  }

  lemma QueueKeepsCut(c: Config, w0: World, w: World, key: string)
    requires BufferInv(c, w) && w.pc.Resolved? && Cut(c, w0, w, key)
    ensures Cut(c, w0, DoQueue(c, w), key)
  {
    if InFlight(w, key) && Room(w.tables, |w.pc.d.data|, c.limit, c.slots) {
      RoomWasThere(c, w0, w, w.pc.d);
    }
  }

  lemma TakeKeepsCut(c: Config, w0: World, w: World, key: string)
    requires Enabled(w, Take) && Cut(c, w0, w, key)
    ensures Cut(c, w0, Step(c, w, Take), key)
  {}

  lemma QuietKeepsCut(c: Config, w0: World, w: World, a: Action, key: string)
    requires Enabled(w, a) && Cut(c, w0, w, key) && !Opens(a, key) && !a.RecvUser? && !a.QueueUser? && !a.Take?
    ensures Cut(c, w0, Step(c, w, a), key)
  {}

  lemma RoomWasThere(c: Config, w0: World, w: World, d: Datagram)
    requires BufferInv(c, w) && OnlyTaken(w0, w) && Room(w.tables, |d.data|, c.limit, c.slots)
    ensures CanFit(c, w0, d)
  {
    var all, now := w0.tables.recvChan, w.tables.recvChan;
    var more := Takable(w0) - (|all| - |now|);
    assert all[Takable(w0)..] == now[more..];
    assert now == now[..more] + now[more..];
    BytesConcat(now[..more], now[more..]);
  }

  lemma CutStarts(c: Config, w0: World, key: string)
    requires key !in w0.tables.sessKeyToSessAddr
    ensures Cut(c, w0, w0, key)
  {
    assert w0.tables.recvChan[0..] == w0.tables.recvChan;
  }

  lemma {:induction false} RunKeepsCut(c: Config, w0: World, more: seq<Action>, key: string)
    requires Inv(c, w0) && key !in w0.tables.sessKeyToSessAddr && Unopened(more, key)
    ensures Inv(c, Run(c, w0, more)) && Cut(c, w0, Run(c, w0, more), key)
  {
    RunKeepsInv(c, w0, more);
    if more == [] {
      CutStarts(c, w0, key);
    } else {
      var front, last := more[..|more| - 1], more[|more| - 1];
      RunKeepsCut(c, w0, front, key);
      assert last in more;
      StepKeepsCut(c, w0, Run(c, w0, front), last, key);
    }
  }

  /** After a close of a key, and until a new session id for it is accepted, no address is
      routed to it, and no datagram is queued for it except the one, if any, that the receive
      loop had already resolved before the close. */
  lemma NothingQueuedAfterClose(c: Config, actions: seq<Action>, a: Action, more: seq<Action>, key: string)
    requires Closes(a, key) && Enabled(Run(c, INIT, actions), a) && Unopened(more, key)
    ensures var w0 := Step(c, Run(c, INIT, actions), a);
      var w := Run(c, w0, more);
      && !Routed(w.tables, key)
      && w0.enqueued <= w.enqueued
      && (forall i :: |w0.enqueued| <= i < |w.enqueued| && w.enqueued[i].from.Key() == key ==>
            InFlight(w0, key) && CanFit(c, w0, w0.pc.d) && i == |w0.enqueued| && w.enqueued[i] == w0.pc.d)
  {
    Closed(c, actions, a, key);
    var w0 := Step(c, Run(c, INIT, actions), a);
    RunKeepsCut(c, w0, more, key);
    RoutedIff(Run(c, w0, more).tables, key);
  }

  lemma Closed(c: Config, actions: seq<Action>, a: Action, key: string)
    requires Closes(a, key) && Enabled(Run(c, INIT, actions), a)
    ensures var w0 := Step(c, Run(c, INIT, actions), a);
      Inv(c, w0) && key !in w0.tables.sessKeyToSessAddr
  {
    assert (actions + [a])[..|actions|] == actions;
    Reached(c, actions + [a]);
  }

  /** The next thing for readers to do. */
  function Drains(v: World, left: nat): Action {
    if |v.tables.recvChan| <= left then Return(0) else if v.inside == 0 then StartRead else Take
  }

  ghost predicate Draining(c: Config, w: World, v: World) {
    && BufferInv(c, v) && v.pc == w.pc && v.enqueued == w.enqueued && v.open == w.open
    && var left := |w.tables.recvChan| - Takable(w);
      && left <= |v.tables.recvChan| <= |w.tables.recvChan|
      && v.tables.recvChan == w.tables.recvChan[|w.tables.recvChan| - |v.tables.recvChan|..]
      && (w.open || v.inside >= |v.tables.recvChan| - left)
  }

  lemma DrainStep(c: Config, w: World, v: World)
    requires Draining(c, w, v)
    requires |v.tables.recvChan| > |w.tables.recvChan| - Takable(w) || v.unsettled != []
    ensures var a := Drains(v, |w.tables.recvChan| - Takable(w));
      var v' := Step(c, v, a);
      && (a.StartRead? || a.Take? || a.Return?) && Draining(c, w, v')
      && |v'.tables.recvChan| <= |v.tables.recvChan|
      && (|v'.tables.recvChan| == |v.tables.recvChan| ==>
            (v.inside == 0 && v'.inside > 0) || (v'.inside == v.inside && |v'.unsettled| < |v.unsettled|))
  {
    StepKeepsBuffer(c, v, Drains(v, |w.tables.recvChan| - Takable(w)));
  }

  /** Readers can take all that is takable and give its budget back; while the connection is open
      that empties the buffer. */
  lemma Drain(c: Config, w: World) returns (more: seq<Action>)
    requires BufferInv(c, w)
    ensures forall a :: a in more ==> a.StartRead? || a.Take? || a.Return?
    ensures var v := Run(c, w, more);
      && v.tables.recvChan == w.tables.recvChan[Takable(w)..] && v.tables.recvSize == Bytes(v.tables.recvChan)
      && v.pc == w.pc && v.enqueued == w.enqueued
  {
    more := [];
    var v, left := w, |w.tables.recvChan| - Takable(w);
    while |v.tables.recvChan| > left || v.unsettled != []
      invariant v == Run(c, w, more) && Draining(c, w, v)
      invariant forall a :: a in more ==> a.StartRead? || a.Take? || a.Return?
      decreases |v.tables.recvChan|, if v.inside == 0 then 1 else 0, |v.unsettled|
    {
      var a := Drains(v, left);
      DrainStep(c, w, v);
      RunSnoc(c, w, more, a);
      v, more := Step(c, v, a), more + [a];
    }
  }

  /** Once the connection is closed, no more datagrams are taken than there are readers inside. */
  lemma {:induction false} TakenAfterClose(c: Config, w: World, more: seq<Action>)
    requires !w.open
    ensures !Run(c, w, more).open
    ensures |Run(c, w, more).dequeued| + Run(c, w, more).inside <= |w.dequeued| + w.inside
  {
    if more != [] {
      TakenAfterClose(c, w, more[..|more| - 1]);
    }
  }

  /** A datagram for the key was queued on the way from w0 to w. */
  ghost predicate QueuedSince(w0: World, w: World, key: string) {
    exists i :: |w0.enqueued| <= i < |w.enqueued| && w.enqueued[i].from.Key() == key
  }

  /** And the exception is exact: whatever led to the close, the run can go on, without a new
      session id for the key, to queue a datagram for it if and only if one was in flight that
      there is room for once all takable datagrams are taken; with the connection open, one
      smaller than the buffer. */
  lemma QueuedAfterCloseIff(c: Config, actions: seq<Action>, a: Action, key: string)
    requires Closes(a, key) && Enabled(Run(c, INIT, actions), a)
    ensures var w0 := Step(c, Run(c, INIT, actions), a);
      && ((exists more :: Unopened(more, key) && QueuedSince(w0, Run(c, w0, more), key)) <==>
            InFlight(w0, key) && CanFit(c, w0, w0.pc.d))
      && (w0.open && InFlight(w0, key) ==> (CanFit(c, w0, w0.pc.d) <==> |w0.pc.d.data| < c.limit))
  {
    var w0 := Step(c, Run(c, INIT, actions), a);
    forall more | Unopened(more, key) && QueuedSince(w0, Run(c, w0, more), key)
      ensures InFlight(w0, key) && CanFit(c, w0, w0.pc.d)
    {
      NothingQueuedAfterClose(c, actions, a, more, key);
    }
    if InFlight(w0, key) && CanFit(c, w0, w0.pc.d) {
      Closed(c, actions, a, key);
      QueuesAfterDraining(c, w0, key);
    }
  }

  lemma QueuesAfterDraining(c: Config, w0: World, key: string)
    requires BufferInv(c, w0) && InFlight(w0, key) && CanFit(c, w0, w0.pc.d)
    ensures exists more :: Unopened(more, key) && QueuedSince(w0, Run(c, w0, more), key)
  {
    var drain := Drain(c, w0);
    var more := drain + [QueueUser];
    RunSnoc(c, w0, drain, QueueUser);
    var w := Run(c, w0, more);
    assert w.enqueued[|w0.enqueued|] == w0.pc.d;
    assert Unopened(more, key) && QueuedSince(w0, w, key);
  }

  /** The shortest such run. */
  lemma InFlightIsQueuedAfterClose(c: Config, peer: SessionAddr, payload: seq<byte>)
    requires |payload| < c.limit
    ensures var before := Joining(peer) + [RecvUser(peer.udpAddr, [2] + payload)];
      var w0 := Step(c, Run(c, INIT, before), TcpClose(peer.Key()));
      && peer.Key() !in w0.tables.sessKeyToSessAddr
      && Step(c, w0, QueueUser).enqueued == w0.enqueued + [Datagram(payload, peer)]
  {
    Joins(c, [], peer);
    assert [] + Joining(peer) == Joining(peer);
    RunSnoc(c, INIT, Joining(peer), RecvUser(peer.udpAddr, [2] + payload));
    assert ([2] + payload)[1..] == payload;
  }

  // ---- reads without the lock ----

  /** The steps of the receive loop that look into the indexes without taking the lock. */
  predicate ReadsUnlocked(a: Action) {
    a.RecvSessionID? || a.RecvClose?
  }

  /** A step of another goroutine that deletes from them. */
  predicate DeletesBeside(w: World, a: Action) {
    a.TcpClose? && a.key in w.tables.sessKeyToSessAddr
  }

  ghost predicate Overlap(w: World, a: Action, b: Action) {
    Enabled(w, a) && ReadsUnlocked(a) && Enabled(w, b) && DeletesBeside(w, b)
  }

  /** A map can be read while it is written exactly when the receive loop is between two packets
      and some session is bound. */
  lemma OverlapIff(w: World)
    ensures (exists a, b :: Overlap(w, a, b)) <==> w.pc == Idle && w.tables.sessKeyToSessAddr != map[]
  {
    if w.pc == Idle && w.tables.sessKeyToSessAddr != map[] {
      var key :| key in w.tables.sessKeyToSessAddr;
      assert Overlap(w, RecvClose(""), TcpClose(key));
    }
  }

  /** So one session is enough: another session id arrives while its connection closes. */
  lemma OverlapReached(c: Config, peer: SessionAddr, other: SessionAddr)
    ensures Overlap(Run(c, INIT, Joining(peer)), RecvSessionID(other), TcpClose(peer.Key()))
  {
    Joins(c, [], peer);
    assert [] + Joining(peer) == Joining(peer);
  }

  // ---- the receive buffer ----

  /** With any number of concurrent readers the budget in use is exactly the bytes queued plus
      those taken but not settled; it never reaches a positive limit nor falls below zero, the
      slots are never exceeded, and once all is drained and settled the whole budget is back. */
  lemma {:induction false} BudgetIsExact(c: Config, actions: seq<Action>)
    ensures var w := Run(c, INIT, actions);
      && w.tables.recvSize == Bytes(w.tables.recvChan) + Bytes(w.unsettled)
      && 0 <= w.tables.recvSize
      && (c.limit > 0 ==> w.tables.recvSize < c.limit)
      && |w.tables.recvChan| <= c.slots
      && (w.tables.recvChan == [] && w.unsettled == [] ==> w.tables.recvSize == 0)
  {
    Reached(c, actions);
  }

  /** What readers take is, in order, a prefix of what was queued, and that is a subsequence of
      the eligible arrivals. */
  lemma FifoOfArrivals(c: Config, actions: seq<Action>)
    ensures var w := Run(c, INIT, actions);
      w.dequeued <= w.enqueued && exists kept :: Selects(kept, w.arrived, w.enqueued)
  {
    Reached(c, actions);
    var w := Run(c, INIT, actions);
    assert Selects(w.kept, w.arrived, w.enqueued);
  }

  /** An eligible datagram is skipped exactly when the bytes outstanding or the datagrams queued
      leave no room for it. */
  lemma SkippedIffNoRoom(c: Config, actions: seq<Action>)
    requires Run(c, INIT, actions).pc.Resolved?
    ensures var w := Run(c, INIT, actions);
      var d, w' := w.pc.d, Step(c, w, QueueUser);
      && (w'.enqueued == w.enqueued || w'.enqueued == w.enqueued + [d])
      && (w'.enqueued == w.enqueued <==>
            Bytes(w.tables.recvChan) + Bytes(w.unsettled) + |d.data| >= c.limit || |w.tables.recvChan| == c.slots)
  {
    Reached(c, actions);
  }
}
