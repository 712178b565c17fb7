/** Concurrent writers of one connection (message.go). Each holds the write lock across its two
    network writes, either of which may fail part-way; the caller then closes the connection, but
    only after the lock is free again. */
module Writers {
  import opened Keys
  import opened Options
  import opened Framing

  /** The writer inside writeMessage, having taken the write lock. */
  datatype Holder = Free | Held(writer: nat, msg: seq<byte>, headerWritten: bool)

  /** `Fail`: the write in progress ends with an error after n bytes. */
  datatype Action = Lock(w: nat, msg: seq<byte>) | WriteHeader(w: nat) | WriteBody(w: nat) | Fail(w: nat, n: nat)

  /** `order` lists the messages in the order in which their writers took the lock; `failed` is
      the position in it of the first whose write failed. */
  datatype Channel = Channel(wire: seq<byte>, holder: Holder, order: seq<seq<byte>>, failed: Option<int>)

  const IDLE := Channel([], Free, [], None)

  function Header(msg: seq<byte>): seq<byte> {
    PutUint32(|msg| % UINT32)
  }

  function Part(h: Holder): seq<byte>
    requires h.Held?
  {
    if h.headerWritten then h.msg else Header(h.msg)
  }

  function Step(c: Channel, a: Action): Channel {
    if a.Lock? then
      if c.holder == Free then c.(holder := Held(a.w, a.msg, false), order := c.order + [a.msg]) else c
    else if c.holder == Free || c.holder.writer != a.w then c
    else
      match a
      case WriteHeader(_) =>
        if c.holder.headerWritten then c
        else c.(wire := c.wire + Header(c.holder.msg), holder := c.holder.(headerWritten := true))
      case WriteBody(_) =>
        if !c.holder.headerWritten then c
        else c.(wire := c.wire + c.holder.msg, holder := Free)
      case Fail(_, n) =>
        if n >= |Part(c.holder)| then c
        else
          c.(wire := c.wire + Part(c.holder)[..n], holder := Free,
             failed := if c.failed == None then Some(|c.order| - 1) else c.failed)
  }

  function Run(c: Channel, actions: seq<Action>): Channel {
    if actions == [] then c
    else Step(Run(c, actions[..|actions| - 1]), actions[|actions| - 1])
  }

  predicate NoFailure(actions: seq<Action>) {
    forall a: Action :: a in actions ==> !a.Fail?
  }

  // ---- what every step keeps ----

  /** Before any failure the wire is whole frames in lock order, and a header if one is written. */
  ghost predicate Whole(c: Channel) {
    match c.holder
    case Free => c.wire == Wire(c.order)
    case Held(_, msg, headerWritten) =>
      && c.order != [] && c.order[|c.order| - 1] == msg
      && c.wire == Wire(c.order[..|c.order| - 1]) + if headerWritten then Header(msg) else []
  }

  /** After one at position f, the frames before f are whole, and until another writer takes the
      lock the wire is cut short inside the frame at f. */
  ghost predicate Broken(c: Channel, f: int) {
    && 0 <= f < |c.order|
    && Wire(c.order[..f]) <= c.wire
    && (|c.order| == f + 1 ==> c.holder == Free && |c.wire| < |Wire(c.order)| && c.wire <= Wire(c.order))
  }

  ghost predicate ChannelInv(c: Channel) {
    if c.failed == None then Whole(c) else Broken(c, c.failed.value)
  }

  lemma LastFrame(order: seq<seq<byte>>)
    requires order != []
    ensures Wire(order) == Wire(order[..|order| - 1]) + Header(order[|order| - 1]) + order[|order| - 1]
  {
    var done, msg := order[..|order| - 1], order[|order| - 1];
    assert order == done + [msg];
    WireAppend(done, msg);
    Assoc(Wire(done), Header(msg), msg);
  }

  lemma Assoc(a: seq<byte>, b: seq<byte>, c: seq<byte>)
    ensures a + (b + c) == a + b + c
  {}

  lemma WholeStep(c: Channel, a: Action)
    requires c.failed == None && Whole(c)
    ensures ChannelInv(Step(c, a))
  {
    if c.holder == Free {
      if a.Lock? {
        assert (c.order + [a.msg])[..|c.order|] == c.order && c.wire + [] == c.wire;
      }
    } else if !a.Lock? && c.holder.writer == a.w {
      LastFrame(c.order);
      assert Wire(c.order[..|c.order| - 1]) + [] == Wire(c.order[..|c.order| - 1]);
      if a.Fail? && a.n < |Part(c.holder)| {
        FailStep(c, a);
      }
    }
  }

  lemma FailStep(c: Channel, a: Action)
    requires c.failed == None && c.holder.Held? && Whole(c)
    requires a.Fail? && c.holder.writer == a.w && a.n < |Part(c.holder)|
    ensures Broken(Step(c, a), |c.order| - 1)
  {
    var done, msg, n := c.order[..|c.order| - 1], c.holder.msg, a.n;
    LastFrame(c.order);
    if c.holder.headerWritten {
      CutShort(Wire(done) + Header(msg), msg, n, []);
      assert Wire(done) + Header(msg) + msg + [] == Wire(done) + Header(msg) + msg;
    } else {
      CutShort(Wire(done), Header(msg), n, msg);
      assert c.wire == Wire(done);
    }
    assert Wire(done) <= Step(c, a).wire;
  }

  lemma CutShort(a: seq<byte>, b: seq<byte>, n: nat, rest: seq<byte>)
    requires n < |b|
    ensures a + b[..n] <= a + b + rest && |a + b[..n]| < |a + b + rest|
  {}

  lemma BrokenStep(c: Channel, a: Action)
    requires c.failed.Some? && Broken(c, c.failed.value)
    ensures ChannelInv(Step(c, a))
  {
    var f, c' := c.failed.value, Step(c, a);
    assert c'.failed == c.failed && c.wire <= c'.wire && c.order <= c'.order;
    assert c'.order[..f] == c.order[..f];
  }

  lemma {:induction false} WritersKeepFraming(c: Channel, actions: seq<Action>)
    requires ChannelInv(c)
    ensures ChannelInv(Run(c, actions))
  {
    if actions != [] {
      var before := Run(c, actions[..|actions| - 1]);
      WritersKeepFraming(c, actions[..|actions| - 1]);
      if before.failed == None {
        WholeStep(before, actions[|actions| - 1]);
      } else {
        BrokenStep(before, actions[|actions| - 1]);
      }
    }
  }

  // ---- delivery ----

  /** However much has arrived, the reader gets a prefix of the messages in lock order. */
  ghost predicate InOrder(c: Channel) {
    forall limits, arrived :: Fits(c.order, limits) && 0 <= arrived <= |c.wire| ==>
      ReadMessages(c.wire[..arrived], limits).0 <= c.order
  }

  predicate LockedSinceFailure(c: Channel) {
    c.failed.Some? && |c.order| != c.failed.value + 1
  }

  lemma WireIsPrefix(c: Channel)
    requires ChannelInv(c) && !LockedSinceFailure(c)
    ensures c.wire <= Wire(c.order)
  {
    if c.failed == None && c.holder != Free {
      LastFrame(c.order);
    }
  }

  lemma PrefixInOrder(c: Channel)
    requires ChannelInv(c) && !LockedSinceFailure(c)
    ensures InOrder(c)
  {
    WireIsPrefix(c);
    forall limits, arrived | Fits(c.order, limits) && 0 <= arrived <= |c.wire|
      ensures ReadMessages(c.wire[..arrived], limits).0 <= c.order
    {
      assert c.wire[..arrived] == Wire(c.order)[..arrived];
      CutWireYieldsPrefix(c.order, limits, arrived);
    }
  }

  /** Whatever the interleaving of the writers and however much has arrived, the reader gets a
      prefix of the messages in lock order, also after a write failed, as long as no writer has
      taken the lock since; and all of them once nothing is in progress, nothing failed and
      everything has arrived. */
  lemma DeliveredInLockOrder(actions: seq<Action>, limits: seq<nat>)
    requires !LockedSinceFailure(Run(IDLE, actions)) && Fits(Run(IDLE, actions).order, limits)
    ensures var c := Run(IDLE, actions);
      && InOrder(c)
      && (c.holder == Free && c.failed == None ==> ReadMessages(c.wire, limits) == (c.order, []))
  {
    WritersKeepFraming(IDLE, actions);
    var c := Run(IDLE, actions);
    PrefixInOrder(c);
    if c.holder == Free && c.failed == None {
      assert c.wire == Wire(c.order) + [];
      WireRoundTrip(c.order, limits, []);
    }
  }

  /** The messages before the first failure are delivered whatever happens after it. */
  lemma {:induction false} DeliveredBeforeFailure(actions: seq<Action>, limits: seq<nat>, more: seq<nat>, arrived: nat)
    requires Run(IDLE, actions).failed.Some?
    requires var c := Run(IDLE, actions);
      && 0 <= c.failed.value <= |c.order| && Fits(c.order[..c.failed.value], limits)
      && |Wire(c.order[..c.failed.value])| <= arrived <= |c.wire|
    ensures var c := Run(IDLE, actions);
      c.order[..c.failed.value] <= ReadMessages(c.wire[..arrived], limits + more).0
  {
    WritersKeepFraming(IDLE, actions);
    var c := Run(IDLE, actions);
    var before := c.order[..c.failed.value];
    var tail := c.wire[..arrived][|Wire(before)|..];
    assert c.wire[..arrived] == Wire(before) + tail;
    WireThen(before, limits, tail, more);
  }

  // ---- the reader at the other end ----

  /** Writers in any interleaving at one end, a stream that arrives in any pieces and as far as it
      may, and a reader at the other: the messages read are a prefix of those sent, in lock order,
      and all of them once everything has arrived. */
  method Receive(conn: Conn, limits: seq<nat>, ghost actions: seq<Action>) returns (msgs: seq<seq<byte>>)
    requires !LockedSinceFailure(Run(IDLE, actions)) && Fits(Run(IDLE, actions).order, limits)
    requires Flatten(conn.chunks) <= Run(IDLE, actions).wire
    modifies conn
    ensures msgs <= Run(IDLE, actions).order
    ensures var c := Run(IDLE, actions);
      c.holder == Free && c.failed == None && old(Flatten(conn.chunks)) == c.wire ==> msgs == c.order
  {
    ghost var c, stream := Run(IDLE, actions), Flatten(conn.chunks);
    DeliveredInLockOrder(actions, limits);
    assert stream == c.wire[..|stream|];
    msgs := conn.ReadAll(limits);
  }
}
