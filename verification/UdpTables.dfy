/** What a listening UdpSession keeps under its lock (udpsession.go), and what each of its
    sections does to it. */
module UdpTables {
  import opened Keys
  import opened Options

  /** A peer of the listener: its NKN address and session id, and where its datagrams come from. */
  datatype SessionAddr = SessionAddr(remoteNknAddr: string, sessionID: seq<byte>, udpAddr: string) {
    function Key(): string {
      SessionKey(remoteNknAddr, sessionID)
    }
  }

  datatype Datagram = Datagram(data: seq<byte>, from: SessionAddr)

  datatype Tables = Tables(
    sessKeyToSessAddr: map<string, SessionAddr>,
    udpAddrToSessAddr: map<string, SessionAddr>,
    tcpConns: map<string, nat>,
    recvChan: seq<Datagram>,
    recvSize: int)

  const EMPTY := Tables(map[], map[], map[], [], 0)

  // ---- index ----

  /** The write half of a SESSIONID message. */
  function Bind(t: Tables, addr: SessionAddr): Tables {
    t.(sessKeyToSessAddr := t.sessKeyToSessAddr[addr.Key() := addr],
       udpAddrToSessAddr := t.udpAddrToSessAddr[addr.udpAddr := addr])
  }

  /** A session is closed by its peer. */
  function ConnClosed(t: Tables, key: string): Tables {
    if key !in t.sessKeyToSessAddr then t
    else
      t.(sessKeyToSessAddr := t.sessKeyToSessAddr - {key},
         udpAddrToSessAddr := t.udpAddrToSessAddr - {t.sessKeyToSessAddr[key].udpAddr},
         tcpConns := t.tcpConns - {key})
  }

  /** The listener closes. */
  function CloseAll(t: Tables): Tables {
    t.(sessKeyToSessAddr := map[], udpAddrToSessAddr := map[], tcpConns := map[])
  }

  /** The address the session of a key is bound to. */
  function Bound(t: Tables, key: string): Option<string> {
    if key in t.sessKeyToSessAddr then Some(t.sessKeyToSessAddr[key].udpAddr) else None
  }

  /** The session that datagrams from an address belong to. */
  function Route(t: Tables, addr: string): Option<SessionAddr> {
    if addr in t.udpAddrToSessAddr then Some(t.udpAddrToSessAddr[addr]) else None
  }

  /** Some address leads to the key. */
  ghost predicate Routed(t: Tables, key: string) {
    exists addr :: addr in t.udpAddrToSessAddr && t.udpAddrToSessAddr[addr].Key() == key
  }

  /** Where a reply to a peer goes. */
  function ReplyAddr(t: Tables, peer: SessionAddr): Option<string> {
    Bound(t, peer.Key())
  }

  type Index = map<string, SessionAddr>

  /** An address is routed to a peer that sends from it and is on record under its own key. */
  ghost predicate AgreeAt(byKey: Index, byAddr: Index, addr: string) {
    addr in byAddr ==>
      byAddr[addr].udpAddr == addr && byAddr[addr].Key() in byKey && byKey[byAddr[addr].Key()] == byAddr[addr]
  }

  ghost predicate OwnKeys(byKey: Index) {
    forall key :: key in byKey ==> byKey[key].Key() == key
  }

  ghost predicate RouteInv(t: Tables, addr: string) {
    AgreeAt(t.sessKeyToSessAddr, t.udpAddrToSessAddr, addr)
  }

  /** Closing a key keeps the two indexes in agreement and leaves no address that leads to it. */
  lemma ClosedKeepsAgreement(t: Tables, key: string)
    requires OwnKeys(t.sessKeyToSessAddr)
    requires forall addr :: AgreeAt(t.sessKeyToSessAddr, t.udpAddrToSessAddr, addr)
    ensures var t' := ConnClosed(t, key);
      && OwnKeys(t'.sessKeyToSessAddr)
      && (forall addr :: AgreeAt(t'.sessKeyToSessAddr, t'.udpAddrToSessAddr, addr))
      && !Routed(t', key)
  {
    var t' := ConnClosed(t, key);
    forall addr
      ensures AgreeAt(t'.sessKeyToSessAddr, t'.udpAddrToSessAddr, addr)
      ensures addr in t'.udpAddrToSessAddr ==> t'.udpAddrToSessAddr[addr].Key() != key
    {
      assert AgreeAt(t.sessKeyToSessAddr, t.udpAddrToSessAddr, addr);
    }
  }

  // ---- receive buffer ----

  function Bytes(ds: seq<Datagram>): nat {
    if ds == [] then 0 else |ds[0].data| + Bytes(ds[1..])
  }

  /** Capacity of the queue. A configuration that leaves it out, or sets it to zero, gets the
      default of 1024, and a negative one has no channel. */
  type Slots = n: int | n > 0 witness 1

  /** Both the byte budget and a slot are there. */
  predicate Room(t: Tables, size: nat, limit: int, slots: Slots) {
    t.recvSize + size < limit && |t.recvChan| < slots
  }

  function Enqueue(t: Tables, d: Datagram, limit: int, slots: Slots): Tables {
    if Room(t, |d.data|, limit, slots) then t.(recvChan := t.recvChan + [d], recvSize := t.recvSize + |d.data|)
    else t
  }

  function Dequeue(t: Tables): Tables
    requires t.recvChan != []
  {
    t.(recvChan := t.recvChan[1..])
  }

  function Settle(t: Tables, d: Datagram): Tables {
    t.(recvSize := t.recvSize - |d.data|)
  }

  lemma {:induction false} BytesConcat(a: seq<Datagram>, b: seq<Datagram>)
    ensures Bytes(a + b) == Bytes(a) + Bytes(b)
  {
    if a == [] {
      assert a + b == b;
    } else {
      BytesConcat(a[1..], b);
      assert (a + b)[1..] == a[1..] + b;
    }
  }

  lemma BytesOf(ds: seq<Datagram>, i: nat)
    requires i < |ds|
    ensures Bytes(ds) == Bytes(ds[..i] + ds[i + 1..]) + |ds[i].data|
  {
    assert ds == ds[..i] + ([ds[i]] + ds[i + 1..]);
    BytesConcat(ds[..i], [ds[i]] + ds[i + 1..]);
    BytesConcat([ds[i]], ds[i + 1..]);
    BytesConcat(ds[..i], ds[i + 1..]);
    assert Bytes([ds[i]]) == |ds[i].data|;
  }
}
