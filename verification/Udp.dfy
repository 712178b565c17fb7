/** A listening UdpSession (udpsession.go) in the program's own steps on its fields. Besides
    having the effects that `UdpTables` states and `UdpRuns` reasons about, every method keeps
    the two indexes in agreement and the byte budget exact, and says what it means for the
    sessions and the bytes outstanding. */
module Udp {
  import opened Keys
  import opened Options
  import opened UdpTables

  class UdpSession {
    var sessKeyToSessAddr: map<string, SessionAddr>
    var udpAddrToSessAddr: map<string, SessionAddr>
    var tcpConns: map<string, nat>
    var recvChan: seq<Datagram>
    var recvSize: int
    var connOpen: bool
    const limit: int
    const slots: Slots

    /** Datagrams that readers have taken and not yet settled, and the number of readers that have
        found the session open and not yet taken one. */
    ghost var unsettled: seq<Datagram>
    ghost var inside: nat

    ghost function View(): Tables
      reads this
    {
      Tables(sessKeyToSessAddr, udpAddrToSessAddr, tcpConns, recvChan, recvSize)
    }

    /** The bytes queued or taken and not yet settled. */
    ghost function Outstanding(): nat
      reads this
    {
      Bytes(recvChan) + Bytes(unsettled)
    }

    ghost predicate Valid()
      reads this
    {
      && (forall addr :: AgreeAt(sessKeyToSessAddr, udpAddrToSessAddr, addr)) && OwnKeys(sessKeyToSessAddr)
      && recvSize == Outstanding() && (recvSize == 0 || recvSize < limit) && |recvChan| <= slots
    }

    constructor (limit: int, slots: Slots)
      ensures Valid() && View() == EMPTY && unsettled == [] && connOpen && inside == 0
      ensures this.limit == limit && this.slots == slots
    {
      sessKeyToSessAddr, udpAddrToSessAddr, tcpConns := map[], map[], map[];
      recvChan, recvSize, unsettled := [], 0, [];
      connOpen, inside := true, 0;
      this.limit, this.slots := limit, slots;
    }

    /** A new session id binds its key and its address, from then on to each other, and nothing
        else; a known one changes nothing, even from another address. */
    method HandleSessionID(peer: SessionAddr)
      requires Valid()
      modifies `sessKeyToSessAddr, `udpAddrToSessAddr
      ensures Valid()
      ensures View() == if Bound(old(View()), peer.Key()).Some? then old(View()) else Bind(old(View()), peer)
      ensures Bound(old(View()), peer.Key()) == None ==>
        Bound(View(), peer.Key()) == Some(peer.udpAddr) && Route(View(), peer.udpAddr) == Some(peer)
      ensures forall key :: key != peer.Key() ==> Bound(View(), key) == Bound(old(View()), key)
      ensures forall addr :: addr != peer.udpAddr ==> Route(View(), addr) == Route(old(View()), addr)
    {
      if peer.Key() in sessKeyToSessAddr {
        return;
      }
      sessKeyToSessAddr := sessKeyToSessAddr[peer.Key() := peer];
      udpAddrToSessAddr := udpAddrToSessAddr[peer.udpAddr := peer];
      forall addr
        ensures AgreeAt(sessKeyToSessAddr, udpAddrToSessAddr, addr)
      {
        assert AgreeAt(old(sessKeyToSessAddr), old(udpAddrToSessAddr), addr);
      }
    }

    /** A closed key is bound to nothing and no address leads to it. Other keys stay bound; an
        address loses its route exactly if the closed key was bound to it. */
    method HandleConnClosed(key: string)
      requires Valid()
      modifies `sessKeyToSessAddr, `udpAddrToSessAddr, `tcpConns
      ensures Valid()
      ensures View() == ConnClosed(old(View()), key)
      ensures Bound(View(), key) == None && !Routed(View(), key)
      ensures forall other :: other != key ==> Bound(View(), other) == Bound(old(View()), other)
      ensures forall addr ::
        Route(View(), addr) == (if Bound(old(View()), key) == Some(addr) then None else Route(old(View()), addr))
    {
      ClosedKeepsAgreement(View(), key);
      if key in sessKeyToSessAddr {
        var peer := sessKeyToSessAddr[key];
        sessKeyToSessAddr := sessKeyToSessAddr - {key};
        udpAddrToSessAddr := udpAddrToSessAddr - {peer.udpAddr};
        if key in tcpConns {
          tcpConns := tcpConns - {key};
        }
        assert key !in old(tcpConns) ==> old(tcpConns) - {key} == old(tcpConns);
      }
      assert View() == ConnClosed(old(View()), key);
    }

    /** No session is left and no new reader gets in. What was received stays queued, for the readers
        that are already inside. */
    method Close()
      requires Valid()
      modifies `sessKeyToSessAddr, `udpAddrToSessAddr, `tcpConns, `connOpen
      ensures Valid() && View() == CloseAll(old(View())) && !connOpen
      ensures forall key :: Bound(View(), key) == None && !Routed(View(), key)
    {
      connOpen := false;
      sessKeyToSessAddr, udpAddrToSessAddr, tcpConns := map[], map[], map[];
    }

    /** The user-data branch of recvMsg; the packet's first byte is its header. The payload goes to
        the end of the queue exactly if the bytes outstanding leave room for it below the limit
        and a slot is free. */
    method RecvUser(packet: seq<byte>, from: SessionAddr) returns (queued: bool)
      requires Valid() && |packet| > 0
      modifies `recvChan, `recvSize
      ensures Valid() && View() == Enqueue(old(View()), Datagram(packet[1..], from), limit, slots)
      ensures queued <==> old(Outstanding()) + |packet| - 1 < limit && |old(recvChan)| < slots
      ensures recvChan == old(recvChan) + if queued then [Datagram(packet[1..], from)] else []
      ensures Outstanding() == old(Outstanding()) + if queued then |packet| - 1 else 0
    {
      queued := false;
      BytesConcat(recvChan, [Datagram(packet[1..], from)]);
      if recvSize + |packet| - 1 < limit {
        if |recvChan| < slots {
          recvChan := recvChan + [Datagram(packet[1..], from)];
          recvSize := recvSize + |packet| - 1;
          queued := true;
        }
      }
    }

    /** ReadFrom first finds out whether the session is open; if not, it fails. */
    method StartRead() returns (ok: bool)
      requires Valid()
      modifies `inside
      ensures Valid() && (ok <==> connOpen)
      ensures inside == old(inside) + if connOpen then 1 else 0
    {
      if !connOpen {
        return false;
      }
      inside := inside + 1;
      return true;
    }

    /** Then, in a reader that is inside, the oldest datagram is taken; its bytes stay outstanding. */
    method Receive() returns (d: Datagram)
      requires Valid() && inside > 0 && recvChan != []
      modifies `recvChan, `unsettled, `inside
      ensures Valid() && View() == Dequeue(old(View())) && inside == old(inside) - 1
      ensures [d] + recvChan == old(recvChan) && unsettled == old(unsettled) + [d]
      ensures Outstanding() == old(Outstanding())
    {
      d := recvChan[0];
      recvChan := recvChan[1..];
      unsettled, inside := unsettled + [d], inside - 1;
      BytesConcat(old(unsettled), [d]);
    }

    /** And last, in the reader that holds the i-th unsettled datagram: its bytes are given
        back. When nothing is queued or unsettled any more, the whole budget is free. */
    method Release(d: Datagram, ghost i: nat)
      requires Valid() && i < |unsettled| && unsettled[i] == d
      modifies `recvSize, `unsettled
      ensures Valid() && View() == Settle(old(View()), d)
      ensures unsettled == old(unsettled)[..i] + old(unsettled)[i + 1..]
      ensures Outstanding() == old(Outstanding()) - |d.data|
      ensures recvChan == [] && unsettled == [] ==> recvSize == 0
    {
      recvSize := recvSize - |d.data|;
      BytesOf(unsettled, i);
      unsettled := unsettled[..i] + unsettled[i + 1..];
    }

    /** Where a reply goes. It fails exactly if the key is not bound, and whenever an address leads
        to the key it is the one answered. */
    method GetUdpAddr(peer: SessionAddr) returns (r: Option<string>)
      requires Valid()
      ensures r == ReplyAddr(View(), peer)
      ensures forall addr ::
        addr in udpAddrToSessAddr && udpAddrToSessAddr[addr].Key() == peer.Key() ==> r == Some(addr)
    {
      forall addr | addr in udpAddrToSessAddr && udpAddrToSessAddr[addr].Key() == peer.Key()
        ensures Bound(View(), peer.Key()) == Some(addr)
      {
        assert AgreeAt(sessKeyToSessAddr, udpAddrToSessAddr, addr);
      }
      if peer.Key() in sessKeyToSessAddr {
        return Some(sessKeyToSessAddr[peer.Key()].udpAddr);
      }
      return None;
    }
  }
}
