/** TunaSessionClient (client.go): the lock-protected sections written as the program
    writes them, step by step on the fields, each proved to have exactly the effect on the
    tables that `ClientTables` states and `ClientRuns` reasons about. Sections of a single
    assignment or lookup are only in `ClientTables`. */
module Client {
  import opened ClientTables
  import opened Options

  class TunaSessionClient {
    var sessions: map<Text, Sid>
    var sessionConns: map<Text, map<Text, Conn>>
    var connCount: map<Text, int>
    var addrConnCount: map<Text, map<Text, int>>
    var closedSessionKey: set<Text>
    var pubAddrs: map<Text, AddrList>

    ghost function View(): Tables
      reads this
    {
      Tables(sessions, sessionConns, connCount, addrConnCount, closedSessionKey, pubAddrs)
    }

    constructor ()
      ensures View() == EMPTY
    {
      sessions, sessionConns, connCount := map[], map[], map[];
      addrConnCount, closedSessionKey, pubAddrs := map[], {}, map[];
    }

    /** The critical section of listenNet. */
    method Register(key: Text, slot: Text, conn: Conn, minted: Option<Sid>) returns (r: Registration)
      modifies this
      ensures (View(), r) == ClientTables.Register(old(View()), key, slot, conn, minted)
    {
      var created := false;
      if key !in sessions {
        if key in closedSessionKey {
          return Refused;
        }
        if minted == None {
          return NotCreated;
        }
        sessions := sessions[key := minted.value];
        sessionConns := sessionConns[key := map[]];
        created := true;
        UpdateUpdate(old(sessionConns), key, map[], map[slot := conn]);
      }
      if key !in sessionConns {
        return NilTable;
      }
      sessionConns := sessionConns[key := sessionConns[key][slot := conn]];
      return if created then Created(sessions[key]) else Joined(sessions[key]);
    }

    /** The entry section of handleConn: no session, no handler. */
    method HandleConnEnter(key: Text, remote: Text, peer: Text) returns (sess: Option<Sid>)
      modifies this
      ensures key !in old(sessions) ==> sess == None && View() == old(View())
      ensures key in old(sessions) ==>
        sess == Some(old(sessions)[key]) && View() == Enter(old(View()), key, remote, peer)
    {
      if key !in sessions {
        return None;
      }
      connCount := connCount[key := Count(connCount, key) + 1];
      if remote in addrConnCount {
        addrConnCount := addrConnCount[remote := addrConnCount[remote][peer := Count(addrConnCount[remote], peer) + 1]];
      } else {
        UpdateUpdate(addrConnCount, remote, map[], map[peer := 1]);
        addrConnCount := addrConnCount[remote := map[]];
        addrConnCount := addrConnCount[remote := addrConnCount[remote][peer := Count(addrConnCount[remote], peer) + 1]];
      }
      return Some(sessions[key]);
    }

    /** The deferred section of handleConn. */
    method HandleConnExit(key: Text, remote: Text, peer: Text, slot: Text) returns (nilMap: bool, shouldClose: bool)
      modifies this
      ensures nilMap <==> Exit(old(View()), key, remote, peer, slot).ExitNilMap?
      ensures !nilMap ==> Exited(View(), shouldClose) == Exit(old(View()), key, remote, peer, slot)
    {
      ghost var was := View();
      connCount := connCount[key := Count(connCount, key) - 1];
      if key in sessionConns {
        sessionConns := sessionConns[key := sessionConns[key] - {slot}];
      }
      if remote !in addrConnCount {
        return true, false;
      }
      DropAddr(remote, peer);
      shouldClose := Count(connCount, key) == 0;
      if shouldClose {
        UpdateRemove(was.connCount, key, connCount[key]);
        Forget(key);
      }
      nilMap := false;
    }

    /** Its address part. */
    method DropAddr(remote: Text, peer: Text)
      requires remote in addrConnCount
      modifies `addrConnCount, `pubAddrs
      ensures View() == LeaveAddr(old(View()), remote, peer)
    {
      ghost var was, inner := addrConnCount, addrConnCount[remote];
      addrConnCount := addrConnCount[remote := addrConnCount[remote][peer := Count(addrConnCount[remote], peer) - 1]];
      if Count(addrConnCount[remote], peer) <= 0 {
        UpdateRemove(inner, peer, Count(inner, peer) - 1);
        RemoveAddr(remote, peer, was, inner);
        pubAddrs := pubAddrs - {remote};
      }
    }

    method RemoveAddr(remote: Text, peer: Text, ghost was: map<Text, map<Text, int>>, ghost inner: map<Text, int>)
      requires remote in addrConnCount && addrConnCount[remote] - {peer} == inner - {peer}
      requires addrConnCount == was[remote := addrConnCount[remote]]
      modifies `addrConnCount
      ensures addrConnCount == if inner - {peer} == map[] then was - {remote} else was[remote := inner - {peer}]
    {
      UpdateUpdate(was, remote, addrConnCount[remote], inner - {peer});
      addrConnCount := addrConnCount[remote := addrConnCount[remote] - {peer}];
      if |addrConnCount[remote]| == 0 {
        UpdateRemove(was, remote, inner - {peer});
        addrConnCount := addrConnCount - {remote};
      }
    }

    method Forget(key: Text)
      modifies this
      ensures View() == TearDown(old(View()), {key})
    {
      sessions := sessions - {key};
      sessionConns := sessionConns - {key};
      connCount := connCount - {key};
      closedSessionKey := closedSessionKey + {key};
    }

    /** One pass of the sweeper. The source ranges over the map it deletes from; the order
        is arbitrary. `closed` is the set of sessions that report themselves closed. */
    method RemoveClosedSessions(closed: set<Sid>)
      modifies this
      ensures View() == TearDown(old(View()), set k | k in old(sessions) && old(sessions)[k] in closed)
    {
      ghost var was := View();
      var todo := sessions.Keys;
      TearDownNone(was);
      while todo != {}
        invariant todo <= was.sessions.Keys
        invariant View() == TearDown(was, ClosedIn(was, closed, was.sessions.Keys - todo))
        decreases |todo|
      {
        var key :| key in todo;
        ghost var seen := was.sessions.Keys - todo;
        todo := todo - {key};
        assert was.sessions.Keys - todo == seen + {key};
        if sessions[key] in closed {
          Forget(key);
          TearDownAdds(was, ClosedIn(was, closed, seen), key);
          assert ClosedIn(was, closed, seen + {key}) == ClosedIn(was, closed, seen) + {key};
        } else {
          assert ClosedIn(was, closed, seen + {key}) == ClosedIn(was, closed, seen);
        }
      }
      assert ClosedIn(was, closed, was.sessions.Keys - {}) == set k | k in was.sessions && was.sessions[k] in closed;
    }

    /** The tail of getPubAddrsFromRemote, once a reply has been decoded. */
    method StorePubAddrs(remote: Text, list: AddrList) returns (f: Fetch)
      modifies this
      ensures f == Classify(list)
      ensures View() == if f == FetchStore then Store(old(View()), remote, list) else old(View())
    {
      for i := 0 to |list|
        invariant Classify(list) == Classify(list[i..])
        invariant View() == old(View())
      {
        if list[i] == None {
          return FetchNilEntry;
        }
        if list[i].value.Valid() {
          pubAddrs := pubAddrs[remote := list];
          return FetchStore;
        }
        assert list[i..][1..] == list[i + 1..];
      }
      return FetchNoAddr;
    }

    method GetCachedPubAddrs(remote: Text) returns (r: Option<AddrList>)
      ensures r == CacheLookup(View(), remote)
    {
      if remote !in pubAddrs {
        return None;
      }
      var cached := pubAddrs[remote];
      for i := 0 to |cached|
        invariant forall j :: 0 <= j < i ==> cached[j].Some? && AddrCount(View(), remote, cached[j].value.String()) > 0
      {
        if cached[i] == None {
          assert !Usable(View(), remote, cached);
          return None;
        }
        if remote in addrConnCount {
          if Count(addrConnCount[remote], cached[i].value.String()) <= 0 {
            assert AddrCount(View(), remote, cached[i].value.String()) <= 0;
            return None;
          }
        } else {
          assert AddrCount(View(), remote, cached[i].value.String()) <= 0;
          return None;
        }
      }
      return Some(cached);
    }
  }

  lemma UpdateUpdate<K, V>(m: map<K, V>, k: K, v: V, w: V)
    ensures m[k := v][k := w] == m[k := w]
  {}

  lemma UpdateRemove<K, V>(m: map<K, V>, k: K, v: V)
    ensures m[k := v] - {k} == m - {k}
  {}

  ghost function ClosedIn(t: Tables, closed: set<Sid>, keys: set<Text>): set<Text>
    requires keys <= t.sessions.Keys
  {
    set k | k in keys && t.sessions[k] in closed
  }

  lemma TearDownNone(t: Tables)
    ensures TearDown(t, {}) == t
  {}

  lemma TearDownAdds(t: Tables, keys: set<Text>, key: Text)
    ensures TearDown(TearDown(t, keys), {key}) == TearDown(t, keys + {key})
  {}
}
