/** The tables a TunaSessionClient keeps under its lock (client.go), and what each
    lock-protected section does to them. Every section is one function from tables to
    tables; a write to a missing inner map, which stops a Go program, is an outcome of its
    own, so that its absence can be proved rather than presupposed. */
module ClientTables {
  import Keys
  import opened Options

  /** A string as a table key: a session key, a client address, a network address or a
      connection identifier. */
  datatype Text = Text(chars: string)

  /** Identity of an ncp session object. */
  type Sid = nat

  /** Identity of a connection object. */
  datatype Conn = Conn(id: nat)

  datatype PubAddr = PubAddr(ip: string, port: nat) {
    predicate Valid() {
      |ip| > 0 && port != 0
    }

    function String(): Text {
      Text(ip + ":" + Keys.Decimal(port))
    }
  }

  /** An address can be read off its text. */
  lemma PubAddrRoundTrip(p: PubAddr)
    ensures var parts := Keys.SplitLast(p.String().chars);
      parts.Some? && parts.value.0 == p.ip && Keys.ParseDecimal(parts.value.1) == Some(p.port)
  {
    Keys.SplitAtColon(p.ip, Keys.Decimal(p.port));
    Keys.DecimalRoundTrip(p.port);
  }

  /** A decoded address list may hold null entries. */
  type AddrList = seq<Option<PubAddr>>

  datatype Tables = Tables(
    sessions: map<Text, Sid>,
    sessionConns: map<Text, map<Text, Conn>>,
    connCount: map<Text, int>,
    addrConnCount: map<Text, map<Text, int>>,
    closedSessionKey: set<Text>,
    pubAddrs: map<Text, AddrList>)

  const EMPTY := Tables(map[], map[], map[], map[], {}, map[])

  /** Reading an absent key of a counter map yields zero. */
  function Count<K>(m: map<K, int>, k: K): int {
    if k in m then m[k] else 0
  }

  function AddrCount(t: Tables, remote: Text, peer: Text): int {
    if remote in t.addrConnCount then Count(t.addrConnCount[remote], peer) else 0
  }

  // ---- listener registers an accepted connection ----

  datatype Registration = NilTable | Refused | NotCreated | Joined(sess: Sid) | Created(sess: Sid)

  /** `minted` is what newSession would return: a new session, or None for an error. */
  function Register(t: Tables, key: Text, slot: Text, conn: Conn, minted: Option<Sid>): (Tables, Registration) {
    if key in t.sessions then
      if key !in t.sessionConns then (t, NilTable)
      else (t.(sessionConns := t.sessionConns[key := t.sessionConns[key][slot := conn]]), Joined(t.sessions[key]))
    else if key in t.closedSessionKey then (t, Refused)
    else match minted
      case None => (t, NotCreated)
      case Some(sess) =>
        (t.(sessions := t.sessions[key := sess], sessionConns := t.sessionConns[key := map[slot := conn]]),
         Created(sess))
  }

  // ---- connection handler ----

  function Enter(t: Tables, key: Text, remote: Text, peer: Text): Tables
    requires key in t.sessions
  {
    var inner := if remote in t.addrConnCount then t.addrConnCount[remote] else map[];
    t.(connCount := t.connCount[key := Count(t.connCount, key) + 1],
       addrConnCount := t.addrConnCount[remote := inner[peer := Count(inner, peer) + 1]])
  }

  datatype ExitOutcome = ExitNilMap | Exited(tables: Tables, shouldClose: bool)

  function Exit(t: Tables, key: Text, remote: Text, peer: Text, slot: Text): ExitOutcome {
    if remote !in t.addrConnCount then ExitNilMap
    else
      var t1 := LeaveSlot(LeaveAddr(t, remote, peer), key, slot);
      var left := Count(t.connCount, key) - 1;
      if left == 0 then Exited(TearDown(t1, {key}), true)
      else Exited(t1.(connCount := t1.connCount[key := left]), false)
  }

  /** The address part of an exit: one count less, and when it reaches zero the count, an
      emptied inner map and the cached address list of that remote all go. */
  function LeaveAddr(t: Tables, remote: Text, peer: Text): Tables
    requires remote in t.addrConnCount
  {
    var inner := t.addrConnCount[remote];
    var left := Count(inner, peer) - 1;
    if left > 0 then t.(addrConnCount := t.addrConnCount[remote := inner[peer := left]])
    else
      var rest := inner - {peer};
      t.(addrConnCount := if rest == map[] then t.addrConnCount - {remote} else t.addrConnCount[remote := rest],
         pubAddrs := t.pubAddrs - {remote})
  }

  function LeaveSlot(t: Tables, key: Text, slot: Text): Tables {
    if key in t.sessionConns then t.(sessionConns := t.sessionConns[key := t.sessionConns[key] - {slot}]) else t
  }

  /** Dropping sessions: their session, table and counter go and their keys are tombstoned.
      The last handler's exit does this to one key, the sweeper to every closed one. */
  function TearDown(t: Tables, keys: set<Text>): Tables {
    t.(sessions := t.sessions - keys,
       sessionConns := t.sessionConns - keys,
       connCount := t.connCount - keys,
       closedSessionKey := t.closedSessionKey + keys)
  }

  // ---- dialer ----

  function DialConn(t: Tables, key: Text, slot: Text, conn: Conn): Tables {
    var conns := if key in t.sessionConns then t.sessionConns[key] else map[];
    t.(sessionConns := t.sessionConns[key := conns[slot := conn]])
  }

  function DialSession(t: Tables, key: Text, sess: Sid): Tables {
    t.(sessions := t.sessions[key := sess])
  }

  // ---- address cache ----

  datatype Fetch = FetchNilEntry | FetchNoAddr | FetchStore

  /** The first entry that is null or valid decides; a null one is dereferenced. */
  function Classify(list: AddrList): (f: Fetch)
    ensures f == FetchStore ==> exists p :: Some(p) in list && p.Valid()
  {
    if list == [] then FetchNoAddr
    else if list[0] == None then FetchNilEntry
    else if list[0].value.Valid() then
      assert Some(list[0].value) in list;
      FetchStore
    else Classify(list[1..])
  }

  /** Every entry before position i is an address without IP or port. */
  ghost predicate Blank(list: AddrList, i: int) {
    && 0 <= i <= |list|
    && forall j :: 0 <= j < i ==> list[j].Some? && (list[j].value.ip == "" || list[j].value.port == 0)
  }

  ghost predicate NullAt(list: AddrList, i: int) {
    Blank(list, i) && i < |list| && list[i] == None
  }

  ghost predicate ValidAt(list: AddrList, i: int) {
    Blank(list, i) && i < |list| && list[i].Some? && list[i].value.ip != "" && list[i].value.port != 0
  }

  /** A reply makes the program dereference a null entry exactly if one comes before the first
      valid address, is stored exactly if a valid address comes before the first null entry, and
      is rejected exactly if it holds neither. */
  lemma {:induction false} FetchOutcomes(list: AddrList)
    ensures Classify(list) == FetchNilEntry <==> exists i :: NullAt(list, i)
    ensures Classify(list) == FetchStore <==> exists i :: ValidAt(list, i)
    ensures Classify(list) == FetchNoAddr <==> Blank(list, |list|)
  {
    var i := Decides(list);
    forall k | NullAt(list, k) || ValidAt(list, k)
      ensures k == i
    {}
  }

  lemma {:induction false} Decides(list: AddrList) returns (i: nat)
    ensures i <= |list| && Blank(list, i)
    ensures match Classify(list)
      case FetchNilEntry => NullAt(list, i)
      case FetchStore => ValidAt(list, i)
      case FetchNoAddr => i == |list|
  {
    if list == [] || list[0] == None || list[0].value.Valid() {
      i := 0;
    } else {
      i := Decides(list[1..]);
      i := i + 1;
      forall j | 0 <= j < i
        ensures list[j].Some? && (list[j].value.ip == "" || list[j].value.port == 0)
      {
        assert j > 0 ==> list[j] == list[1..][j - 1];
      }
    }
  }

  /** Such a reply: a null entry in front, whatever follows. */
  lemma NullEntryIsDereferenced(rest: AddrList)
    ensures Classify([None] + rest) == FetchNilEntry
  {}

  function Store(t: Tables, remote: Text, list: AddrList): Tables {
    t.(pubAddrs := t.pubAddrs[remote := list])
  }

  ghost predicate Usable(t: Tables, remote: Text, list: AddrList) {
    forall i :: 0 <= i < |list| ==> list[i].Some? && AddrCount(t, remote, list[i].value.String()) > 0
  }

  ghost function CacheLookup(t: Tables, remote: Text): Option<AddrList> {
    if remote in t.pubAddrs && Usable(t, remote, t.pubAddrs[remote]) then Some(t.pubAddrs[remote]) else None
  }

  // ---- queries ----

  predicate IsSessClosed(t: Tables, closed: set<Sid>, key: Text) {
    if key in t.sessions then t.sessions[key] in closed else key in t.closedSessionKey
  }
}
