# Verified model of NKN Tuna Session

NKN Tuna Session multiplexes a session over several TCP connections between two NKN clients and
adds a UDP session on top. The protocol inside a session (ncp) is another library; what this
repository owns is the bookkeeping around it: tables updated under a lock by many goroutines,
reference counts, tombstones, a cache, a bounded buffer, a hedged request, message framing, and
the choice of relay nodes. This project models that bookkeeping in Dafny and proves what holds of
it over whole runs.

| file | models |
|---|---|
| `Options.dfy` | optional values |
| `Keys.dfy` | session keys and connection identifiers (`util.go`) |
| `ClientTables.dfy` | the tables of `TunaSessionClient` and the effect of each locked section (`client.go`) |
| `Client.dfy` | the same sections as methods of a class, in the program's own steps, proved equal to those effects |
| `ClientRuns.dfy` | all goroutines of a client as a transition system, and what every step keeps |
| `ClientTheorems.dfy` | what follows for every run |
| `Histories.dfy` | the client's tables, goroutines and accept queue told from the events of a run |
| `Abandoned.dfy` | sessions that no goroutine serves |
| `Hedge.dfy` | the hedged request for the peer's addresses (`client.go`) |
| `UdpTables.dfy` | the tables of a listening `UdpSession` and the effect of each of its sections (`udpsession.go`) |
| `Udp.dfy` | the class, whose methods keep its indexes in agreement and its byte budget exact |
| `UdpRuns.dfy` | all goroutines of a listening `UdpSession`, and what follows for every run |
| `UdpHistories.dfy` | its receive loop, TCP connections, readers and datagrams told from the events of a run |
| `Framing.dfy` | framed and sealed messages over a chunked stream (`message.go`) |
| `Serving.dfy` | what a listener and a dialer make of the frames they read: handshake and session messages (`client.go`) |
| `Writers.dfy` | concurrent writers of a connection, whose writes may fail part-way (`message.go`) |
| `CutFrames.dfy` | what such a connection is still good for after a failed write (`message.go`) |
| `Relay.dfy` | weighted choice and ordering of relay nodes (`node.go`) |
| `Reconnect.dfy` | the reconnect loops (`client.go`, `udp.go`) |

`dafny verify dfyconfig.toml` checks everything.

Runs. A transition system has one step per locked section and per thing the environment does (an
ncp session closes, a tombstone expires, a send fails). A run is an arbitrary list of actions, so
a statement about `Run(INIT, actions)` for all `actions` is a statement about every reachable
state and every interleaving. An action that is not enabled leaves the state as it is. Events such
as "the session of this key was torn down" are told from the section that runs and its outcome, and
tallied over the list of actions.

Writing to a missing inner map stops a Go program; the model keeps that as an outcome, and its
absence is a theorem, not a precondition.

What the environment is taken to do: a session id drawn by a local dial is new and does not arrive
at the listener as a peer's session id; a UDP read returns at least one byte; node measurements are
non-negative; sealing and opening under one shared key and nonce are inverse to each other, and where
forged messages are spoken of, nothing opens but what was sealed. A UDP
session's queue has at least one slot: `config.go:57` gives 1024, and the merge at
`config.go:78-87` keeps it when zero is given.

## Where the program departs from its rule

Each of these is stated as an exact condition, with a run or an input that shows it.

- The sweeper deletes the handler count of a session whose handlers are still running. Their later
  exits make the count negative and it stays so. If the key is used again after its tombstone has
  expired, an exit can tear the new session down while another handler is live, and the last
  handler's exit can leave it behind. Exactly when: `ExitTearsDownIff`, `LastHandlerRuleIff`. Runs:
  `ReusedKeyLosesALiveHandler`, `ReusedKeyKeepsADeadSession`.
- A listener puts a session into the table before it has read its first message. If that fails and
  no other connection has joined, the session stays there with no goroutine until ncp closes it
  (`AbandonedStays`). Exactly when: `AbandonedIff`. Run: `FirstMessageFails`.
- After a UDP session is closed, one datagram can still be queued for it: the one that the receive
  loop had resolved before the close, if there is room for it once the readers have taken what they
  can. While the connection is open that is the whole buffer; after the listener itself was closed,
  only as many datagrams as there are readers already past the closed test (`TakenAfterClose`).
  Exactly when: `QueuedAfterCloseIff`; nothing else: `NothingQueuedAfterClose`. Run:
  `InFlightIsQueuedAfterClose`.
- `udpsession.go:551` and `udpsession.go:560` look into the two indexes without the lock, and a Go map
  read during a write stops the program. Exactly when the two can overlap: `OverlapIff`. Run:
  `OverlapReached`.
- When a second UDP session binds the address of a first, the first loses the address, and closing
  the first then takes it from the second as well. A session without an address stays bound, with no
  datagram taken for it, until it is closed itself (`CutOffStays`). Exactly when: `CutOffIff`. Run:
  `SharedAddressIsCut`.
- `config.go:29` documents negative retries as unlimited. `udp.go:102` then stops monitoring after
  the first successful reconnect. Exactly when: `UdpRound`. Input: `UnlimitedRetriesEndAtOnce`. The
  TCP loop honours it, but `client.go:1038-1044` returns neither a connection nor an error when the
  peer announces too few addresses, and that ends the loop. Exactly when: `TcpRound`. Input:
  `NoAddressEndsUnlimitedRetries`.
- A reply whose address list has a null entry before its first valid address is dereferenced
  (`client.go:321`). Exactly when: `FetchOutcomes`. Input: `NullEntryIsDereferenced`.
- A sealed message of 25 to 39 bytes makes a buffer length negative (`message.go:95`). A listener
  meets one as the metadata of a dialer it accepts, or later in the session; a dialer meets one in the
  session. Exactly when, over all streams: `HandshakeCrashIff`, `SessionCrashIff`, and both together
  `ListenerCrashIff`. Inputs: `ShortSealCrashes`, `ShortMessageCrashes`.
- A write that fails part-way leaves a piece of a frame, and a writer that gets the lock before the
  connection is closed appends to it, so that the reader can take the frames that follow for
  something else than the messages written. It cannot exactly if nothing of the frame was sent, or
  only zeros of its header and the reader's limit is small: `LockOrderKeptIff`, for every limit; for
  the sealed messages of a session under the limit `client.go:787` gives its reader, the exact
  condition is `SealedOrderKeptIff`, which with the default limit of 2324 bytes allows at most two
  bytes of the header. Run: `CutMessageIsMisread`.

## Model

| member | source | states |
|---|---|---|
| Keys.SessionKeyInjective | util.go:17-19 | two keys are equal exactly when address and session id are, whatever colons the address holds |
| Keys.SessionKeyRoundTrip | util.go:17-19 | address and session id can be read off a key: before and after its last colon, as lower-case hexadecimal by character codes |
| Keys.HexInjective | util.go:17-19 | hexadecimal text determines the bytes |
| Keys.ConnIDInjective | util.go:21-23 | connection identifiers of different indices differ |
| Keys.ConnIDRoundTrip | util.go:21-23 | the index can be read off its identifier, as decimal text by character codes with a minus sign if negative |
| Keys.Decimal | util.go:21-23 | such text has no leading zeros, signs or colons |
| Keys.DialedConnIDs | client.go:611-623 | the identifiers given to a dialed session are those of exactly the connected indices, in order, each once |
| ClientTables.FetchOutcomes | client.go:320-329 | a reply is dereferenced at a null entry exactly if one precedes every valid address, stored exactly if a valid address precedes every null entry, rejected exactly if it has neither |
| ClientTables.NullEntryIsDereferenced | client.go:321-321 | a list that starts with a null entry is such a reply |
| ClientTables.PubAddrRoundTrip | message.go:41-43 | address and port can be read off the text of a public address |
| Client.TunaSessionClient.Register | client.go:467-487 | the listener's section, with refusal, failed creation, joining, creation and the nil-map write told apart; what it leaves in the tables is told by `TablesAreTold` |
| Client.TunaSessionClient.HandleConnEnter | client.go:811-827 | without a session nothing changes; otherwise both counts go up by one |
| Client.TunaSessionClient.HandleConnExit | client.go:829-850 | the exit section has the effect `Exit`: counts, slot, cache entry and, at zero, teardown and tombstone |
| Client.TunaSessionClient.DropAddr | client.go:834-841 | one address count less; at zero the count, an emptied inner map and the cache entry go |
| Client.TunaSessionClient.RemoveClosedSessions | client.go:884-896 | a pass of the sweeper, in any order, tears down exactly the closed sessions |
| Client.TunaSessionClient.StorePubAddrs | client.go:320-329 | the list is cached exactly if its first null or valid entry is valid |
| Client.TunaSessionClient.GetCachedPubAddrs | client.go:1075-1098 | a list is returned exactly if it is cached, has no null entry and every listed address is counted; when that is, over runs, is told by `CacheHitIff` |
| ClientRuns.StepDoesNotPanic | client.go:486-486 | in a state that keeps the invariant no step writes to a missing map |
| ClientRuns.StepKeepsInv | client.go:467-896 | every step of every goroutine keeps the handler, life-cycle and address invariants of all keys and addresses |
| ClientRuns.RunKeepsInv | client.go:467-896 | so does every run |
| ClientTheorems.NoNilMapWrite | client.go:467-486 | in every run: no nil-map write, every session has its connection table, no live key is tombstoned |
| ClientTheorems.LedgerIsTally | client.go:829-896 | the counters carried along by a run equal the tallies of its events |
| ClientTheorems.ConnCountIsLiveMinusOrphans | client.go:817-892 | in every run `connCount` is the live handlers less those the last sweep of the key left behind |
| ClientTheorems.EventsFitTables | client.go:468-893 | in every run a registration never overwrites a session, and a teardown always finds one, removes it and leaves a tombstone |
| ClientTheorems.SessionsBalance | client.go:843-893 | in every run each registered session was torn down once, or is the one in the table |
| ClientTheorems.KeyIsUsedOnce | client.go:467-500 | without expiry of its tombstone a key is registered, created by the listener, queued for accept and torn down at most once |
| ClientTheorems.ExitTearsDownIff | client.go:829-849 | an exit tears down exactly when the handlers left are as many as the last sweep left behind |
| ClientTheorems.LastHandlerRuleIff | client.go:829-849 | an exit keeps the rule "ends the session if it is there and this is its last handler, and only then" exactly if there is no session, or no orphans are outstanding, or the handlers left are neither none nor as many as the orphans |
| ClientTheorems.LastHandlerEndsSession | client.go:829-893 | without expiry a session ends by a sweep or by its last handler's exit, and that exit does end it |
| ClientTheorems.ReusedKeyLosesALiveHandler | client.go:831-892 | for every key there is a run in which an exit tears down a session that has another live handler |
| ClientTheorems.ReusedKeyKeepsADeadSession | client.go:831-892 | for every key there is a run in which the last handler exits and the session stays in the table |
| ClientTheorems.DialTableIsDialed | client.go:1000-1007 | in every run, until its session is registered the table of a dialed key is exactly the latest connection dialed per slot, whatever the listener, handlers and sweeper do |
| ClientTheorems.DialRegistersItsConns | client.go:611-631 | a dialed session is registered under a key that has no session, with a table of exactly the connections dialed for it, at least one |
| ClientTheorems.AddrCountsAreLiveHandlers | client.go:819-841 | in every run `addrConnCount` counts the live handlers per address and stores nothing else |
| ClientTheorems.QuietMeansEmpty | client.go:834-841 | with no live handler `addrConnCount` is empty |
| ClientTheorems.ClosedMeansEnded | client.go:1059-1069 | in every run without expiry a key is reported closed exactly if its session was torn down, or is in the table and has closed |
| ClientTheorems.ClosedStaysClosed | client.go:1059-1069 | a session reported closed stays so through every continuation without expiry of its tombstone |
| ClientTheorems.CacheIsStoredSinceDrop | client.go:320-327 | in every run the cache holds the last stored list, unless an address of that remote has since lost its last handler |
| ClientTheorems.CacheHitIff | client.go:1075-1098 | in every run the lookup finds a list exactly if it was stored last, no address of the remote has lost its last handler since, and every listed address has a live handler |
| ClientTheorems.CacheHit | client.go:320-327 | and then an earlier fetch stored it, with an entry that has both IP and port |
| Histories.TablesAreTold | client.go:467-1007 | in every run, for each key: its session is the one created or dialed and not torn down; its table is what arrivals and dials put into the slots and exits did not take out, begun anew by a creation; tombstone and dial are what the events say |
| Histories.TasksAreTold | client.go:467-875 | in every run each goroutine stands where the events of its connection put it |
| Histories.QueueIsTold | client.go:495-500 | in every run the sessions handed out by Accept, followed by those still queued, are exactly, in order, those whose first message was read while fewer than 1024 were queued |
| Histories.DialedSessionStays | client.go:629-631 | the session a dial registers is the one in the table until it is torn down |
| Abandoned.AbandonedIff | client.go:467-503 | without expiry, a session in the table has no goroutine that awaits, joins or handles exactly if none of its goroutines ever got as far as handling and, where the listener made it, its first message could not be read |
| Abandoned.AbandonedStays | client.go:489-493 | such a session stays, whatever else happens, until a connection for it arrives or is started, or ncp closes it |
| Abandoned.FirstMessageFails | client.go:489-493 | the run: a connection arrives and its first message cannot be read |
| Hedge.Outcomes | client.go:265-309 | for any number of senders and any interleaving: a reply exactly if one was received, else a send error exactly if one occurred, else the caller's context error, and never nothing |
| Hedge.RunInv | client.go:270-297 | what the senders keep: stored results were seen, seen ones are stored or on their way, and the context is cancelled only with a reply stored |
| Hedge.SendersFinish | client.go:270-298 | at most five steps per sender are ever made |
| Hedge.BlockedIff | client.go:271-296 | no sender can move by itself exactly if each is done, or waits for its timer or a reply with the context open; with the context done all are done |
| Hedge.WaitEnds | client.go:271-298 | from every reachable state with the context done, the senders' own steps alone end the wait |
| Hedge.ReplyEndsWait | client.go:286-298 | from every run in which any sender has received a reply, the senders' own steps alone end the wait |
| Hedge.FirstOfferIsKept | client.go:280-292 | the reply and the error collected are the first ones offered |
| Hedge.ContextIsTold | client.go:267-293 | the context is done exactly if the caller's has ended or a sender with a reply has cancelled it |
| Hedge.ReplyNeedsSend | client.go:273-286 | a sender waits for a reply, or has one, only after its timer fired and its request was sent |
| Udp.UdpSession.HandleSessionID | udpsession.go:550-557 | a new session id binds its key and its address to each other and nothing else, a known one changes nothing; the indexes stay in agreement |
| Udp.UdpSession.HandleConnClosed | udpsession.go:459-470 | the key is unbound and no address leads to it; other keys stay bound, and an address loses its route exactly if the closed key was bound to it |
| Udp.UdpSession.Close | udpsession.go:398-415 | no key is bound, no address leads anywhere and no new reader gets in; the queue stays for the readers already inside |
| Udp.UdpSession.StartRead | udpsession.go:177-180 | a reader gets in exactly if the connection is open |
| Udp.UdpSession.RecvUser | udpsession.go:250-261 | the payload goes to the end of the queue exactly if the bytes outstanding leave room for it and a slot is free, and the bytes outstanding grow by it |
| Udp.UdpSession.Receive | udpsession.go:183-185 | a reader that is inside takes the oldest datagram, whose bytes stay outstanding |
| Udp.UdpSession.Release | udpsession.go:187-189 | the bytes of one unsettled datagram are given back; with nothing queued or unsettled the whole budget is free |
| Udp.UdpSession.GetUdpAddr | udpsession.go:479-505 | a reply fails exactly if the key is not bound, and goes to the one address that leads to the key if there is one |
| UdpRuns.IndexesAgree | udpsession.go:550-564 | in every run each address entry sends from that address and is on record under its own key |
| UdpRuns.CutOffIff | udpsession.go:459-557 | in every reachable state a step leaves a bound session without an address exactly if another session id arrives from its address or another key bound to that address is closed |
| UdpRuns.CutOffStays | udpsession.go:551-553 | and it stays so in every continuation until that key is closed |
| UdpRuns.SharedAddressIsCut | udpsession.go:459-557 | the run: two sessions bind one address, the first is closed, the second is cut off for good |
| UdpRuns.KeyTableIsBoundAfter | udpsession.go:459-564 | in every run the key table is what the accepted session ids and closes say |
| UdpRuns.ReplyRouting | udpsession.go:479-505 | a reply goes back to the datagram's source unless the session was closed since; then it fails, or goes to the address of the reopening |
| UdpRuns.NothingQueuedAfterClose | udpsession.go:240-261 | after a close and until a new session id is accepted no address leads to the key, and only a datagram already in flight is queued for it, as the next one, and only if there can be room for it |
| UdpRuns.QueuedAfterCloseIff | udpsession.go:243-261 | for every reachable close: some continuation without a new session id queues a datagram for the key if and only if one is in flight that fits once all takable datagrams are taken and settled; with the connection open, one smaller than the buffer |
| UdpRuns.Drain | udpsession.go:177-189 | readers can take and settle every takable datagram: all of them while the connection is open, else as many as there are readers inside |
| UdpRuns.TakenAfterClose | udpsession.go:177-189 | once the connection is closed no more datagrams are ever taken than there were readers inside |
| UdpRuns.InFlightIsQueuedAfterClose | udpsession.go:243-261 | the shortest run that queues one after the close |
| UdpRuns.BudgetIsExact | udpsession.go:183-261 | in every run the budget in use is the bytes queued plus those not settled, within its limits, and comes back whole |
| UdpRuns.FifoOfArrivals | udpsession.go:182-261 | datagrams read are a prefix of those queued, which are a subsequence of the eligible arrivals |
| UdpRuns.SkippedIffNoRoom | udpsession.go:252-260 | a datagram is skipped exactly when outstanding bytes or queued datagrams leave no room |
| UdpRuns.OverlapIff | udpsession.go:551-564 | an index can be read without the lock while another goroutine deletes from it exactly when the receive loop is between two packets and a session is bound |
| UdpRuns.OverlapReached | udpsession.go:459-551 | one bound session is enough: a session id arrives while its connection closes |
| UdpHistories.LoopIsTold | udpsession.go:233-564 | in every run what the receive loop is about to do is what its last packet asks for: queue the payload for the peer at its source, insert a session id that is not bound, or close the session at its source |
| UdpHistories.CloseIsCarriedOut | udpsession.go:459-564 | a CLOSE closes the session routed to its source when it arrived, whatever happens in between, and drops its TCP connection |
| UdpHistories.TcpConnsAreTold | udpsession.go:405-470 | in every run the TCP connection of a key is the one attached last, unless detached or dropped with its session since |
| UdpHistories.ReadersAreTold | udpsession.go:177-190 | in every run the connection is open until closed, and the readers inside are those let in that have neither taken a datagram nor left |
| UdpHistories.ShutdownComesLast | udpsession.go:401-406 | the tables are emptied only after the connection was closed |
| UdpHistories.BufferIsTold | udpsession.go:182-261 | in every run what readers were given, followed by what is in the buffer, is exactly, in order, the payloads there was room for, a subsequence of those from a peer's address |
| Framing.FrameRoundTripIff | message.go:104-154 | one frame comes back as sent exactly when the message is within the reader's limit |
| Framing.ReadFrameErrors | message.go:136-151 | otherwise it is a clean end before header or body, an end inside one of them, or a size over the limit, each exactly when |
| Framing.WireRoundTrip | message.go:104-154 | any list of messages within the limits is read back in order, leaving what follows |
| Framing.CutWireYieldsPrefix | message.go:132-154 | a stream cut anywhere yields a prefix of the list |
| Framing.SealedDelivery | client.go:507-549 | sealed, framed, read and opened, every message comes out as it went in |
| Framing.DecodeIff | client.go:526-549 | a buffer opens to a message exactly if it is a 24-byte nonce followed by that message sealed with it |
| Framing.DecodeOutcomes | client.go:526-549 | up to 24 bytes are too short, 25 to 39 make the length negative, and 40 or more fail exactly if not sealed with the key |
| Framing.Conn.ReadFull | message.go:136-151 | the pieces in which a stream arrives do not matter |
| Framing.Conn.ReadMessage | message.go:132-154 | reading a message from pieces is reading it from the whole stream |
| Framing.Conn.ReadAll | message.go:132-154 | so is reading any number of messages until one fails |
| Writers.WritersKeepFraming | message.go:104-130 | writers that hold the lock across header and body keep whole frames in lock order up to the first failed write, which cuts the stream inside its frame |
| Writers.DeliveredInLockOrder | message.go:104-154 | whatever the interleaving, however much has arrived and even after a failed write, the reader gets a prefix of the messages in lock order as long as no writer locks after a failure; all of them if none fails |
| Writers.DeliveredBeforeFailure | message.go:104-154 | the messages before the first failure are delivered whatever is written after it |
| Writers.Receive | message.go:104-154 | interleaved writers, a stream in any pieces and cut anywhere, and a reading loop compose to a prefix in lock order, and to all messages in the end |
| CutFrames.LockOrderKeptIff | message.go:104-154 | for every limit of the reader: in all continuations without a further failure it gets a prefix of the messages written, in lock order, if and only if no write has failed, or nothing of the failed frame was sent, or p of its header bytes, all zero, and the limit is below 256^p and 256^(4-p) |
| CutFrames.SealedOrderKeptIff | client.go:762-790 | the same for messages of at least 40 bytes and a limit of MTU + 1024: if and only if no write has failed, or it sent nothing, one byte with every size read too large, or two bytes and the limit is below 65536 |
| CutFrames.FailureCuts | message.go:110-125 | a write that fails after n bytes leaves those bytes of its frame, behind the header if that was written |
| CutFrames.Resume | message.go:104-130 | behind what is on the wire, writers do what they would do on a new connection |
| CutFrames.CutMessageIsMisread | message.go:115-125 | the run: a write fails between header and body, and the reader takes the next two frames for the missing body |
| Serving.HandshakeCrashIff | client.go:420-446 | over all streams: the handshake asks for a negative buffer length exactly if the stream starts with two whole frames, an accepted address with a key and a sealed part of 25 to 39 bytes |
| Serving.ShortSealCrashes | message.go:94-95 | such a stream, from every accepted address |
| Serving.SessionCrashIff | client.go:786-803 | at either end, over all streams: a session does exactly if whole frames that open, and after which the connection is served on, are followed by a whole frame of 25 to 39 bytes |
| Serving.ListenerCrashIff | client.go:420-503 | over all streams, from the first byte on: a listener does exactly if its handshake does, or its handshake succeeds and its session does |
| Serving.ShortMessageCrashes | client.go:792-792 | such a message, as the next one at any point of a session that is served on |
| Serving.HeardIff | client.go:786-803 | over all streams: what a session hears is, in order, exactly what was sealed into the first frames, up to the first thing that is no whole frame sealed with the key or until the connection is given up |
| Serving.ForgedFrameEnds | client.go:792-795 | a frame not sealed with the key ends the connection unheard |
| Serving.ListenerHearsIff | client.go:420-446 | a listener takes up a session exactly if the stream starts with an accepted address and metadata sealed with its key |
| Relay.WeightOrder | node.go:26-32 | weights are positive, and a node weighs less exactly if its bandwidth times the other's delay is less than the other way round, each plus one |
| Relay.WeightIsFourthPower | node.go:30-32 | the weight is the fourth power of bandwidth over delay, each plus one |
| Relay.SharesPartition | node.go:39-46 | the shares of the nodes partition the range of draws |
| Relay.Search | node.go:46-46 | the binary search returns the first index whose cumulative weight exceeds the draw |
| Relay.WeightedChoice | node.go:34-47 | the choice is the node whose share holds the draw; index 0 if all weights are zero; -1 for no nodes |
| Relay.BringToFront | node.go:52-54 | neighbour swaps move the chosen node to the front and keep the order of the others |
| Relay.SortMeasuredNodes | node.go:49-55 | the result is a permutation, the drawn node first, the others in descending weight |
| Reconnect.TcpRound | client.go:647-662 | a round follows the documented retry rule exactly unless it is ended by an attempt without address |
| Reconnect.NoAddressEndsUnlimitedRetries | client.go:1038-1044 | one such attempt ends unlimited retries |
| Reconnect.UdpRound | udp.go:87-104 | a round follows the documented retry rule exactly if retries are limited or no attempt connects |
| Reconnect.UnlimitedRetriesEndAtOnce | udp.go:102-104 | unlimited retries, and one successful attempt ends the monitoring |

## Left out

- ncp sessions: only whether one is closed is kept, and it may close at any time.
- Tuna exits, the NKN multi-client, wallet and payments, and the JSON and protobuf encodings: other libraries.
- NaCl box and key conversion: an abstract pair of inverse functions.
- Sockets, deadlines, keep-alive and sleeps: a timer or a deadline is an action that may happen at any time.
- Relay.WeightedChoice: over the reals, so a product that floating point rounds up to the total is not covered.
- Relay.SortMeasuredNodes: the library sort is replaced by an insertion sort on a sequence that is then written back; only the sorted permutation is used.
- Contents of connection table slots after a reconnect under the same index: an exit removes the slot by index, whoever holds it.
- The dialer side of a UDP session: a single peer, no index; its receive buffer is the listener's.
- The watch on a UDP session's TCP connection: only that a CLOSE for the key arrived, or that the connection went away.
- Closing the client: for the tables it is the closing of its sessions, which may happen at any time.
- Listening addresses by regular expression, configuration merging, logging, free ports, `CloseOneConn` and the list of public addresses: no state or protocol of their own.
