/** What the program makes of the frames on a connection (client.go): the listener's handshake and
    then, at both ends, the messages of a session, each opened as it is read. Told from the bytes
    that a peer sends. */
module Serving {
  import opened Keys
  import opened Options
  import opened Framing

  const MAX_ADDR_SIZE := 512
  const MAX_SESSION_METADATA_SIZE := 1024
  const MAX_SESSION_MSG_OVERHEAD := 1024

  /** More than a nonce, less than a nonce and the overhead of a seal: 25 to 39 bytes. */
  predicate ShortSeal(buf: seq<byte>) {
    NONCE_SIZE < |buf| < NONCE_SIZE + OVERHEAD
  }

  // ---- the listener's handshake ----

  datatype Handshake = Dropped | Metadata(result: Decoded, addr: seq<byte>, rest: seq<byte>)

  /** A dialer sends its address and sealed metadata. `allowed` is the listener's choice of
      addresses; `peers` gives the cipher shared with an address that names a public key. */
  function Accept(allowed: seq<byte> -> bool, peers: seq<byte> -> Option<Cipher>, stream: seq<byte>): Handshake {
    match ReadFrame(stream, MAX_ADDR_SIZE)
    case Err(_) => Dropped
    case Ok(addr, rest) =>
      if !allowed(addr) then Dropped
      else
        match ReadFrame(rest, MAX_SESSION_METADATA_SIZE)
        case Err(_) => Dropped
        case Ok(buf, after) =>
          if |buf| <= NONCE_SIZE then Metadata(TooShort, addr, after)
          else if peers(addr).None? then Dropped
          else Metadata(Decode(peers(addr).value, buf), addr, after)
  }

  /** The stream starts with two whole frames: an address that the listener allows and has a key
      for, and a sealed part. */
  ghost predicate Presents(allowed: seq<byte> -> bool, peers: seq<byte> -> Option<Cipher>,
                           stream: seq<byte>, addr: seq<byte>, sealed: seq<byte>, rest: seq<byte>) {
    && stream == Frame(addr) + (Frame(sealed) + rest)
    && |addr| <= MAX_ADDR_SIZE && allowed(addr) && peers(addr).Some?
    && |sealed| <= MAX_SESSION_METADATA_SIZE
  }

  /** What the handshake yields, for a sealed part longer than a nonce. */
  lemma AcceptIff(allowed: seq<byte> -> bool, peers: seq<byte> -> Option<Cipher>, stream: seq<byte>,
                  result: Decoded, addr: seq<byte>, rest: seq<byte>)
    requires result != TooShort
    ensures Accept(allowed, peers, stream) == Metadata(result, addr, rest) <==>
      exists sealed ::
        Presents(allowed, peers, stream, addr, sealed, rest) && Decode(peers(addr).value, sealed) == result
  {
    if Accept(allowed, peers, stream) == Metadata(result, addr, rest) {
      var first := ReadFrame(stream, MAX_ADDR_SIZE);
      var second := ReadFrame(first.rest, MAX_SESSION_METADATA_SIZE);
      ReadFrameIff(stream, MAX_ADDR_SIZE, first.value, first.rest);
      ReadFrameIff(first.rest, MAX_SESSION_METADATA_SIZE, second.value, second.rest);
      assert Presents(allowed, peers, stream, addr, second.value, rest);
    }
    forall sealed | Presents(allowed, peers, stream, addr, sealed, rest) && Decode(peers(addr).value, sealed) == result
      ensures Accept(allowed, peers, stream) == Metadata(result, addr, rest)
    {
      ReadFrameIff(stream, MAX_ADDR_SIZE, addr, Frame(sealed) + rest);
      ReadFrameIff(Frame(sealed) + rest, MAX_SESSION_METADATA_SIZE, sealed, rest);
    }
  }

  ghost predicate HandshakeCrashes(allowed: seq<byte> -> bool, peers: seq<byte> -> Option<Cipher>, stream: seq<byte>) {
    var h := Accept(allowed, peers, stream);
    h.Metadata? && h.result == NegativeLength
  }

  /** The handshake asks for a buffer of negative length exactly if such a stream's sealed part
      has 25 to 39 bytes. */
  lemma HandshakeCrashIff(allowed: seq<byte> -> bool, peers: seq<byte> -> Option<Cipher>, stream: seq<byte>)
    ensures HandshakeCrashes(allowed, peers, stream) <==>
      exists addr, sealed, rest :: Presents(allowed, peers, stream, addr, sealed, rest) && ShortSeal(sealed)
  {
    var h := Accept(allowed, peers, stream);
    if HandshakeCrashes(allowed, peers, stream) {
      AcceptIff(allowed, peers, stream, NegativeLength, h.addr, h.rest);
    }
    forall addr, sealed, rest | Presents(allowed, peers, stream, addr, sealed, rest) && ShortSeal(sealed)
      ensures HandshakeCrashes(allowed, peers, stream)
    {
      AcceptIff(allowed, peers, stream, NegativeLength, addr, rest);
    }
  }

  /** Such a stream, from any address that is allowed and has a key. */
  lemma ShortSealCrashes(allowed: seq<byte> -> bool, peers: seq<byte> -> Option<Cipher>, addr: seq<byte>)
    requires |addr| <= MAX_ADDR_SIZE && allowed(addr) && peers(addr).Some?
    ensures HandshakeCrashes(allowed, peers, Frame(addr) + Frame(seq(25, _ => 0)))
  {
    var sealed: seq<byte> := seq(25, _ => 0);
    assert Frame(addr) + Frame(sealed) == Frame(addr) + (Frame(sealed) + []);
    assert Presents(allowed, peers, Frame(addr) + Frame(sealed), addr, sealed, []);
    HandshakeCrashIff(allowed, peers, Frame(addr) + Frame(sealed));
  }

  // ---- the messages of a session ----

  /** Whether the connection is served on after what was heard on it: the metadata is well-formed,
      the key is not refused, the session takes the message. */
  type Patience = seq<seq<byte>> -> bool

  /** How the connection ends, and what was heard on it. */
  datatype End = Ended(heard: seq<seq<byte>>) | Crashed(heard: seq<seq<byte>>)

  /** Messages are read and opened until one cannot be, or the connection is given up. */
  function Serve(c: Cipher, goesOn: Patience, limit: nat, heard: seq<seq<byte>>, stream: seq<byte>): End
    decreases |stream|
  {
    if !goesOn(heard) then Ended(heard)
    else
      match ReadFrame(stream, limit)
      case Err(_) => Ended(heard)
      case Ok(buf, rest) =>
        match Decode(c, buf)
        case NegativeLength => Crashed(heard)
        case Plain(msg) => Serve(c, goesOn, limit, heard + [msg], rest)
        case _ => Ended(heard)
  }

  function Opening(c: Cipher, buf: seq<byte>): seq<byte> {
    var d := Decode(c, buf);
    if d.Plain? then d.msg else []
  }

  function Openings(c: Cipher, bufs: seq<seq<byte>>): (r: seq<seq<byte>>)
    ensures |r| == |bufs|
  {
    seq(|bufs|, i requires 0 <= i < |bufs| => Opening(c, bufs[i]))
  }

  /** Messages that all open, each within the limit, with the connection served on after each. */
  ghost predicate Served(c: Cipher, goesOn: Patience, limit: nat, heard: seq<seq<byte>>, bufs: seq<seq<byte>>) {
    && (forall i :: 0 <= i < |bufs| ==> |bufs[i]| <= limit && Decode(c, bufs[i]).Plain?)
    && (forall i :: 0 <= i <= |bufs| ==> goesOn(heard + Openings(c, bufs)[..i]))
  }

  /** After such messages comes a whole frame with a short seal. */
  ghost predicate ReachesShortSeal(c: Cipher, goesOn: Patience, limit: nat, heard: seq<seq<byte>>, stream: seq<byte>,
                                   bufs: seq<seq<byte>>, short: seq<byte>, rest: seq<byte>) {
    && Served(c, goesOn, limit, heard, bufs)
    && stream == Wire(bufs) + (Frame(short) + rest)
    && ShortSeal(short) && |short| <= limit
  }

  lemma OpeningsCons(c: Cipher, heard: seq<seq<byte>>, buf: seq<byte>, bufs: seq<seq<byte>>, i: nat)
    requires i <= |bufs|
    ensures heard + Openings(c, [buf] + bufs)[..i + 1] == (heard + [Opening(c, buf)]) + Openings(c, bufs)[..i]
  {
    assert Openings(c, [buf] + bufs) == [Opening(c, buf)] + Openings(c, bufs);
  }

  /** Served messages can be told from the first on. */
  lemma ServedCons(c: Cipher, goesOn: Patience, limit: nat, heard: seq<seq<byte>>, buf: seq<byte>, bufs: seq<seq<byte>>)
    ensures Served(c, goesOn, limit, heard, [buf] + bufs) <==>
      && |buf| <= limit && Decode(c, buf).Plain? && goesOn(heard)
      && Served(c, goesOn, limit, heard + [Opening(c, buf)], bufs)
  {
    var all := [buf] + bufs;
    assert heard + Openings(c, all)[..0] == heard;
    forall i | 0 <= i <= |bufs|
      ensures goesOn(heard + Openings(c, all)[..i + 1]) <==>
        goesOn((heard + [Opening(c, buf)]) + Openings(c, bufs)[..i])
    {
      OpeningsCons(c, heard, buf, bufs, i);
    }
    assert all[0] == buf && forall i :: 0 <= i < |bufs| ==> all[i + 1] == bufs[i];
    if Served(c, goesOn, limit, heard + [Opening(c, buf)], bufs) && goesOn(heard) {
      forall i | 0 <= i <= |all|
        ensures goesOn(heard + Openings(c, all)[..i])
      {
        if i > 0 {
          OpeningsCons(c, heard, buf, bufs, i - 1);
        }
      }
    }
  }

  lemma {:induction false} CrashIsReached(c: Cipher, goesOn: Patience, limit: nat, heard: seq<seq<byte>>,
                                          stream: seq<byte>)
    returns (bufs: seq<seq<byte>>, short: seq<byte>, rest: seq<byte>)
    requires limit < UINT32 && Serve(c, goesOn, limit, heard, stream).Crashed?
    ensures ReachesShortSeal(c, goesOn, limit, heard, stream, bufs, short, rest)
    decreases |stream|
  {
    var first := ReadFrame(stream, limit);
    ReadFrameIff(stream, limit, first.value, first.rest);
    if Decode(c, first.value) == NegativeLength {
      bufs, short, rest := [], first.value, first.rest;
      assert heard + Openings(c, bufs)[..0] == heard;
      assert Wire(bufs) + stream == stream;
    } else {
      bufs, short, rest := CrashIsReached(c, goesOn, limit, heard + [Opening(c, first.value)], first.rest);
      ServedCons(c, goesOn, limit, heard, first.value, bufs);
      bufs := [first.value] + bufs;
      WireCons(bufs, Frame(short) + rest);
    }
  }

  lemma {:induction false} ReachedCrashes(c: Cipher, goesOn: Patience, limit: nat, heard: seq<seq<byte>>,
                                          bufs: seq<seq<byte>>, short: seq<byte>, rest: seq<byte>)
    requires limit < UINT32 && Served(c, goesOn, limit, heard, bufs) && ShortSeal(short) && |short| <= limit
    ensures Serve(c, goesOn, limit, heard, Wire(bufs) + (Frame(short) + rest)).Crashed?
    decreases |bufs|
  {
    var stream := Wire(bufs) + (Frame(short) + rest);
    if bufs == [] {
      assert stream == Frame(short) + rest;
      FrameRead(short, limit, rest);
      assert heard + Openings(c, bufs)[..0] == heard;
    } else {
      assert bufs == [bufs[0]] + bufs[1..];
      ServedCons(c, goesOn, limit, heard, bufs[0], bufs[1..]);
      ReachedCrashes(c, goesOn, limit, heard + [Opening(c, bufs[0])], bufs[1..], short, rest);
      WireCons(bufs, Frame(short) + rest);
      FrameRead(bufs[0], limit, Wire(bufs[1..]) + (Frame(short) + rest));
    }
  }

  /** At either end, a session's connection asks for a buffer of negative length exactly if whole
      frames that open, and after which it is served on, are followed by a whole frame of 25 to
      39 bytes. */
  lemma SessionCrashIff(c: Cipher, goesOn: Patience, limit: nat, heard: seq<seq<byte>>, stream: seq<byte>)
    requires limit < UINT32
    ensures Serve(c, goesOn, limit, heard, stream).Crashed? <==>
      exists bufs, short, rest :: ReachesShortSeal(c, goesOn, limit, heard, stream, bufs, short, rest)
  {
    if Serve(c, goesOn, limit, heard, stream).Crashed? {
      var bufs, short, rest := CrashIsReached(c, goesOn, limit, heard, stream);
    }
    forall bufs, short, rest | ReachesShortSeal(c, goesOn, limit, heard, stream, bufs, short, rest)
      ensures Serve(c, goesOn, limit, heard, stream).Crashed?
    {
      ReachedCrashes(c, goesOn, limit, heard, bufs, short, rest);
    }
  }

  // ---- a listener's connection from its first byte on ----

  function Listen(allowed: seq<byte> -> bool, peers: seq<byte> -> Option<Cipher>, goesOn: Patience, limit: nat,
                  stream: seq<byte>): End {
    match Accept(allowed, peers, stream)
    case Dropped => Ended([])
    case Metadata(result, addr, rest) =>
      match result
      case NegativeLength => Crashed([])
      case Plain(metadata) => Serve(peers(addr).value, goesOn, limit, [metadata], rest)
      case _ => Ended([])
  }

  /** A handshake that succeeds, and then the messages of a session up to a short seal. */
  ghost predicate CrashesLater(allowed: seq<byte> -> bool, peers: seq<byte> -> Option<Cipher>, goesOn: Patience,
                               limit: nat, stream: seq<byte>, addr: seq<byte>, sealed: seq<byte>, rest: seq<byte>) {
    && Presents(allowed, peers, stream, addr, sealed, rest)
    && var c := peers(addr).value;
      && Decode(c, sealed).Plain?
      && exists bufs, short, after ::
           ReachesShortSeal(c, goesOn, limit, [Opening(c, sealed)], rest, bufs, short, after)
  }

  lemma LaterCrash(allowed: seq<byte> -> bool, peers: seq<byte> -> Option<Cipher>, goesOn: Patience, limit: nat,
                   stream: seq<byte>, addr: seq<byte>, sealed: seq<byte>, rest: seq<byte>)
    requires limit < UINT32 && Presents(allowed, peers, stream, addr, sealed, rest)
    requires Decode(peers(addr).value, sealed).Plain?
    ensures Listen(allowed, peers, goesOn, limit, stream).Crashed? <==>
      CrashesLater(allowed, peers, goesOn, limit, stream, addr, sealed, rest)
  {
    var c := peers(addr).value;
    AcceptIff(allowed, peers, stream, Decode(c, sealed), addr, rest);
    SessionCrashIff(c, goesOn, limit, [Opening(c, sealed)], rest);
  }

  /** Over all streams: a listener crashes exactly in its handshake or at a later message like that. */
  lemma ListenerCrashIff(allowed: seq<byte> -> bool, peers: seq<byte> -> Option<Cipher>, goesOn: Patience, limit: nat,
                         stream: seq<byte>)
    requires limit < UINT32
    ensures Listen(allowed, peers, goesOn, limit, stream).Crashed? <==>
      || (exists addr, sealed, rest :: Presents(allowed, peers, stream, addr, sealed, rest) && ShortSeal(sealed))
      || (exists addr, sealed, rest :: CrashesLater(allowed, peers, goesOn, limit, stream, addr, sealed, rest))
  {
    HandshakeCrashIff(allowed, peers, stream);
    if Listen(allowed, peers, goesOn, limit, stream).Crashed? && !HandshakeCrashes(allowed, peers, stream) {
      var h := Accept(allowed, peers, stream);
      AcceptIff(allowed, peers, stream, h.result, h.addr, h.rest);
      var sealed :| Presents(allowed, peers, stream, h.addr, sealed, h.rest)
                    && Decode(peers(h.addr).value, sealed) == h.result;
      LaterCrash(allowed, peers, goesOn, limit, stream, h.addr, sealed, h.rest);
    }
    forall addr, sealed, rest | CrashesLater(allowed, peers, goesOn, limit, stream, addr, sealed, rest)
      ensures Listen(allowed, peers, goesOn, limit, stream).Crashed?
    {
      LaterCrash(allowed, peers, goesOn, limit, stream, addr, sealed, rest);
    }
  }

  /** Such a message, first after any handshake that succeeds, or first from a listener that was dialed. */
  lemma ShortMessageCrashes(c: Cipher, goesOn: Patience, limit: nat, heard: seq<seq<byte>>, rest: seq<byte>)
    requires goesOn(heard) && 25 <= limit < UINT32
    ensures Serve(c, goesOn, limit, heard, Frame(seq(25, _ => 0)) + rest).Crashed?
  {
    var short: seq<byte> := seq(25, _ => 0);
    assert heard + Openings(c, [])[..0] == heard;
    ReachedCrashes(c, goesOn, limit, heard, [], short, rest);
    assert Wire([]) + (Frame(short) + rest) == Frame(short) + rest;
  }

  // ---- what is heard ----

  /** The connection is given up here, or no whole frame within the limit that was sealed with the
      key comes next. */
  ghost predicate Stops(c: Cipher, goesOn: Patience, limit: nat, heard: seq<seq<byte>>, stream: seq<byte>) {
    goesOn(heard) ==>
      forall buf, rest :: stream == Frame(buf) + rest && |buf| <= limit ==> !Sealed(c, buf)
  }

  /** The stream is these messages, sealed with these nonces, each within the limit and with the
      connection served on before it, and then comes something at which it stops. */
  ghost predicate HeardAs(c: Cipher, goesOn: Patience, limit: nat, heard: seq<seq<byte>>, stream: seq<byte>,
                          msgs: seq<seq<byte>>, nonces: seq<seq<byte>>, rest: seq<byte>) {
    && |msgs| == |nonces|
    && (forall i :: 0 <= i < |msgs| ==> |nonces[i]| == NONCE_SIZE && |msgs[i]| + NONCE_SIZE + OVERHEAD <= limit)
    && (forall i :: 0 <= i < |msgs| ==> goesOn(heard + msgs[..i]))
    && stream == Wire(EncodeAll(c, msgs, nonces)) + rest
    && Stops(c, goesOn, limit, heard + msgs, rest)
  }

  lemma HeardCons(c: Cipher, goesOn: Patience, limit: nat, heard: seq<seq<byte>>, stream: seq<byte>, msg: seq<byte>,
                  nonce: seq<byte>, msgs: seq<seq<byte>>, nonces: seq<seq<byte>>, rest: seq<byte>)
    requires goesOn(heard) && |nonce| == NONCE_SIZE && |msg| + NONCE_SIZE + OVERHEAD <= limit
    requires HeardAs(c, goesOn, limit, heard + [msg], stream, msgs, nonces, rest)
    ensures HeardAs(c, goesOn, limit, heard, Frame(Encode(c, msg, nonce)) + stream,
                    [msg] + msgs, [nonce] + nonces, rest)
  {
    var all := [msg] + msgs;
    var bufs := EncodeAll(c, all, [nonce] + nonces);
    assert bufs == [Encode(c, msg, nonce)] + EncodeAll(c, msgs, nonces);
    WireCons(bufs, rest);
    forall i | 0 <= i < |all|
      ensures goesOn(heard + all[..i])
    {
      if i == 0 {
        assert heard + all[..0] == heard;
      } else {
        assert heard + all[..i] == heard + [msg] + msgs[..i - 1];
      }
    }
    assert heard + all == heard + [msg] + msgs;
  }

  lemma NoFrameStops(c: Cipher, goesOn: Patience, limit: nat, heard: seq<seq<byte>>, stream: seq<byte>)
    requires limit < UINT32 && c.Exact()
    requires var first := ReadFrame(stream, limit); first.Ok? ==> !Decode(c, first.value).Plain?
    ensures Stops(c, goesOn, limit, heard, stream)
  {
    forall buf, rest | stream == Frame(buf) + rest && |buf| <= limit
      ensures !Sealed(c, buf)
    {
      ReadFrameIff(stream, limit, buf, rest);
      SealedIff(c, buf);
    }
  }

  /** The next frame is there and opens. */
  predicate Hears(c: Cipher, goesOn: Patience, limit: nat, heard: seq<seq<byte>>, stream: seq<byte>) {
    goesOn(heard) && var first := ReadFrame(stream, limit); first.Ok? && Decode(c, first.value).Plain?
  }

  lemma HeardFirst(c: Cipher, limit: nat, stream: seq<byte>) returns (msg: seq<byte>, nonce: seq<byte>, rest: seq<byte>)
    requires limit < UINT32 && c.Exact() && ReadFrame(stream, limit).Ok?
    requires Decode(c, ReadFrame(stream, limit).value).Plain?
    ensures Decode(c, ReadFrame(stream, limit).value) == Plain(msg) && rest == ReadFrame(stream, limit).rest
    ensures stream == Frame(Encode(c, msg, nonce)) + rest && |rest| < |stream|
    ensures |nonce| == NONCE_SIZE && |msg| + NONCE_SIZE + OVERHEAD <= limit
  {
    var first := ReadFrame(stream, limit);
    msg, rest := Decode(c, first.value).msg, first.rest;
    DecodeIff(c, first.value, msg);
    nonce :| SealOf(c, first.value, msg, nonce);
    ReadFrameIff(stream, limit, first.value, rest);
  }

  lemma HeardNothing(c: Cipher, goesOn: Patience, limit: nat, heard: seq<seq<byte>>, stream: seq<byte>)
    requires limit < UINT32 && c.Exact() && !Hears(c, goesOn, limit, heard, stream)
    ensures HeardAs(c, goesOn, limit, heard, stream, [], [], stream)
    ensures Serve(c, goesOn, limit, heard, stream).heard == heard + []
  {
    assert heard + [] == heard && Wire(EncodeAll(c, [], [])) + stream == stream;
    if goesOn(heard) {
      NoFrameStops(c, goesOn, limit, heard, stream);
    }
  }

  lemma Regrouped(heard: seq<seq<byte>>, msg: seq<byte>, msgs: seq<seq<byte>>)
    ensures heard + [msg] + msgs == heard + ([msg] + msgs)
  {}

  lemma {:induction false} WhatIsHeard(c: Cipher, goesOn: Patience, limit: nat, heard: seq<seq<byte>>,
                                       stream: seq<byte>)
    returns (msgs: seq<seq<byte>>, nonces: seq<seq<byte>>, rest: seq<byte>)
    requires limit < UINT32 && c.Exact()
    ensures HeardAs(c, goesOn, limit, heard, stream, msgs, nonces, rest)
    ensures Serve(c, goesOn, limit, heard, stream).heard == heard + msgs
    decreases |stream|
  {
    if Hears(c, goesOn, limit, heard, stream) {
      var msg, nonce, after := HeardFirst(c, limit, stream);
      msgs, nonces, rest := WhatIsHeard(c, goesOn, limit, heard + [msg], after);
      HeardCons(c, goesOn, limit, heard, after, msg, nonce, msgs, nonces, rest);
      FirstIsServed(c, goesOn, limit, heard, stream, msg, nonce, after);
      Regrouped(heard, msg, msgs);
      msgs, nonces := [msg] + msgs, [nonce] + nonces;
    } else {
      msgs, nonces, rest := [], [], stream;
      HeardNothing(c, goesOn, limit, heard, stream);
    }
  }

  lemma StopsHere(c: Cipher, goesOn: Patience, limit: nat, heard: seq<seq<byte>>, stream: seq<byte>)
    requires limit < UINT32 && c.Exact() && Stops(c, goesOn, limit, heard, stream)
    ensures Serve(c, goesOn, limit, heard, stream).heard == heard
  {
    var first := ReadFrame(stream, limit);
    if first.Ok? {
      ReadFrameIff(stream, limit, first.value, first.rest);
      SealedIff(c, first.value);
    }
  }

  lemma {:induction false} HeardIsServed(c: Cipher, goesOn: Patience, limit: nat, heard: seq<seq<byte>>,
                                         stream: seq<byte>, msgs: seq<seq<byte>>, nonces: seq<seq<byte>>,
                                         rest: seq<byte>)
    requires limit < UINT32 && c.Exact() && HeardAs(c, goesOn, limit, heard, stream, msgs, nonces, rest)
    ensures Serve(c, goesOn, limit, heard, stream).heard == heard + msgs
    decreases |msgs|
  {
    if msgs == [] {
      NothingIsServed(c, goesOn, limit, heard, stream, msgs, nonces, rest);
    } else {
      var after := HeardUncons(c, goesOn, limit, heard, stream, msgs, nonces, rest);
      HeardIsServed(c, goesOn, limit, heard + [msgs[0]], after, msgs[1..], nonces[1..], rest);
      Regrouped(heard, msgs[0], msgs[1..]);
      assert [msgs[0]] + msgs[1..] == msgs;
    }
  }

  lemma NothingIsServed(c: Cipher, goesOn: Patience, limit: nat, heard: seq<seq<byte>>, stream: seq<byte>,
                        msgs: seq<seq<byte>>, nonces: seq<seq<byte>>, rest: seq<byte>)
    requires limit < UINT32 && c.Exact() && HeardAs(c, goesOn, limit, heard, stream, msgs, nonces, rest) && msgs == []
    ensures Serve(c, goesOn, limit, heard, stream).heard == heard + msgs
  {
    assert heard + msgs == heard && Wire(EncodeAll(c, msgs, nonces)) + rest == rest;
    StopsHere(c, goesOn, limit, heard, stream);
  }

  lemma WireUncons(c: Cipher, stream: seq<byte>, msgs: seq<seq<byte>>, nonces: seq<seq<byte>>, rest: seq<byte>)
    returns (after: seq<byte>)
    requires |msgs| == |nonces| && msgs != [] && stream == Wire(EncodeAll(c, msgs, nonces)) + rest
    ensures stream == Frame(Encode(c, msgs[0], nonces[0])) + after
    ensures after == Wire(EncodeAll(c, msgs[1..], nonces[1..])) + rest
  {
    var bufs := EncodeAll(c, msgs, nonces);
    assert bufs[1..] == EncodeAll(c, msgs[1..], nonces[1..]);
    after := Wire(bufs[1..]) + rest;
    WireCons(bufs, rest);
  }

  lemma Prefixes(heard: seq<seq<byte>>, msgs: seq<seq<byte>>, i: nat)
    requires i < |msgs|
    ensures heard + [msgs[0]] + msgs[1..][..i] == heard + msgs[..i + 1]
  {}

  lemma HeardUncons(c: Cipher, goesOn: Patience, limit: nat, heard: seq<seq<byte>>, stream: seq<byte>,
                    msgs: seq<seq<byte>>, nonces: seq<seq<byte>>, rest: seq<byte>)
    returns (after: seq<byte>)
    requires limit < UINT32 && c.Exact() && HeardAs(c, goesOn, limit, heard, stream, msgs, nonces, rest) && msgs != []
    ensures HeardAs(c, goesOn, limit, heard + [msgs[0]], after, msgs[1..], nonces[1..], rest)
    ensures Serve(c, goesOn, limit, heard, stream) == Serve(c, goesOn, limit, heard + [msgs[0]], after)
  {
    after := WireUncons(c, stream, msgs, nonces, rest);
    assert heard + msgs[..0] == heard;
    FirstIsServed(c, goesOn, limit, heard, stream, msgs[0], nonces[0], after);
    forall i | 0 <= i < |msgs| - 1
      ensures goesOn(heard + [msgs[0]] + msgs[1..][..i])
    {
      Prefixes(heard, msgs, i);
    }
    Prefixes(heard, msgs, |msgs| - 1);
    assert msgs[1..][..|msgs| - 1] == msgs[1..] && msgs[..|msgs|] == msgs;
  }

  lemma FirstIsServed(c: Cipher, goesOn: Patience, limit: nat, heard: seq<seq<byte>>, stream: seq<byte>,
                      msg: seq<byte>, nonce: seq<byte>, after: seq<byte>)
    requires limit < UINT32 && c.Exact() && goesOn(heard) && |nonce| == NONCE_SIZE
    requires |msg| + NONCE_SIZE + OVERHEAD <= limit && stream == Frame(Encode(c, msg, nonce)) + after
    ensures Serve(c, goesOn, limit, heard, stream) == Serve(c, goesOn, limit, heard + [msg], after)
  {
    var buf := Encode(c, msg, nonce);
    assert SealOf(c, buf, msg, nonce);
    DecodeIff(c, buf, msg);
    FrameRead(buf, limit, after);
  }

  /** With a cipher that opens exactly what was sealed: what a session hears on a connection is,
      message by message and in order, what was sealed into its first frames, up to the first
      thing that is no whole frame sealed with the key or until the connection is given up. */
  lemma HeardIff(c: Cipher, goesOn: Patience, limit: nat, heard: seq<seq<byte>>, stream: seq<byte>,
                 msgs: seq<seq<byte>>)
    requires limit < UINT32 && c.Exact()
    ensures Serve(c, goesOn, limit, heard, stream).heard == heard + msgs <==>
      exists nonces, rest :: HeardAs(c, goesOn, limit, heard, stream, msgs, nonces, rest)
  {
    var found, nonces, rest := WhatIsHeard(c, goesOn, limit, heard, stream);
    if Serve(c, goesOn, limit, heard, stream).heard == heard + msgs {
      assert msgs == (heard + msgs)[|heard|..] == (heard + found)[|heard|..] == found;
    }
    forall nonces, rest | HeardAs(c, goesOn, limit, heard, stream, msgs, nonces, rest)
      ensures Serve(c, goesOn, limit, heard, stream).heard == heard + msgs
    {
      HeardIsServed(c, goesOn, limit, heard, stream, msgs, nonces, rest);
    }
  }

  /** A forged frame, or any other that was not sealed with the key, ends the connection unheard. */
  lemma ForgedFrameEnds(c: Cipher, goesOn: Patience, limit: nat, heard: seq<seq<byte>>, buf: seq<byte>, rest: seq<byte>)
    requires |buf| <= limit < UINT32 && c.Exact() && !Sealed(c, buf)
    ensures Serve(c, goesOn, limit, heard, Frame(buf) + rest).heard == heard
  {
    FrameRead(buf, limit, rest);
    SealedIff(c, buf);
  }

  /** A listener takes up a session with metadata that an accepted dialer has sealed, and then hears
      what `HeardIff` says. */
  lemma ListenerServes(allowed: seq<byte> -> bool, peers: seq<byte> -> Option<Cipher>, goesOn: Patience, limit: nat,
                       stream: seq<byte>, addr: seq<byte>, sealed: seq<byte>, rest: seq<byte>,
                       metadata: seq<byte>, nonce: seq<byte>)
    requires Presents(allowed, peers, stream, addr, sealed, rest) && peers(addr).value.Exact()
    requires SealOf(peers(addr).value, sealed, metadata, nonce)
    ensures Listen(allowed, peers, goesOn, limit, stream) == Serve(peers(addr).value, goesOn, limit, [metadata], rest)
  {
    DecodeIff(peers(addr).value, sealed, metadata);
    AcceptIff(allowed, peers, stream, Plain(metadata), addr, rest);
  }

  /** And with nothing else. */
  lemma ListenerHearsIff(allowed: seq<byte> -> bool, peers: seq<byte> -> Option<Cipher>, goesOn: Patience, limit: nat,
                         stream: seq<byte>)
    requires limit < UINT32 && forall addr :: peers(addr).Some? ==> peers(addr).value.Exact()
    ensures Listen(allowed, peers, goesOn, limit, stream).heard != [] <==>
      exists addr, sealed, rest ::
        Presents(allowed, peers, stream, addr, sealed, rest) && Sealed(peers(addr).value, sealed)
  {
    var h := Accept(allowed, peers, stream);
    if Listen(allowed, peers, goesOn, limit, stream).heard != [] {
      AcceptIff(allowed, peers, stream, h.result, h.addr, h.rest);
      var sealed :| Presents(allowed, peers, stream, h.addr, sealed, h.rest)
                    && Decode(peers(h.addr).value, sealed) == h.result;
      SealedIff(peers(h.addr).value, sealed);
    }
    forall addr, sealed, rest |
      Presents(allowed, peers, stream, addr, sealed, rest) && Sealed(peers(addr).value, sealed)
      ensures Listen(allowed, peers, goesOn, limit, stream).heard != []
    {
      var c := peers(addr).value;
      var metadata, nonce :| SealOf(c, sealed, metadata, nonce);
      ListenerServes(allowed, peers, goesOn, limit, stream, addr, sealed, rest, metadata, nonce);
      var msgs, nonces, tail := WhatIsHeard(c, goesOn, limit, [metadata], rest);
    }
  }
}
