/** Length-prefixed messages over a byte stream (message.go). */
module Framing {
  import opened Keys
  import opened Options

  const UINT32 := 0x1_0000_0000

  function LittleEndian(n: nat, width: nat): (b: seq<byte>)
    ensures |b| == width
  {
    if width == 0 then [] else [n % 256] + LittleEndian(n / 256, width - 1)
  }

  function FromLittleEndian(b: seq<byte>): nat {
    if b == [] then 0 else b[0] as int + 256 * FromLittleEndian(b[1..])
  }

  function Pow256(width: nat): (r: nat)
    ensures r > 0
  {
    if width == 0 then 1 else 256 * Pow256(width - 1)
  }

  lemma {:induction false} LittleEndianRoundTrip(n: nat, width: nat)
    requires n < Pow256(width)
    ensures FromLittleEndian(LittleEndian(n, width)) == n
  {
    if width > 0 {
      LittleEndianRoundTrip(n / 256, width - 1);
      assert LittleEndian(n, width)[1..] == LittleEndian(n / 256, width - 1);
    }
  }

  lemma {:induction false} FromLittleEndianRoundTrip(b: seq<byte>)
    ensures FromLittleEndian(b) < Pow256(|b|)
    ensures LittleEndian(FromLittleEndian(b), |b|) == b
  {
    if b != [] {
      FromLittleEndianRoundTrip(b[1..]);
      var rest := FromLittleEndian(b[1..]);
      assert (b[0] as int + 256 * rest) / 256 == rest && (b[0] as int + 256 * rest) % 256 == b[0];
      assert b == [b[0]] + b[1..];
    }
  }

  function PutUint32(n: nat): seq<byte> {
    LittleEndian(n, 4)
  }

  function Uint32(b: seq<byte>): nat
    requires |b| == 4
  {
    FromLittleEndian(b)
  }

  lemma Pow256Of4()
    ensures Pow256(4) == UINT32
  {
    assert Pow256(2) == 65536;
    assert Pow256(4) == 256 * Pow256(3);
  }

  lemma Uint32RoundTrip(n: nat)
    requires n < UINT32
    ensures Uint32(PutUint32(n)) == n
  {
    Pow256Of4();
    LittleEndianRoundTrip(n, 4);
  }

  lemma PutUint32RoundTrip(b: seq<byte>)
    requires |b| == 4
    ensures Uint32(b) < UINT32 && PutUint32(Uint32(b)) == b
  {
    Pow256Of4();
    FromLittleEndianRoundTrip(b);
  }

  /** The length is cut to 32 bits. */
  function Frame(msg: seq<byte>): seq<byte> {
    PutUint32(|msg| % UINT32) + msg
  }

  function Wire(msgs: seq<seq<byte>>): seq<byte> {
    if msgs == [] then [] else Frame(msgs[0]) + Wire(msgs[1..])
  }

  // ---- reading ----

  datatype ReadError = Eof | UnexpectedEof | TooLarge(size: nat)

  datatype Read<+T> = Ok(value: T, rest: seq<byte>) | Err(error: ReadError)

  /** Reading exactly n bytes: a stream that ends before the first one is a clean end. */
  function Take(stream: seq<byte>, n: nat): Read<seq<byte>> {
    if n <= |stream| then Ok(stream[..n], stream[n..])
    else Err(if stream == [] then Eof else UnexpectedEof)
  }

  function ReadFrame(stream: seq<byte>, maxMsgSize: nat): Read<seq<byte>> {
    match Take(stream, 4)
    case Err(e) => Err(e)
    case Ok(header, rest) =>
      var size := Uint32(header);
      if size > maxMsgSize then Err(TooLarge(size)) else Take(rest, size)
  }

  /** The messages that successive reads return, the i-th under the i-th limit, until one fails. */
  function ReadMessages(stream: seq<byte>, limits: seq<nat>): (r: (seq<seq<byte>>, seq<byte>))
    ensures |r.0| <= |limits|
    decreases |limits|
  {
    if limits == [] then ([], stream)
    else
      match ReadFrame(stream, limits[0])
      case Err(_) => ([], stream)
      case Ok(msg, rest) =>
        var (msgs, end) := ReadMessages(rest, limits[1..]);
        ([msg] + msgs, end)
  }

  ghost predicate Fits(msgs: seq<seq<byte>>, limits: seq<nat>) {
    |msgs| == |limits| && forall i :: 0 <= i < |msgs| ==> |msgs[i]| <= limits[i] < UINT32
  }

  lemma FrameRead(msg: seq<byte>, maxMsgSize: nat, tail: seq<byte>)
    requires |msg| <= maxMsgSize < UINT32
    ensures ReadFrame(Frame(msg) + tail, maxMsgSize) == Ok(msg, tail)
  {
    var stream := Frame(msg) + tail;
    assert stream[..4] == PutUint32(|msg|);
    assert stream[4..] == msg + tail;
    Uint32RoundTrip(|msg|);
  }

  /** A read returns a message and the rest exactly if the stream is that message's frame
      followed by that rest, and the message is within the limit. */
  lemma ReadFrameIff(stream: seq<byte>, maxMsgSize: nat, msg: seq<byte>, rest: seq<byte>)
    requires maxMsgSize < UINT32
    ensures ReadFrame(stream, maxMsgSize) == Ok(msg, rest) <==> |msg| <= maxMsgSize && stream == Frame(msg) + rest
  {
    if |msg| <= maxMsgSize && stream == Frame(msg) + rest {
      FrameRead(msg, maxMsgSize, rest);
    }
    if ReadFrame(stream, maxMsgSize) == Ok(msg, rest) {
      ReadIsFramed(stream, maxMsgSize, msg, rest);
    }
  }

  lemma Reassemble(stream: seq<byte>, n: nat)
    requires n + 4 <= |stream|
    ensures stream == (stream[..4] + stream[4..][..n]) + stream[4..][n..]
  {}

  lemma ReadIsFramed(stream: seq<byte>, maxMsgSize: nat, msg: seq<byte>, rest: seq<byte>)
    requires ReadFrame(stream, maxMsgSize) == Ok(msg, rest)
    ensures |msg| <= maxMsgSize && stream == Frame(msg) + rest
  {
    var header := stream[..4];
    PutUint32RoundTrip(header);
    assert |msg| == Uint32(header);
    Reassemble(stream, |msg|);
  }

  /** When there is no such frame: the stream ends cleanly before the header or the body, or inside
      one of them, or the size is over the limit. */
  lemma ReadFrameErrors(stream: seq<byte>, maxMsgSize: nat)
    ensures var size := if |stream| < 4 then 0 else Uint32(stream[..4]);
      && (ReadFrame(stream, maxMsgSize) == Err(Eof) <==> stream == [] || (|stream| == 4 && 0 < size <= maxMsgSize))
      && (ReadFrame(stream, maxMsgSize) == Err(UnexpectedEof) <==>
            0 < |stream| < 4 || (4 < |stream| < 4 + size && size <= maxMsgSize))
      && (ReadFrame(stream, maxMsgSize) == Err(TooLarge(size)) <==> |stream| >= 4 && size > maxMsgSize)
  {
    if |stream| >= 4 {
      assert |stream[4..]| == |stream| - 4;
    }
  }

  /** One frame comes back as sent exactly when the message is within the reader's limit. */
  lemma FrameRoundTripIff(msg: seq<byte>, maxMsgSize: nat)
    requires maxMsgSize < UINT32
    ensures ReadFrame(Frame(msg), maxMsgSize) == Ok(msg, []) <==> |msg| <= maxMsgSize
  {
    assert Frame(msg) + [] == Frame(msg);
    if |msg| <= maxMsgSize {
      FrameRead(msg, maxMsgSize, []);
    } else {
      assert Frame(msg)[..4] == PutUint32(|msg| % UINT32);
      Uint32RoundTrip(|msg| % UINT32);
    }
  }

  lemma ReadOne(stream: seq<byte>, limits: seq<nat>, msg: seq<byte>, rest: seq<byte>)
    requires limits != [] && ReadFrame(stream, limits[0]) == Ok(msg, rest)
    ensures ReadMessages(stream, limits) ==
            ([msg] + ReadMessages(rest, limits[1..]).0, ReadMessages(rest, limits[1..]).1)
  {}

  lemma WireCons(msgs: seq<seq<byte>>, tail: seq<byte>)
    requires msgs != []
    ensures Wire(msgs) + tail == Frame(msgs[0]) + (Wire(msgs[1..]) + tail)
  {}

  /** Any list of messages within the limits is read back in order, and nothing more is taken
      from the stream. */
  lemma {:induction false} WireRoundTrip(msgs: seq<seq<byte>>, limits: seq<nat>, tail: seq<byte>)
    requires Fits(msgs, limits)
    ensures ReadMessages(Wire(msgs) + tail, limits) == (msgs, tail)
  {
    if msgs == [] {
      assert Wire(msgs) + tail == tail;
    } else {
      FirstRead(msgs, limits, tail);
      WireRoundTrip(msgs[1..], limits[1..], tail);
      ReadOne(Wire(msgs) + tail, limits, msgs[0], Wire(msgs[1..]) + tail);
      assert [msgs[0]] + msgs[1..] == msgs;
    }
  }

  /** Reads that all succeed, and then more reads. */
  lemma {:induction false} ReadSplit(stream: seq<byte>, limits: seq<nat>, more: seq<nat>)
    requires |ReadMessages(stream, limits).0| == |limits|
    ensures var (msgs, rest) := ReadMessages(stream, limits);
      ReadMessages(stream, limits + more).0 == msgs + ReadMessages(rest, more).0
  {
    if limits == [] {
      assert limits + more == more;
    } else {
      var first := ReadFrame(stream, limits[0]);
      ReadSplit(first.rest, limits[1..], more);
      assert (limits + more)[1..] == limits[1..] + more;
      ReadOne(stream, limits + more, first.value, first.rest);
      ReadOne(stream, limits, first.value, first.rest);
      var (msgs, rest) := ReadMessages(first.rest, limits[1..]);
      Regroup(first.value, msgs, ReadMessages(rest, more).0);
    }
  }

  lemma Regroup(msg: seq<byte>, msgs: seq<seq<byte>>, after: seq<seq<byte>>)
    ensures [msg] + (msgs + after) == [msg] + msgs + after
  {}

  /** Whatever follows them, messages within the limits are read first, in order. */
  lemma WireThen(msgs: seq<seq<byte>>, limits: seq<nat>, tail: seq<byte>, more: seq<nat>)
    requires Fits(msgs, limits)
    ensures ReadMessages(Wire(msgs) + tail, limits + more).0 == msgs + ReadMessages(tail, more).0
  {
    WireRoundTrip(msgs, limits, tail);
    ReadSplit(Wire(msgs) + tail, limits, more);
  }

  lemma FirstRead(msgs: seq<seq<byte>>, limits: seq<nat>, tail: seq<byte>)
    requires Fits(msgs, limits) && msgs != []
    ensures ReadFrame(Wire(msgs) + tail, limits[0]) == Ok(msgs[0], Wire(msgs[1..]) + tail)
    ensures Fits(msgs[1..], limits[1..])
  {
    WireCons(msgs, tail);
    FrameRead(msgs[0], limits[0], Wire(msgs[1..]) + tail);
  }

  /** However a stream is cut short, what is read from it is a prefix of what was sent. */
  lemma {:induction false} CutWireYieldsPrefix(msgs: seq<seq<byte>>, limits: seq<nat>, cut: nat)
    requires Fits(msgs, limits) && cut <= |Wire(msgs)|
    ensures ReadMessages(Wire(msgs)[..cut], limits).0 <= msgs
  {
    if msgs != [] {
      var wire, frame := Wire(msgs), Frame(msgs[0]);
      if cut < |frame| {
        CutFrameFails(msgs[0], limits[0], cut);
        assert wire[..cut] == frame[..cut];
      } else {
        var rest := cut - |frame|;
        assert wire[..cut] == frame + Wire(msgs[1..])[..rest];
        FrameRead(msgs[0], limits[0], Wire(msgs[1..])[..rest]);
        ReadOne(wire[..cut], limits, msgs[0], Wire(msgs[1..])[..rest]);
        CutWireYieldsPrefix(msgs[1..], limits[1..], rest);
        assert msgs == [msgs[0]] + msgs[1..];
      }
    }
  }

  lemma HeaderOf(header: seq<byte>, body: seq<byte>, cut: nat)
    requires |header| == 4 <= cut <= |header + body|
    ensures (header + body)[..cut][..4] == header
  {}

  lemma ShortRead(stream: seq<byte>, size: nat, maxMsgSize: nat)
    requires 4 <= |stream| < size + 4 && Uint32(stream[..4]) == size
    ensures ReadFrame(stream, maxMsgSize).Err?
  {}

  lemma CutFrameFails(msg: seq<byte>, maxMsgSize: nat, cut: nat)
    requires |msg| <= maxMsgSize < UINT32 && cut < |Frame(msg)|
    ensures ReadFrame(Frame(msg)[..cut], maxMsgSize).Err?
  {
    if cut >= 4 {
      HeaderOf(PutUint32(|msg|), msg, cut);
      Uint32RoundTrip(|msg|);
      ShortRead(Frame(msg)[..cut], |msg|, maxMsgSize);
    }
  }

  lemma {:induction false} WireAppend(msgs: seq<seq<byte>>, msg: seq<byte>)
    ensures Wire(msgs + [msg]) == Wire(msgs) + Frame(msg)
  {
    if msgs == [] {
      assert [msg][1..] == [];
    } else {
      WireAppend(msgs[1..], msg);
      assert (msgs + [msg])[1..] == msgs[1..] + [msg];
    }
  }

  // ---- sealed messages ----

  const NONCE_SIZE := 24
  const OVERHEAD := 16

  datatype Opened = Rejected | Opened(msg: seq<byte>)

  /** Sealing and opening under the shared key of two clients, with a nonce. */
  datatype Cipher = Cipher(
    seal: (seq<byte>, seq<byte>) -> seq<byte>,
    open: (seq<byte>, seq<byte>) -> Opened)
  {
    ghost predicate Inverse() {
      forall msg, nonce ::
        |seal(msg, nonce)| == |msg| + OVERHEAD && open(seal(msg, nonce), nonce) == Opened(msg)
    }

    /** It opens what was sealed, and nothing else. */
    ghost predicate Exact() {
      && (forall msg, nonce :: |seal(msg, nonce)| == |msg| + OVERHEAD)
      && (forall msg, nonce, x :: open(x, nonce) == Opened(msg) <==> x == seal(msg, nonce))
    }
  }

  datatype Decoded = TooShort | NegativeLength | BadSeal | Plain(msg: seq<byte>)

  function Encode(c: Cipher, msg: seq<byte>, nonce: seq<byte>): seq<byte> {
    nonce + c.seal(msg, nonce)
  }

  /** A sealed part shorter than the overhead makes the output buffer's length negative. */
  function Decode(c: Cipher, buf: seq<byte>): Decoded {
    if |buf| <= NONCE_SIZE then TooShort
    else if |buf| < NONCE_SIZE + OVERHEAD then NegativeLength
    else match c.open(buf[NONCE_SIZE..], buf[..NONCE_SIZE])
      case Rejected => BadSeal
      case Opened(msg) => Plain(msg)
  }

  /** A nonce and a message sealed with it. */
  ghost predicate SealOf(c: Cipher, buf: seq<byte>, msg: seq<byte>, nonce: seq<byte>) {
    |nonce| == NONCE_SIZE && buf == nonce + c.seal(msg, nonce)
  }

  ghost predicate Sealed(c: Cipher, buf: seq<byte>) {
    exists msg, nonce :: SealOf(c, buf, msg, nonce)
  }

  /** A buffer opens to a message exactly if it is that message sealed. */
  lemma DecodeIff(c: Cipher, buf: seq<byte>, msg: seq<byte>)
    requires c.Exact()
    ensures Decode(c, buf) == Plain(msg) <==> exists nonce :: SealOf(c, buf, msg, nonce)
  {
    if Decode(c, buf) == Plain(msg) {
      var nonce, x := buf[..NONCE_SIZE], buf[NONCE_SIZE..];
      assert x == c.seal(msg, nonce);
      assert buf == nonce + x;
      assert SealOf(c, buf, msg, nonce);
    }
    forall nonce | SealOf(c, buf, msg, nonce)
      ensures Decode(c, buf) == Plain(msg)
    {
      assert buf[..NONCE_SIZE] == nonce && buf[NONCE_SIZE..] == c.seal(msg, nonce);
      assert c.open(c.seal(msg, nonce), nonce) == Opened(msg);
    }
  }

  lemma SealedIff(c: Cipher, buf: seq<byte>)
    requires c.Exact()
    ensures Decode(c, buf).Plain? <==> Sealed(c, buf)
  {
    if Decode(c, buf).Plain? {
      DecodeIff(c, buf, Decode(c, buf).msg);
    }
    if Sealed(c, buf) {
      var msg, nonce :| SealOf(c, buf, msg, nonce);
      DecodeIff(c, buf, msg);
    }
  }

  /** And the other outcomes: too short for a nonce, too short for a seal, or of full length and
      sealed by nobody who has the key. */
  lemma DecodeOutcomes(c: Cipher, buf: seq<byte>)
    requires c.Exact()
    ensures Decode(c, buf) == TooShort <==> |buf| <= 24
    ensures Decode(c, buf) == NegativeLength <==> 25 <= |buf| <= 39
    ensures Decode(c, buf) == BadSeal <==> |buf| >= 40 && !Sealed(c, buf)
  {
    SealedIff(c, buf);
  }

  function EncodeAll(c: Cipher, msgs: seq<seq<byte>>, nonces: seq<seq<byte>>): (r: seq<seq<byte>>)
    requires |msgs| == |nonces|
    ensures |r| == |msgs|
  {
    seq(|msgs|, i requires 0 <= i < |msgs| => Encode(c, msgs[i], nonces[i]))
  }

  /** Sealed, framed, sent, read and opened, every message within its reader's limit comes out
      as it went in, in order. */
  lemma SealedDelivery(c: Cipher, msgs: seq<seq<byte>>, nonces: seq<seq<byte>>, limits: seq<nat>)
    requires c.Inverse() && |msgs| == |nonces| == |limits|
    requires forall i :: 0 <= i < |msgs| ==>
      |nonces[i]| == NONCE_SIZE && |msgs[i]| + NONCE_SIZE + OVERHEAD <= limits[i] < UINT32
    ensures var read := ReadMessages(Wire(EncodeAll(c, msgs, nonces)), limits);
      read.1 == [] && |read.0| == |msgs| && forall i :: 0 <= i < |msgs| ==> Decode(c, read.0[i]) == Plain(msgs[i])
  {
    var sealed := EncodeAll(c, msgs, nonces);
    assert Wire(sealed) + [] == Wire(sealed);
    WireRoundTrip(sealed, limits, []);
    forall i | 0 <= i < |msgs|
      ensures Decode(c, sealed[i]) == Plain(msgs[i])
    {
      assert sealed[i][..NONCE_SIZE] == nonces[i] && sealed[i][NONCE_SIZE..] == c.seal(msgs[i], nonces[i]);
    }
  }

  // ---- the reader on a connection ----

  function Flatten(chunks: seq<seq<byte>>): seq<byte> {
    if chunks == [] then [] else chunks[0] + Flatten(chunks[1..])
  }

  /** The reading side of a connection: what will arrive, in the pieces in which it arrives. */
  class Conn {
    var chunks: seq<seq<byte>>

    constructor (chunks: seq<seq<byte>>)
      ensures this.chunks == chunks
    {
      this.chunks := chunks;
    }

    /** One network read: at most n bytes of the next piece. */
    method Read(n: nat) returns (b: seq<byte>)
      requires chunks != []
      modifies this
      ensures |b| <= n && old(Flatten(chunks)) == b + Flatten(chunks)
      ensures |chunks| < |old(chunks)| || (|chunks| == |old(chunks)| && |b| == n)
    {
      var head := chunks[0];
      if |head| <= n {
        b := head;
        chunks := chunks[1..];
      } else {
        b := head[..n];
        chunks := [head[n..]] + chunks[1..];
        assert head == b + head[n..];
        assert chunks[1..] == old(chunks)[1..];
      }
    }

    /** io.ReadFull: the pieces do not matter. */
    method ReadFull(n: nat) returns (r: Read<seq<byte>>)
      modifies this
      ensures r == Take(old(Flatten(chunks)), n)
      ensures r.Ok? ==> Flatten(chunks) == r.rest
    {
      var buf := [];
      while |buf| < n && chunks != []
        invariant |buf| <= n
        invariant old(Flatten(chunks)) == buf + Flatten(chunks)
        decreases |chunks|, n - |buf|
      {
        var b := Read(n - |buf|);
        buf := buf + b;
      }
      if |buf| < n {
        return Err(if buf == [] then Eof else UnexpectedEof);
      }
      return Ok(buf, Flatten(chunks));
    }

    method ReadMessage(maxMsgSize: nat) returns (r: Read<seq<byte>>)
      modifies this
      ensures r == ReadFrame(old(Flatten(chunks)), maxMsgSize)
      ensures r.Ok? ==> Flatten(chunks) == r.rest
    {
      r := ReadFull(4);
      if r.Err? {
        return;
      }
      var size := Uint32(r.value);
      if size > maxMsgSize {
        return Err(TooLarge(size));
      }
      r := ReadFull(size);
    }

    /** Successive reads, the i-th under the i-th limit, until one fails. */
    method ReadAll(limits: seq<nat>) returns (msgs: seq<seq<byte>>)
      modifies this
      ensures msgs == ReadMessages(old(Flatten(chunks)), limits).0
    {
      msgs := [];
      ghost var stream := Flatten(chunks);
      assert limits[0..] == limits;
      for i := 0 to |limits|
        invariant ReadMessages(stream, limits).0 == msgs + ReadMessages(Flatten(chunks), limits[i..]).0
      {
        ghost var before := Flatten(chunks);
        var r := ReadMessage(limits[i]);
        assert limits[i..][1..] == limits[i + 1..];
        if r.Err? {
          assert ReadMessages(before, limits[i..]).0 == [];
          return;
        }
        ReadOne(before, limits[i..], r.value, r.rest);
        msgs := msgs + [r.value];
      }
    }
  }
}
