/** What a connection is still good for after a write on it failed part-way (message.go): a writer
    that gets the lock before the connection is closed appends its frame to the piece that was
    left. Told exactly for every cut and every limit of the reader. */
module CutFrames {
  import opened Keys
  import opened Options
  import opened Framing
  import opened Serving
  import opened Writers

  /** The messages in lock order, without the one whose write failed. */
  function Done(c: Channel): seq<seq<byte>> {
    if c.failed.Some? && 0 <= c.failed.value < |c.order| then c.order[..c.failed.value] + c.order[c.failed.value + 1..]
    else c.order
  }

  function Limits(n: nat, limit: nat): seq<nat> {
    seq(n, _ => limit)
  }

  /** Sizes from min to max. */
  predicate Within(msgs: seq<seq<byte>>, min: nat, max: nat) {
    forall i :: 0 <= i < |msgs| ==> min <= |msgs[i]| <= max
  }

  /** However much has arrived and however often it is read, a reader with this limit gets a prefix
      of the messages that were written. */
  ghost predicate Orderly(c: Channel, limit: nat) {
    forall n: nat, arrived :: 0 <= arrived <= |c.wire| ==>
      ReadMessages(c.wire[..arrived], Limits(n, limit)).0 <= Done(c)
  }

  /** Lock order is kept by all that can be written from here on without a further failure. */
  ghost predicate StaysOrderly(c: Channel, min: nat, limit: nat) {
    forall more :: NoFailure(more) && Within(Run(c, more).order, min, limit) ==> Orderly(Run(c, more), limit)
  }

  /** A failure leaves p bytes of the frame of a message of this size, and whatever is written next,
      a reader with this limit does not take it for something else. Either nothing of the frame
      was sent, or only zeros of its header were, and then an empty message reads as an empty
      one and every other one as too large. */
  predicate Harmless(size: nat, p: int, limit: nat) {
    p == 0 || (0 < p < 4 && size % Pow256(p) == 0 && limit < Pow256(p) && limit < Pow256(4 - p))
  }

  const SEALED_SIZE := NONCE_SIZE + OVERHEAD

  /** The same for sealed messages, which are never empty: every one reads as too large. */
  predicate HarmlessIfSealed(size: nat, p: int, limit: nat) {
    p == 0 || (p == 1 && size % 256 + 256 * SEALED_SIZE > limit) || (p == 2 && limit < 65536)
  }

  /** How many bytes of the frame locked last are on the wire. */
  function Cut(c: Channel): int
    requires c.order != []
  {
    |c.wire| - |Wire(c.order[..|c.order| - 1])|
  }

  function LastSize(c: Channel): nat
    requires c.order != []
  {
    |c.order[|c.order| - 1]|
  }

  // ---- writers that start anew ----

  lemma StepResumes(c: Channel, v: Channel, a: Action)
    requires !a.Fail?
    ensures var v' := Step(v, a);
      Step(Channel(c.wire + v.wire, v.holder, c.order + v.order, c.failed), a) ==
      Channel(c.wire + v'.wire, v'.holder, c.order + v'.order, c.failed)
  {
    if a.Lock? {
      assert c.order + v.order + [a.msg] == c.order + (v.order + [a.msg]);
    } else if v.holder.Held? {
      Assoc(c.wire, v.wire, Header(v.holder.msg));
      Assoc(c.wire, v.wire, v.holder.msg);
    }
  }

  /** Behind what is already there, writers do what they would do on a new connection. */
  lemma {:induction false} Resume(c: Channel, more: seq<Action>)
    requires c.holder == Free && NoFailure(more)
    ensures var v := Run(IDLE, more);
      && v.failed == None && v.wire <= Wire(v.order)
      && Run(c, more) == Channel(c.wire + v.wire, v.holder, c.order + v.order, c.failed)
  {
    if more == [] {
      assert c.wire + [] == c.wire && c.order + [] == c.order;
    } else {
      var front, last := more[..|more| - 1], more[|more| - 1];
      assert last in more;
      Resume(c, front);
      StepResumes(c, Run(IDLE, front), last);
    }
    StaysUnfailed(IDLE, more);
    WritersKeepFraming(IDLE, more);
    WireIsPrefix(Run(IDLE, more));
  }

  lemma {:induction false} StaysUnfailed(c: Channel, more: seq<Action>)
    requires c.failed == None && NoFailure(more)
    ensures Run(c, more).failed == None
  {
    if more != [] {
      StaysUnfailed(c, more[..|more| - 1]);
      assert more[|more| - 1] in more;
    }
  }

  lemma CutInside(c: Channel)
    requires ChannelInv(c) && c.failed.Some? && !LockedSinceFailure(c)
    ensures c.order != [] && c.holder == Free && c.failed.value == |c.order| - 1
    ensures var before, msg := c.order[..|c.order| - 1], c.order[|c.order| - 1];
      0 <= Cut(c) < |Frame(msg)| && c.wire == Wire(before) + Frame(msg)[..Cut(c)]
  {
    var before, msg := c.order[..|c.order| - 1], c.order[|c.order| - 1];
    assert c.order == before + [msg];
    WireAppend(before, msg);
    assert c.wire == (Wire(before) + Frame(msg))[..|c.wire|];
  }

  // ---- what a reader makes of it ----

  lemma {:induction false} PrefixReads(a: seq<byte>, b: seq<byte>, limits: seq<nat>)
    requires a <= b
    ensures ReadMessages(a, limits).0 <= ReadMessages(b, limits).0
    decreases |limits|
  {
    if limits != [] && ReadFrame(a, limits[0]).Ok? {
      var first, second := ReadFrame(a, limits[0]), ReadFrame(b, limits[0]);
      assert a[..4] == b[..4];
      assert first.value == second.value && first.rest <= second.rest;
      PrefixReads(first.rest, second.rest, limits[1..]);
    }
  }

  lemma LimitsTail(n: nat, limit: nat)
    requires n > 0
    ensures Limits(n, limit)[0] == limit && Limits(n, limit)[1..] == Limits(n - 1, limit)
  {}

  ghost predicate ReadsInto(stream: seq<byte>, limit: nat, msgs: seq<seq<byte>>) {
    forall n: nat :: ReadMessages(stream, Limits(n, limit)).0 <= msgs
  }

  lemma HeadAndTail(msgs: seq<seq<byte>>, rest: seq<seq<byte>>)
    requires msgs != []
    ensures [msgs[0]] + (msgs[1..] + rest) == msgs + rest
  {}

  /** Whole frames in front are read first. */
  lemma {:induction false} BeforeReads(before: seq<seq<byte>>, tail: seq<byte>, rest: seq<seq<byte>>, limit: nat)
    requires Within(before, 0, limit) && limit < UINT32 && ReadsInto(tail, limit, rest)
    ensures ReadsInto(Wire(before) + tail, limit, before + rest)
  {
    if before == [] {
      assert Wire(before) + tail == tail && before + rest == rest;
    } else {
      BeforeReads(before[1..], tail, rest, limit);
      WireCons(before, tail);
      FrameThen(before[0], Wire(before[1..]) + tail, before[1..] + rest, limit);
      HeadAndTail(before, rest);
    }
  }

  lemma FrameThen(msg: seq<byte>, tail: seq<byte>, rest: seq<seq<byte>>, limit: nat)
    requires |msg| <= limit < UINT32 && ReadsInto(tail, limit, rest)
    ensures ReadsInto(Frame(msg) + tail, limit, [msg] + rest)
  {
    forall n: nat
      ensures ReadMessages(Frame(msg) + tail, Limits(n, limit)).0 <= [msg] + rest
    {
      if n > 0 {
        LimitsTail(n, limit);
        FrameRead(msg, limit, tail);
        ReadOne(Frame(msg) + tail, Limits(n, limit), msg, tail);
      }
    }
  }

  lemma WireReads(msgs: seq<seq<byte>>, limit: nat)
    requires Within(msgs, 0, limit) && limit < UINT32
    ensures ReadsInto(Wire(msgs), limit, msgs)
  {
    assert Wire(msgs) + [] == Wire(msgs) && msgs + [] == msgs;
    BeforeReads(msgs, [], [], limit);
  }

  function Zeros(n: nat): seq<byte> {
    seq(n, _ => 0)
  }

  /** The size a reader finds when the first bytes of one header are followed by another. */
  function Mixed(h: seq<byte>, size: nat): nat
    requires |h| <= 4
  {
    Uint32(h + PutUint32(size)[..4 - |h|])
  }

  lemma StartOf(h: seq<byte>, header: seq<byte>, rest: seq<byte>)
    requires |h| <= 4 == |header|
    ensures (h + (header + rest))[..4] == h + header[..4 - |h|]
  {}

  lemma MixedStart(h: seq<byte>, msg: seq<byte>, rest: seq<byte>)
    requires |h| <= 4 && |msg| < UINT32
    ensures |h + (Frame(msg) + rest)| >= 4
    ensures Uint32((h + (Frame(msg) + rest))[..4]) == Mixed(h, |msg|)
  {
    Assoc(PutUint32(|msg|), msg, rest);
    StartOf(h, PutUint32(|msg|), msg + rest);
  }

  lemma NothingRead(stream: seq<byte>, limit: nat, msgs: seq<seq<byte>>)
    requires |stream| < 4 || Uint32(stream[..4]) > limit
    ensures ReadsInto(stream, limit, msgs)
  {}

  lemma {:induction false} ZerosAreAFrame(p: nat, rest: seq<byte>)
    ensures Zeros(p) + (Frame([]) + rest) == Frame([]) + (Zeros(p) + rest)
  {
    assert Frame([]) == Zeros(4) by {
      PutUint32RoundTrip(Zeros(4));
      assert Uint32(Zeros(4)) == 0;
    }
    assert Zeros(p) + Zeros(4) == Zeros(4) + Zeros(p);
    Assoc(Zeros(p), Zeros(4), rest);
    Assoc(Zeros(4), Zeros(p), rest);
  }

  /** Behind a piece of a header, each message reads as too large, or is empty behind zeros. */
  lemma {:induction false} ShiftedReads(h: seq<byte>, msgs: seq<seq<byte>>, limit: nat)
    requires 0 < |h| < 4 && limit < UINT32
    requires forall i :: 0 <= i < |msgs| ==>
      |msgs[i]| < UINT32 && (Mixed(h, |msgs[i]|) > limit || (msgs[i] == [] && h == Zeros(|h|)))
    ensures ReadsInto(h + Wire(msgs), limit, msgs)
  {
    if msgs == [] {
      NothingRead(h + Wire(msgs), limit, msgs);
    } else if Mixed(h, |msgs[0]|) > limit {
      MixedStart(h, msgs[0], Wire(msgs[1..]));
      NothingRead(h + Wire(msgs), limit, msgs);
    } else {
      ShiftedReads(h, msgs[1..], limit);
      ZerosAreAFrame(|h|, Wire(msgs[1..]));
      FrameThen([], h + Wire(msgs[1..]), msgs[1..], limit);
      assert [[]] + msgs[1..] == msgs;
    }
  }

  /** The piece of the frame that a failed write left. */
  function Piece(c: Channel): seq<byte>
    requires c.order != [] && 0 <= Cut(c) <= |Frame(c.order[|c.order| - 1])|
  {
    Frame(c.order[|c.order| - 1])[..Cut(c)]
  }

  lemma Kept(c: Channel, more: seq<Action>, limit: nat)
    requires ChannelInv(c) && c.failed.Some? && !LockedSinceFailure(c)
    requires NoFailure(more) && limit < UINT32 && Within(Run(c, more).order, 0, limit)
    requires c.order != [] && 0 <= Cut(c) <= |Frame(c.order[|c.order| - 1])|
    requires ReadsInto(Piece(c) + Wire(Run(IDLE, more).order), limit, Run(IDLE, more).order)
    ensures Orderly(Run(c, more), limit)
  {
    CutInside(c);
    Resume(c, more);
    var c', v := Run(c, more), Run(IDLE, more);
    var before := c.order[..|c.order| - 1];
    var whole := Wire(before) + (Piece(c) + Wire(v.order));
    assert Within(before, 0, limit) by {
      assert forall i :: 0 <= i < |before| ==> before[i] == c'.order[i];
    }
    BeforeReads(before, Piece(c) + Wire(v.order), v.order, limit);
    assert Done(c') == before + v.order;
    assert c'.wire <= whole by {
      Assoc(Wire(before), Piece(c), v.wire);
      assert c'.wire == Wire(before) + (Piece(c) + v.wire);
    }
    forall n: nat, arrived | 0 <= arrived <= |c'.wire|
      ensures ReadMessages(c'.wire[..arrived], Limits(n, limit)).0 <= Done(c')
    {
      PrefixReads(c'.wire[..arrived], whole, Limits(n, limit));
    }
  }

  // ---- messages that are misread ----

  /** What a writer does to send one message. */
  function Send(msg: seq<byte>): seq<Action> {
    [Lock(0, msg), WriteHeader(0), WriteBody(0)]
  }

  lemma Sent(c: Channel, msg: seq<byte>)
    requires c.holder == Free
    ensures Run(c, Send(msg)) == c.(wire := c.wire + Frame(msg), order := c.order + [msg])
  {
    var a := Send(msg);
    assert a[..2][..1] == a[..1] && a[..1][..0] == [];
    assert Run(c, a[..1]) == Step(c, a[0]);
    assert Run(c, a[..2]) == Step(Step(c, a[0]), a[1]);
    assert c.wire + Header(msg) + msg == c.wire + Frame(msg);
  }

  lemma {:induction false} RunConcat(c: Channel, a: seq<Action>, b: seq<Action>)
    ensures Run(c, a + b) == Run(Run(c, a), b)
  {
    if b == [] {
      assert a + b == a;
    } else {
      RunConcat(c, a, b[..|b| - 1]);
      assert (a + b)[..|a + b| - 1] == a + b[..|b| - 1];
    }
  }

  lemma SentTwo(c: Channel, x: seq<byte>, y: seq<byte>)
    requires c.holder == Free
    ensures Run(c, Send(x) + Send(y)) == c.(wire := c.wire + (Frame(x) + Frame(y)), order := c.order + [x, y])
  {
    RunConcat(c, Send(x), Send(y));
    Sent(c, x);
    Sent(Run(c, Send(x)), y);
    Assoc(c.wire, Frame(x), Frame(y));
    assert c.order + [x] + [y] == c.order + [x, y];
  }

  lemma ReadBySize(stream: seq<byte>, size: nat, limit: nat)
    requires size + 4 <= |stream| && Uint32(stream[..4]) == size <= limit
    ensures ReadFrame(stream, limit) == Ok(stream[4..][..size], stream[4..][size..])
  {}

  /** Two messages are written after the failure, and a reader with this limit takes the first one
      for one of another size. */
  lemma Misread(c: Channel, x: seq<byte>, y: seq<byte>, size: nat, limit: nat)
    requires ChannelInv(c) && c.failed.Some? && !LockedSinceFailure(c)
    requires Within(c.order, 0, limit) && |x| < UINT32 && size <= limit < UINT32
    requires c.order != [] && 0 <= Cut(c) <= |Frame(c.order[|c.order| - 1])|
    requires var stream := Piece(c) + (Frame(x) + Frame(y));
      size + 4 <= |stream| && Uint32(stream[..4]) == size != |x|
    ensures !Orderly(Run(c, Send(x) + Send(y)), limit)
  {
    CutInside(c);
    SentTwo(c, x, y);
    var c', before := Run(c, Send(x) + Send(y)), c.order[..|c.order| - 1];
    var stream := Piece(c) + (Frame(x) + Frame(y));
    Assoc(Wire(before), Piece(c), Frame(x) + Frame(y));
    assert c'.wire[..|c'.wire|] == Wire(before) + stream;
    assert c'.order == before + [c.order[|before|], x, y];
    assert Done(c') == before + [x, y];
    var limits := Limits(|before|, limit);
    WireThen(before, limits, stream, [limit]);
    ReadBySize(stream, size, limit);
    ReadOne(stream, [limit], stream[4..][..size], stream[4..][size..]);
    assert limits + [limit] == Limits(|before| + 1, limit);
    var read := ReadMessages(c'.wire[..|c'.wire|], Limits(|before| + 1, limit)).0;
    assert read[|before|] == stream[4..][..size] && Done(c')[|before|] == x;
  }

  // ---- sizes ----

  lemma Regrouped(a: nat, b: nat, p: nat, c: nat)
    ensures a + 256 * (b + p * c) == a + 256 * b + (256 * p) * c
  {}

  lemma {:induction false} FromLittleEndianConcat(a: seq<byte>, b: seq<byte>)
    ensures FromLittleEndian(a + b) == FromLittleEndian(a) + Pow256(|a|) * FromLittleEndian(b)
  {
    if a == [] {
      assert a + b == b;
    } else {
      FromLittleEndianConcat(a[1..], b);
      assert (a + b)[1..] == a[1..] + b;
      Regrouped(a[0] as int, FromLittleEndian(a[1..]), Pow256(|a| - 1), FromLittleEndian(b));
    }
  }

  lemma {:induction false} LittleEndianCut(n: nat, width: nat, p: nat)
    requires p <= width
    ensures LittleEndian(n, width)[..p] == LittleEndian(n, p)
  {
    if p > 0 {
      LittleEndianCut(n / 256, width - 1, p - 1);
    }
  }

  lemma TwoDigits(n: nat)
    ensures n % 256 + 256 * ((n / 256) % 256) == n % 65536
  {
    var t := (n / 256) / 256;
    assert n == 65536 * t + (n % 256 + 256 * ((n / 256) % 256));
  }

  lemma ThreeDigits(n: nat)
    ensures n % 256 + 256 * ((n / 256) % 65536) == n % 16777216
  {
    var t := (n / 256) / 65536;
    assert n == 16777216 * t + (n % 256 + 256 * ((n / 256) % 65536));
  }

  lemma {:induction false} FromLittleEndianMod(n: nat, p: nat)
    requires p <= 3
    ensures FromLittleEndian(LittleEndian(n, p)) == n % Pow256(p)
  {
    if p > 0 {
      FromLittleEndianMod(n / 256, p - 1);
      assert LittleEndian(n, p)[1..] == LittleEndian(n / 256, p - 1);
      Powers();
      TwoDigits(n);
      ThreeDigits(n);
    }
  }

  /** That size, in numbers: after p bytes of the header of a message of size n. */
  function MixedSize(n: nat, p: nat, size: nat): nat
    requires 0 < p < 4
  {
    n % Pow256(p) + Pow256(p) * (size % Pow256(4 - p))
  }

  lemma HeaderStart(msg: seq<byte>, p: nat)
    requires |msg| < UINT32 && p <= 4
    ensures Frame(msg)[..p] == LittleEndian(|msg|, p)
  {
    assert Frame(msg)[..p] == PutUint32(|msg|)[..p];
    LittleEndianCut(|msg|, 4, p);
  }

  lemma MixedIs(msg: seq<byte>, p: nat, size: nat)
    requires |msg| < UINT32 && 0 < p < 4
    ensures |Frame(msg)[..p]| == p
    ensures Mixed(Frame(msg)[..p], size) == MixedSize(|msg|, p, size)
  {
    HeaderStart(msg, p);
    LittleEndianCut(size, 4, 4 - p);
    FromLittleEndianConcat(LittleEndian(|msg|, p), LittleEndian(size, 4 - p));
    FromLittleEndianMod(|msg|, p);
    FromLittleEndianMod(size, 4 - p);
  }

  lemma BodyStart(msg: seq<byte>, p: nat, rest: seq<byte>)
    requires |msg| < UINT32 && 4 <= p <= |Frame(msg)|
    ensures |Frame(msg)[..p] + rest| >= 4 && Uint32((Frame(msg)[..p] + rest)[..4]) == |msg|
  {
    assert (Frame(msg)[..p] + rest)[..4] == PutUint32(|msg|);
    Uint32RoundTrip(|msg|);
  }

  /** A failed write after which no writer has taken the lock, on a connection whose messages have
      these sizes. */
  ghost predicate JustFailed(c: Channel, min: nat, limit: nat) {
    && ChannelInv(c) && c.failed.Some? && !LockedSinceFailure(c)
    && c.order != [] && Within(c.order, min, limit) && limit < UINT32
  }

  lemma SendsWithin(c: Channel, x: seq<byte>, y: seq<byte>, min: nat, limit: nat)
    requires c.holder == Free && Within(c.order, min, limit) && Within([x, y], min, limit)
    ensures NoFailure(Send(x) + Send(y)) && Within(Run(c, Send(x) + Send(y)).order, min, limit)
  {
    SentTwo(c, x, y);
  }

  /** Cut inside its body, the message takes the missing bytes from what follows. */
  lemma MisreadBody(c: Channel, x: seq<byte>, y: seq<byte>, min: nat, limit: nat)
    requires JustFailed(c, min, limit) && Within([x, y], min, limit)
    requires Cut(c) >= 4 && |x| != LastSize(c) <= |y|
    ensures !StaysOrderly(c, min, limit)
  {
    CutInside(c);
    assert |x| == |[x, y][0]| && |y| == |[x, y][1]|;
    BodyStart(c.order[|c.order| - 1], Cut(c), Frame(x) + Frame(y));
    Misread(c, x, y, LastSize(c), limit);
    SendsWithin(c, x, y, min, limit);
  }

  /** Cut inside its header, it takes a size from both headers. */
  lemma MisreadHeader(c: Channel, x: seq<byte>, y: seq<byte>, min: nat, limit: nat)
    requires JustFailed(c, min, limit) && Within([x, y], min, limit)
    requires 0 < Cut(c) < 4
    requires var size := MixedSize(LastSize(c), Cut(c), |x|);
      size != |x| && size <= limit && size <= |y|
    ensures !StaysOrderly(c, min, limit)
  {
    CutInside(c);
    assert |x| == |[x, y][0]| && |y| == |[x, y][1]|;
    MixedIs(c.order[|c.order| - 1], Cut(c), |x|);
    MixedStart(Piece(c), x, Frame(y));
    Misread(c, x, y, Mixed(Piece(c), |x|), limit);
    SendsWithin(c, x, y, min, limit);
  }

  lemma Powers()
    ensures Pow256(1) == 256 && Pow256(2) == 65536 && Pow256(3) == 16777216
  {}

  lemma SmallSizes(n: nat, p: nat)
    requires 0 < p < 4
    ensures MixedSize(n, p, 0) == n % Pow256(p) <= n
    ensures MixedSize(n, p, 1) == n % Pow256(p) + Pow256(p) && Pow256(p) >= 256
    ensures MixedSize(n, p, Pow256(4 - p)) == n % Pow256(p)
  {
    Powers();
  }

  lemma LargeSize(n: nat, p: nat, size: nat)
    requires 0 < p < 4 && 0 < size < Pow256(4 - p)
    ensures MixedSize(n, p, size) >= Pow256(p)
  {
    Powers();
  }

  lemma SealedSize(n: nat, p: nat, size: nat, limit: nat)
    requires SEALED_SIZE <= size <= limit && p > 0 && HarmlessIfSealed(n, p, limit)
    ensures MixedSize(n, p, size) > limit
  {
    Powers();
  }

  // ---- exactly when ----

  lemma OtherCutsGarble(c: Channel, limit: nat)
    requires JustFailed(c, 0, limit) && !Harmless(LastSize(c), Cut(c), limit)
    ensures !StaysOrderly(c, 0, limit)
  {
    CutInside(c);
    var n, p := LastSize(c), Cut(c);
    if p >= 4 {
      MisreadBody(c, [], Zeros(n), 0, limit);
    } else {
      SmallSizes(n, p);
      var x, y := HeaderGarblers(n, p, limit);
      MisreadHeader(c, x, y, 0, limit);
    }
  }

  lemma HeaderGarblers(n: nat, p: nat, limit: nat) returns (x: seq<byte>, y: seq<byte>)
    requires 0 < p < 4 && n <= limit && !Harmless(n, p, limit)
    ensures Within([x, y], 0, limit)
    ensures |x| != MixedSize(n, p, |x|) <= limit && MixedSize(n, p, |x|) <= |y|
  {
    SmallSizes(n, p);
    if n % Pow256(p) != 0 {
      x, y := [], Zeros(n);
    } else if limit >= Pow256(p) {
      x, y := Zeros(1), Zeros(Pow256(p));
    } else {
      x, y := Zeros(Pow256(4 - p)), [];
    }
  }

  lemma HarmlessKeeps(c: Channel, limit: nat)
    requires JustFailed(c, 0, limit) && Harmless(LastSize(c), Cut(c), limit)
    ensures StaysOrderly(c, 0, limit)
  {
    CutInside(c);
    forall more | NoFailure(more) && Within(Run(c, more).order, 0, limit)
      ensures Orderly(Run(c, more), limit)
    {
      AfterCut(c, more, 0, limit);
      var msgs := Run(IDLE, more).order;
      if Cut(c) == 0 {
        WireReads(msgs, limit);
        assert Piece(c) + Wire(msgs) == Wire(msgs);
      } else {
        ZeroStart(c.order[|c.order| - 1], Cut(c));
        forall i | 0 <= i < |msgs|
          ensures Mixed(Piece(c), |msgs[i]|) > limit || msgs[i] == []
        {
          MixedIs(c.order[|c.order| - 1], Cut(c), |msgs[i]|);
          if msgs[i] != [] {
            LargeSize(LastSize(c), Cut(c), |msgs[i]|);
          }
        }
        ShiftedReads(Piece(c), msgs, limit);
      }
      Kept(c, more, limit);
    }
  }

  lemma AfterCut(c: Channel, more: seq<Action>, min: nat, limit: nat)
    requires c.holder == Free && NoFailure(more) && Within(Run(c, more).order, min, limit)
    ensures Within(Run(IDLE, more).order, min, limit)
  {
    Resume(c, more);
    var msgs := Run(IDLE, more).order;
    assert forall i :: 0 <= i < |msgs| ==> msgs[i] == Run(c, more).order[|c.order| + i];
  }

  lemma ZeroStart(msg: seq<byte>, p: nat)
    requires |msg| < UINT32 && 0 < p < 4 && |msg| % Pow256(p) == 0
    ensures Frame(msg)[..p] == Zeros(p)
  {
    HeaderStart(msg, p);
    ZeroDigits(|msg|, p);
  }

  lemma {:induction false} ZeroDigits(n: nat, p: nat)
    requires p < 4 && n % Pow256(p) == 0
    ensures LittleEndian(n, p) == Zeros(p)
  {
    if p > 0 {
      Powers();
      ZeroDigits(n / 256, p - 1);
      assert [0] + Zeros(p - 1) == Zeros(p);
    }
  }

  /** Lock order is kept, in every continuation without a further failure whose messages a reader
      with this limit accepts, exactly if no write has failed or the cut it left is harmless. */
  lemma LockOrderKeptIff(actions: seq<Action>, limit: nat)
    requires !LockedSinceFailure(Run(IDLE, actions)) && Within(Run(IDLE, actions).order, 0, limit) && limit < UINT32
    ensures var c := Run(IDLE, actions);
      StaysOrderly(c, 0, limit) <==>
      c.failed == None || (c.order != [] && Harmless(LastSize(c), Cut(c), limit))
  {
    WritersKeepFraming(IDLE, actions);
    var c := Run(IDLE, actions);
    if c.failed == None {
      UnfailedKeeps(c, 0, limit);
    } else {
      CutInside(c);
      if Harmless(LastSize(c), Cut(c), limit) {
        HarmlessKeeps(c, limit);
      } else {
        OtherCutsGarble(c, limit);
      }
    }
  }

  lemma UnfailedKeeps(c: Channel, min: nat, limit: nat)
    requires ChannelInv(c) && c.failed == None && limit < UINT32
    ensures StaysOrderly(c, min, limit)
  {
    forall more | NoFailure(more) && Within(Run(c, more).order, min, limit)
      ensures Orderly(Run(c, more), limit)
    {
      StaysUnfailed(c, more);
      WritersKeepFraming(c, more);
      var c' := Run(c, more);
      WireIsPrefix(c');
      WireReads(c'.order, limit);
      forall n: nat, arrived | 0 <= arrived <= |c'.wire|
        ensures ReadMessages(c'.wire[..arrived], Limits(n, limit)).0 <= Done(c')
      {
        PrefixReads(c'.wire[..arrived], Wire(c'.order), Limits(n, limit));
      }
    }
  }

  /** A write that fails after n bytes leaves those bytes of its frame, behind the header if that
      was written. */
  lemma FailureCuts(actions: seq<Action>, w: nat, n: nat)
    requires var c := Run(IDLE, actions);
      c.failed == None && c.holder.Held? && c.holder.writer == w && n < |Part(c.holder)|
    ensures var c := Run(IDLE, actions);
      var c' := Step(c, Fail(w, n));
      && c'.failed.Some? && !LockedSinceFailure(c') && c'.order == c.order != []
      && LastSize(c') == |c.holder.msg| && Cut(c') == n + if c.holder.headerWritten then 4 else 0
  {
    WritersKeepFraming(IDLE, actions);
    var c := Run(IDLE, actions);
    LastFrame(c.order);
    assert |Part(c.holder)[..n]| == n;
  }

  lemma BodyFails(msg: seq<byte>)
    requires msg != []
    ensures Run(IDLE, [Lock(0, msg), WriteHeader(0), Fail(0, 0)]) == Channel(Header(msg), Free, [msg], Some(0))
  {
    var a := [Lock(0, msg), WriteHeader(0), Fail(0, 0)];
    assert a[..2][..1] == a[..1] && a[..1][..0] == [];
    assert Run(IDLE, a[..1]) == Step(IDLE, a[0]);
    assert Run(IDLE, a[..2]) == Channel([] + Header(msg), Held(0, msg, true), [] + [msg], None);
  }

  lemma Behind(header: seq<byte>, next: seq<byte>)
    requires |header| == 4
    ensures (header + next)[..4] == header && (header + next)[4..] == next
  {}

  lemma ReadBehind(header: seq<byte>, next: seq<byte>, size: nat, limit: nat)
    requires |header| == 4 && Uint32(header) == size <= limit && size <= |next|
    ensures ReadFrame(header + next, limit) == Ok(next[..size], next[size..])
  {
    Behind(header, next);
    ReadBySize(header + next, size, limit);
  }

  lemma HeaderThen(msg: seq<byte>, next: seq<byte>, limit: nat)
    requires |msg| <= limit < UINT32 && |msg| <= |next|
    ensures ReadFrame(Header(msg) + next, limit) == Ok(next[..|msg|], next[|msg|..])
  {
    Uint32RoundTrip(|msg|);
    ReadBehind(Header(msg), next, |msg|, limit);
  }

  /** Such a run: a write fails between header and body, and a reader takes the next two frames for
      the missing body. */
  lemma CutMessageIsMisread(msg: seq<byte>, x: seq<byte>, y: seq<byte>, limit: nat)
    requires 0 < |msg| <= limit < UINT32 && |msg| <= |Frame(x) + Frame(y)|
    ensures var c := Run(Run(IDLE, [Lock(0, msg), WriteHeader(0), Fail(0, 0)]), Send(x) + Send(y));
      Done(c) == [x, y] && ReadMessages(c.wire, [limit]).0 == [(Frame(x) + Frame(y))[..|msg|]]
  {
    BodyFails(msg);
    SentTwo(Channel(Header(msg), Free, [msg], Some(0)), x, y);
    var next := Frame(x) + Frame(y);
    HeaderThen(msg, next, limit);
    ReadOne(Header(msg) + next, [limit], next[..|msg|], next[|msg|..]);
  }

  // ---- sealed messages ----

  lemma SealedCutsGarble(c: Channel, limit: nat)
    requires JustFailed(c, SEALED_SIZE, limit) && limit >= 1024 && !HarmlessIfSealed(LastSize(c), Cut(c), limit)
    ensures !StaysOrderly(c, SEALED_SIZE, limit)
  {
    CutInside(c);
    var n, p := LastSize(c), Cut(c);
    if p >= 4 {
      MisreadBody(c, Zeros(if n == SEALED_SIZE then SEALED_SIZE + 1 else SEALED_SIZE), Zeros(n), SEALED_SIZE, limit);
    } else {
      var x := SealedGarbler(n, p, limit);
      MisreadHeader(c, x, Zeros(limit), SEALED_SIZE, limit);
    }
  }

  lemma SealedGarbler(n: nat, p: nat, limit: nat) returns (x: seq<byte>)
    requires 0 < p < 4 && n <= limit && limit >= 1024 && !HarmlessIfSealed(n, p, limit)
    ensures SEALED_SIZE <= |x| <= limit && |x| != MixedSize(n, p, |x|) <= limit
  {
    Powers();
    x := Zeros(if p == 1 then SEALED_SIZE else if p == 2 then 65536 else if n % Pow256(3) == 256 then 512 else 256);
  }

  lemma HarmlessKeepsSealed(c: Channel, limit: nat)
    requires JustFailed(c, SEALED_SIZE, limit) && limit >= 1024 && HarmlessIfSealed(LastSize(c), Cut(c), limit)
    ensures StaysOrderly(c, SEALED_SIZE, limit)
  {
    CutInside(c);
    forall more | NoFailure(more) && Within(Run(c, more).order, SEALED_SIZE, limit)
      ensures Orderly(Run(c, more), limit)
    {
      AfterCut(c, more, SEALED_SIZE, limit);
      var msgs := Run(IDLE, more).order;
      if Cut(c) == 0 {
        WireReads(msgs, limit);
        assert Piece(c) + Wire(msgs) == Wire(msgs);
      } else {
        forall i | 0 <= i < |msgs|
          ensures Mixed(Piece(c), |msgs[i]|) > limit
        {
          MixedIs(c.order[|c.order| - 1], Cut(c), |msgs[i]|);
          SealedSize(LastSize(c), Cut(c), |msgs[i]|, limit);
        }
        ShiftedReads(Piece(c), msgs, limit);
      }
      Kept(c, more, limit);
    }
  }

  /** The same for the sealed messages of a session and any limit its reader can have. */
  lemma SealedOrderKeptIff(actions: seq<Action>, mtu: nat)
    requires mtu + MAX_SESSION_MSG_OVERHEAD < UINT32 && !LockedSinceFailure(Run(IDLE, actions))
    requires Within(Run(IDLE, actions).order, SEALED_SIZE, mtu + MAX_SESSION_MSG_OVERHEAD)
    ensures var c, limit := Run(IDLE, actions), mtu + MAX_SESSION_MSG_OVERHEAD;
      StaysOrderly(c, SEALED_SIZE, limit) <==>
      c.failed == None || (c.order != [] && HarmlessIfSealed(LastSize(c), Cut(c), limit))
  {
    WritersKeepFraming(IDLE, actions);
    var c, limit := Run(IDLE, actions), mtu + MAX_SESSION_MSG_OVERHEAD;
    if c.failed == None {
      UnfailedKeeps(c, SEALED_SIZE, limit);
    } else {
      CutInside(c);
      if HarmlessIfSealed(LastSize(c), Cut(c), limit) {
        HarmlessKeepsSealed(c, limit);
      } else {
        SealedCutsGarble(c, limit);
      }
    }
  }
}
