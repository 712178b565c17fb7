/** The hedged address request of getPubAddrsFromRemote (client.go): staggered senders, one
    one-slot channel for a reply and one for an error, and a context derived from the caller's
    that the first reply cancels. Steps of the senders interleave freely, the caller's context
    may end at any time, and the caller collects once every sender is done. */
module Hedge {
  import opened Options

  type Reply = nat
  type Error = nat

  /** `Got` and `Failed` hold a result not yet offered to its channel; `Cancelling` has
      offered its reply and is about to cancel the shared context. */
  datatype Pc = Waiting | Sending | Awaiting | Failed(err: Error) | Got(msg: Reply) | Cancelling | Done

  datatype State = State(
    senders: seq<Pc>,
    msgChan: Option<Reply>,
    errChan: Option<Error>,
    cancelled: bool,
    parentDone: bool)

  datatype Action =
    | Fire(i: nat)
    | SendOk(i: nat)
    | SendFails(i: nat, err: Error)
    | OfferError(i: nat)
    | Receive(i: nat, msg: Reply)
    | OfferReply(i: nat)
    | Cancel(i: nat)
    | GiveUp(i: nat)
    | ParentEnds

  function Init(n: nat): State {
    State(seq(n, _ => Waiting), None, None, false, false)
  }

  /** The derived context is done when it was cancelled or its parent is done. */
  predicate ContextDone(s: State) {
    s.cancelled || s.parentDone
  }

  predicate At(s: State, i: nat, pc: Pc) {
    i < |s.senders| && s.senders[i] == pc
  }

  predicate Enabled(s: State, a: Action) {
    match a
    case Fire(i) => At(s, i, Waiting)
    case SendOk(i) => At(s, i, Sending)
    case SendFails(i, _) => At(s, i, Sending)
    case OfferError(i) => i < |s.senders| && s.senders[i].Failed?
    case Receive(i, _) => At(s, i, Awaiting)
    case OfferReply(i) => i < |s.senders| && s.senders[i].Got?
    case Cancel(i) => At(s, i, Cancelling)
    case GiveUp(i) => (At(s, i, Waiting) || At(s, i, Awaiting)) && ContextDone(s)
    case ParentEnds => !s.parentDone
  }

  function Move(s: State, i: nat, pc: Pc): State
    requires i < |s.senders|
  {
    s.(senders := s.senders[i := pc])
  }

  /** A send to a full channel is dropped. */
  function Offer<T>(channel: Option<T>, v: T): Option<T> {
    if channel == None then Some(v) else channel
  }

  function Step(s: State, a: Action): State {
    if !Enabled(s, a) then s else
    match a
    case Fire(i) => Move(s, i, Sending)
    case SendOk(i) => Move(s, i, Awaiting)
    case SendFails(i, err) => Move(s, i, Failed(err))
    case OfferError(i) => Move(s, i, Done).(errChan := Offer(s.errChan, s.senders[i].err))
    case Receive(i, msg) => Move(s, i, Got(msg))
    case OfferReply(i) => Move(s, i, Cancelling).(msgChan := Offer(s.msgChan, s.senders[i].msg))
    case Cancel(i) => Move(s, i, Done).(cancelled := true)
    case GiveUp(i) => Move(s, i, Done)
    case ParentEnds => s.(parentDone := true)
  }

  function Run(n: nat, actions: seq<Action>): State {
    if actions == [] then Init(n)
    else Step(Run(n, actions[..|actions| - 1]), actions[|actions| - 1])
  }

  // ---- collection ----

  /** NilError is a nil message together with a nil error. */
  datatype Outcome = Message(msg: Reply) | SendError(err: Error) | ContextError | NilError

  predicate AllDone(s: State) {
    forall i :: 0 <= i < |s.senders| ==> s.senders[i] == Done
  }

  function Collect(s: State): Outcome {
    match s.msgChan
    case Some(msg) => Message(msg)
    case None =>
      match s.errChan
      case Some(err) => SendError(err)
      case None => if s.parentDone then ContextError else NilError
  }

  // ---- what was seen during a run ----

  /** The replies received and the errors returned by the senders, in order. */
  ghost function Replies(n: nat, actions: seq<Action>): seq<Reply> {
    if actions == [] then []
    else
      var front, last := actions[..|actions| - 1], actions[|actions| - 1];
      Replies(n, front) + if last.Receive? && Enabled(Run(n, front), last) then [last.msg] else []
  }

  ghost function Errors(n: nat, actions: seq<Action>): seq<Error> {
    if actions == [] then []
    else
      var front, last := actions[..|actions| - 1], actions[|actions| - 1];
      Errors(n, front) + if last.SendFails? && Enabled(Run(n, front), last) then [last.err] else []
  }

  /** A stored reply or error is one that was seen, and so is one on its way to a channel. */
  ghost predicate Sound(s: State, replies: seq<Reply>, errors: seq<Error>) {
    && (s.msgChan.Some? ==> s.msgChan.value in replies)
    && (s.errChan.Some? ==> s.errChan.value in errors)
    && (forall i :: 0 <= i < |s.senders| && s.senders[i].Got? ==> s.senders[i].msg in replies)
    && (forall i :: 0 <= i < |s.senders| && s.senders[i].Failed? ==> s.senders[i].err in errors)
  }

  /** If one was seen, one is stored or on its way. */
  ghost predicate Kept(s: State, replies: seq<Reply>, errors: seq<Error>) {
    && (replies != [] ==> s.msgChan.Some? || exists i :: 0 <= i < |s.senders| && s.senders[i].Got?)
    && (errors != [] ==> s.errChan.Some? || exists i :: 0 <= i < |s.senders| && s.senders[i].Failed?)
  }

  /** The context is cancelled only with a reply stored, so a sender that is done left something
      behind or saw the caller's context end. */
  ghost predicate Justified(s: State) {
    && (s.cancelled ==> s.msgChan.Some?)
    && (forall i :: 0 <= i < |s.senders| && s.senders[i].Cancelling? ==> s.msgChan.Some?)
    && (forall i :: 0 <= i < |s.senders| && s.senders[i].Done? ==> s.msgChan.Some? || s.errChan.Some? || s.parentDone)
  }

  ghost predicate Inv(s: State, replies: seq<Reply>, errors: seq<Error>) {
    Sound(s, replies, errors) && Kept(s, replies, errors) && Justified(s)
  }

  ghost function NewReplies(a: Action): seq<Reply> {
    if a.Receive? then [a.msg] else []
  }

  ghost function NewErrors(a: Action): seq<Error> {
    if a.SendFails? then [a.err] else []
  }

  lemma StepKeepsSound(s: State, a: Action, replies: seq<Reply>, errors: seq<Error>)
    requires Sound(s, replies, errors) && Enabled(s, a)
    ensures Sound(Step(s, a), replies + NewReplies(a), errors + NewErrors(a))
  {}

  lemma StepKeepsKept(s: State, a: Action, replies: seq<Reply>, errors: seq<Error>)
    requires Kept(s, replies, errors) && Enabled(s, a)
    ensures Kept(Step(s, a), replies + NewReplies(a), errors + NewErrors(a))
  {
    var s' := Step(s, a);
    if a != ParentEnds {
      assert forall j :: 0 <= j < |s.senders| && j != a.i ==> s'.senders[j] == s.senders[j];
      assert a.Receive? ==> s'.senders[a.i].Got?;
      assert a.SendFails? ==> s'.senders[a.i].Failed?;
    }
  }

  lemma StepKeepsJustified(s: State, a: Action)
    requires Justified(s) && Enabled(s, a)
    ensures Justified(Step(s, a))
  {}

  lemma {:induction false} RunInv(n: nat, actions: seq<Action>)
    ensures |Run(n, actions).senders| == n
    ensures Inv(Run(n, actions), Replies(n, actions), Errors(n, actions))
  {
    if actions != [] {
      var front, last := actions[..|actions| - 1], actions[|actions| - 1];
      RunInv(n, front);
      if Enabled(Run(n, front), last) {
        StepKeepsSound(Run(n, front), last, Replies(n, front), Errors(n, front));
        StepKeepsKept(Run(n, front), last, Replies(n, front), Errors(n, front));
        StepKeepsJustified(Run(n, front), last);
      }
      assert Replies(n, front) + [] == Replies(n, front) && Errors(n, front) + [] == Errors(n, front);
    }
  }

  ghost predicate Faithful(s: State, replies: seq<Reply>, errors: seq<Error>) {
    var outcome := Collect(s);
    && (outcome.Message? <==> replies != [])
    && (outcome.Message? ==> outcome.msg in replies)
    && (outcome.SendError? <==> replies == [] && errors != [])
    && (outcome.SendError? ==> outcome.err in errors)
    && (s.senders != [] ==> (outcome.ContextError? <==> replies == [] && errors == []))
    && (outcome.NilError? <==> s.senders == [] && !s.parentDone)
  }

  lemma DoneIsFaithful(s: State, replies: seq<Reply>, errors: seq<Error>)
    requires AllDone(s) && Inv(s, replies, errors)
    requires s.senders == [] ==> s.msgChan == None && s.errChan == None
    ensures Faithful(s, replies, errors)
  {
    if s.senders != [] {
      assert s.senders[0].Done?;
    }
  }

  lemma {:induction false} NoSenders(actions: seq<Action>)
    ensures Run(0, actions).msgChan == None && Run(0, actions).errChan == None && Run(0, actions).senders == []
  {
    if actions != [] {
      NoSenders(actions[..|actions| - 1]);
    }
  }

  /** The collection yields a message exactly when some sender received a reply, and then one
      of those replies; a send error exactly when there was none and some send failed; the
      caller's context error exactly when there was neither. With at least one sender it never
      returns nothing at all. */
  lemma Outcomes(n: nat, actions: seq<Action>)
    requires AllDone(Run(n, actions))
    ensures |Run(n, actions).senders| == n
    ensures Faithful(Run(n, actions), Replies(n, actions), Errors(n, actions))
  {
    RunInv(n, actions);
    NoSenders(actions);
    DoneIsFaithful(Run(n, actions), Replies(n, actions), Errors(n, actions));
  }

  // ---- progress ----

  function StepsLeft(pc: Pc): nat {
    match pc
    case Waiting => 5
    case Sending => 4
    case Awaiting => 3
    case Got(_) => 2
    case Cancelling => 1
    case Failed(_) => 1
    case Done => 0
  }

  function TotalLeft(senders: seq<Pc>): nat {
    if senders == [] then 0 else StepsLeft(senders[0]) + TotalLeft(senders[1..])
  }

  lemma {:induction false} TotalLeftAfter(senders: seq<Pc>, i: nat, pc: Pc)
    requires i < |senders|
    ensures TotalLeft(senders[i := pc]) == TotalLeft(senders) - StepsLeft(senders[i]) + StepsLeft(pc)
  {
    if i > 0 {
      TotalLeftAfter(senders[1..], i - 1, pc);
      assert senders[i := pc][1..] == senders[1..][i - 1 := pc];
    } else {
      assert senders[i := pc][1..] == senders[1..];
    }
  }

  function Taken(n: nat, actions: seq<Action>): nat {
    if actions == [] then 0
    else
      var front, last := actions[..|actions| - 1], actions[|actions| - 1];
      Taken(n, front) + if last != ParentEnds && Enabled(Run(n, front), last) then 1 else 0
  }

  lemma {:induction false} InitialSteps(n: nat)
    ensures TotalLeft(Init(n).senders) == 5 * n
  {
    if n > 0 {
      assert Init(n).senders[1..] == Init(n - 1).senders;
      InitialSteps(n - 1);
    }
  }

  lemma StepCosts(s: State, a: Action)
    ensures TotalLeft(Step(s, a).senders) + (if a != ParentEnds && Enabled(s, a) then 1 else 0) <= TotalLeft(s.senders)
  {
    if a != ParentEnds && Enabled(s, a) {
      TotalLeftAfter(s.senders, a.i, Step(s, a).senders[a.i]);
    }
  }

  /** Every run makes at most five sender steps per sender. */
  lemma {:induction false} SendersFinish(n: nat, actions: seq<Action>)
    ensures Taken(n, actions) + TotalLeft(Run(n, actions).senders) <= 5 * n
  {
    if actions == [] {
      InitialSteps(n);
    } else {
      var front, last := actions[..|actions| - 1], actions[|actions| - 1];
      SendersFinish(n, front);
      var s := Run(n, front);
      StepCosts(s, last);
    }
  }

  /** A step that a sender makes by itself: neither its timer, nor a reply, nor the end of the
      caller's context is needed. */
  predicate OwnStep(a: Action) {
    !a.Fire? && !a.Receive? && !a.ParentEnds?
  }

  /** No sender can move by itself. */
  ghost predicate Blocked(s: State) {
    forall a :: OwnStep(a) ==> !Enabled(s, a)
  }

  function NextStep(i: nat, pc: Pc): (a: Action)
    requires pc != Done
    ensures OwnStep(a)
  {
    match pc
    case Waiting => GiveUp(i)
    case Sending => SendOk(i)
    case Awaiting => GiveUp(i)
    case Failed(_) => OfferError(i)
    case Got(_) => OfferReply(i)
    case Cancelling => Cancel(i)
  }

  /** The senders come to rest exactly when each is done, or waits for its timer or a reply with
      the context still open. So the wait may last for ever with the context open, and with the
      context done only the done are at rest. */
  lemma BlockedIff(s: State)
    ensures Blocked(s) <==> forall i :: 0 <= i < |s.senders| ==>
      s.senders[i] == Done || (!ContextDone(s) && (s.senders[i] == Waiting || s.senders[i] == Awaiting))
  {
    if Blocked(s) {
      forall i | 0 <= i < |s.senders| && s.senders[i] != Done
        ensures !ContextDone(s) && (s.senders[i] == Waiting || s.senders[i] == Awaiting)
      {
        assert !Enabled(s, NextStep(i, s.senders[i]));
      }
    }
  }

  lemma NextStepProgresses(s: State, i: nat)
    requires ContextDone(s) && i < |s.senders| && s.senders[i] != Done
    ensures var s' := Step(s, NextStep(i, s.senders[i]));
      ContextDone(s') && TotalLeft(s'.senders) < TotalLeft(s.senders)
  {
    StepCosts(s, NextStep(i, s.senders[i]));
  }

  lemma RunSnoc(n: nat, actions: seq<Action>, a: Action)
    ensures Run(n, actions + [a]) == Step(Run(n, actions), a)
  {
    assert (actions + [a])[..|actions|] == actions;
  }

  /** Once the context is done, the senders' own steps alone end the wait for them, whatever the
      run before. */
  lemma WaitEnds(n: nat, actions: seq<Action>) returns (more: seq<Action>)
    requires ContextDone(Run(n, actions))
    ensures forall a :: a in more ==> OwnStep(a)
    ensures AllDone(Run(n, actions + more))
  {
    more := [];
    assert actions + more == actions;
    var s := Run(n, actions);
    while !AllDone(s)
      invariant s == Run(n, actions + more) && ContextDone(s)
      invariant forall a :: a in more ==> OwnStep(a)
      decreases TotalLeft(s.senders)
    {
      var i :| 0 <= i < |s.senders| && s.senders[i] != Done;
      var a := NextStep(i, s.senders[i]);
      NextStepProgresses(s, i);
      RunSnoc(n, actions + more, a);
      assert actions + (more + [a]) == actions + more + [a];
      s, more := Step(s, a), more + [a];
    }
  }

  // ---- a reply ends the wait ----

  predicate BringsReply(pc: Pc) {
    pc.Got? || pc.Cancelling?
  }

  /** The context is cancelled, or a sender is on its way to do so. */
  ghost predicate Ending(s: State) {
    s.cancelled || exists i :: 0 <= i < |s.senders| && BringsReply(s.senders[i])
  }

  lemma StepKeepsEnding(s: State, a: Action)
    requires Enabled(s, a) && (Ending(s) || a.Receive?)
    ensures Ending(Step(s, a))
  {
    var s' := Step(s, a);
    if a.Receive? || a.OfferReply? {
      assert BringsReply(s'.senders[a.i]);
    } else if !s.cancelled {
      var i :| 0 <= i < |s.senders| && BringsReply(s.senders[i]);
      assert a == Cancel(i) || s'.senders[i] == s.senders[i];
    }
  }

  lemma {:induction false} ReplyIsEnding(n: nat, actions: seq<Action>)
    requires Replies(n, actions) != []
    ensures Ending(Run(n, actions))
  {
    var front, last := actions[..|actions| - 1], actions[|actions| - 1];
    if Enabled(Run(n, front), last) && (Replies(n, front) != [] || last.Receive?) {
      if Replies(n, front) != [] {
        ReplyIsEnding(n, front);
      }
      StepKeepsEnding(Run(n, front), last);
    } else {
      ReplyIsEnding(n, front);
    }
  }

  /** The sender that has a reply gets the context cancelled by its own steps. */
  lemma {:induction false} EndingCancels(n: nat, actions: seq<Action>) returns (more: seq<Action>)
    requires Ending(Run(n, actions))
    ensures forall a :: a in more ==> OwnStep(a)
    ensures ContextDone(Run(n, actions + more))
  {
    var s := Run(n, actions);
    more := [];
    assert actions + more == actions;
    if !s.cancelled {
      var i :| 0 <= i < |s.senders| && BringsReply(s.senders[i]);
      if s.senders[i].Got? {
        RunSnoc(n, actions, OfferReply(i));
        RunSnoc(n, actions + [OfferReply(i)], Cancel(i));
        more := [OfferReply(i), Cancel(i)];
        assert actions + more == actions + [OfferReply(i)] + [Cancel(i)];
      } else {
        RunSnoc(n, actions, Cancel(i));
        more := [Cancel(i)];
      }
    }
  }

  /** What the hedge is for: once any sender has received a reply, the senders' own steps alone end
      the wait, with nothing more from the network, the timers or the caller. */
  lemma {:induction false} ReplyEndsWait(n: nat, actions: seq<Action>) returns (more: seq<Action>)
    requires Replies(n, actions) != []
    ensures forall a :: a in more ==> OwnStep(a)
    ensures AllDone(Run(n, actions + more))
  {
    ReplyIsEnding(n, actions);
    var cancel := EndingCancels(n, actions);
    var rest := WaitEnds(n, actions + cancel);
    more := cancel + rest;
    assert actions + cancel + rest == actions + more;
  }

  // ---- where each sender stands ----

  /** What a sender's own event means for it. */
  function After(a: Action): Pc {
    match a
    case Fire(_) => Sending
    case SendOk(_) => Awaiting
    case SendFails(_, err) => Failed(err)
    case Receive(_, msg) => Got(msg)
    case OfferReply(_) => Cancelling
    case _ => Done
  }

  /** Told from the last event of the sender. */
  ghost function PcTold(n: nat, actions: seq<Action>, i: nat): Pc {
    if actions == [] then Waiting
    else
      var front, last := actions[..|actions| - 1], actions[|actions| - 1];
      if last != ParentEnds && last.i == i && Enabled(Run(n, front), last) then After(last) else PcTold(n, front, i)
  }

  lemma {:induction false} SendersAreTold(n: nat, actions: seq<Action>, i: nat)
    requires i < n
    ensures |Run(n, actions).senders| == n && Run(n, actions).senders[i] == PcTold(n, actions, i)
  {
    if actions != [] {
      SendersAreTold(n, actions[..|actions| - 1], i);
    }
  }

  /** A sender waits for a reply, or has one, only after its timer fired and its request was sent. */
  lemma {:induction false} ReplyNeedsSend(n: nat, actions: seq<Action>, i: nat)
    requires i < n
    ensures var pc := PcTold(n, actions, i);
      && (pc != Waiting && pc != Done ==> Fire(i) in actions)
      && (pc == Awaiting || BringsReply(pc) ==> SendOk(i) in actions)
  {
    if actions != [] {
      var front, last := actions[..|actions| - 1], actions[|actions| - 1];
      assert actions == front + [last];
      SendersAreTold(n, front, i);
      ReplyNeedsSend(n, front, i);
    }
  }

  // ---- the channels and the context ----

  /** The replies in the order in which their senders offered them. */
  ghost function Offered(n: nat, actions: seq<Action>): seq<Reply> {
    if actions == [] then []
    else
      var front, last := actions[..|actions| - 1], actions[|actions| - 1];
      var pc := if last.OfferReply? then PcTold(n, front, last.i) else Waiting;
      Offered(n, front) + if last.OfferReply? && last.i < n && pc.Got? then [pc.msg] else []
  }

  ghost function OfferedErrors(n: nat, actions: seq<Action>): seq<Error> {
    if actions == [] then []
    else
      var front, last := actions[..|actions| - 1], actions[|actions| - 1];
      var pc := if last.OfferError? then PcTold(n, front, last.i) else Waiting;
      OfferedErrors(n, front) + if last.OfferError? && last.i < n && pc.Failed? then [pc.err] else []
  }

  function First<T>(s: seq<T>): Option<T> {
    if s == [] then None else Some(s[0])
  }

  /** The first of each kind is kept, later ones are dropped. */
  lemma {:induction false} FirstOfferIsKept(n: nat, actions: seq<Action>)
    ensures Run(n, actions).msgChan == First(Offered(n, actions))
    ensures Run(n, actions).errChan == First(OfferedErrors(n, actions))
  {
    if actions != [] {
      var front, last := actions[..|actions| - 1], actions[|actions| - 1];
      FirstOfferIsKept(n, front);
      RunInv(n, front);
      if last != ParentEnds && last.i < n {
        SendersAreTold(n, front, last.i);
      }
      StepChannels(Run(n, front), last, Offered(n, front), OfferedErrors(n, front));
    }
  }

  lemma StepChannels(s: State, a: Action, offered: seq<Reply>, errors: seq<Error>)
    requires s.msgChan == First(offered) && s.errChan == First(errors)
    ensures Step(s, a).msgChan ==
      First(offered + if a.OfferReply? && Enabled(s, a) then [s.senders[a.i].msg] else [])
    ensures Step(s, a).errChan ==
      First(errors + if a.OfferError? && Enabled(s, a) then [s.senders[a.i].err] else [])
  {
    assert offered + [] == offered && errors + [] == errors;
  }

  /** The context is done exactly if the caller's has ended or a sender with a reply has cancelled it. */
  lemma {:induction false} ContextIsTold(n: nat, actions: seq<Action>)
    ensures Run(n, actions).parentDone <==> ParentEnds in actions
    ensures Run(n, actions).cancelled <==>
      exists k :: 0 <= k < |actions| && actions[k].Cancel? && Enabled(Run(n, actions[..k]), actions[k])
  {
    if actions != [] {
      var front, last := actions[..|actions| - 1], actions[|actions| - 1];
      assert actions == front + [last];
      ContextIsTold(n, front);
      assert forall k :: 0 <= k < |front| ==> front[..k] == actions[..k] && front[k] == actions[k];
      assert actions[..|front|] == front && actions[|front|] == last;
      StepContext(Run(n, front), last);
      if Run(n, front).cancelled {
        var k :| 0 <= k < |front| && front[k].Cancel? && Enabled(Run(n, front[..k]), front[k]);
        assert actions[k].Cancel? && Enabled(Run(n, actions[..k]), actions[k]);
      }
    }
  }

  lemma StepContext(s: State, a: Action)
    ensures Step(s, a).parentDone <==> s.parentDone || a == ParentEnds
    ensures Step(s, a).cancelled <==> s.cancelled || (a.Cancel? && Enabled(s, a))
  {}
}
