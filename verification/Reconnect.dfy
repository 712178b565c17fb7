/** The reconnect loops of a dialed session (client.go) and of a dialed UDP session (udp.go). One
    round starts when a connection is lost. The results of the attempts are an input; a list
    that ends while the loop still wants to try leaves the round pending. */
module Reconnect {

  /** `NoAddress`: the peer announced too few addresses, and reconnect returns neither a
      connection nor an error. `SessionClosed`: the peer or the client is gone for good. */
  datatype Attempt = Connected | NoAddress | SessionClosed | Failed

  datatype Next = Monitor | Stop | Pending

  // ---- the documented rule ----

  predicate Ends(a: Attempt) {
    a == Connected || a == SessionClosed
  }

  /** Index of the first attempt that satisfies p, or the number of attempts. */
  function First(attempts: seq<Attempt>, p: Attempt -> bool): (i: nat)
    ensures i <= |attempts|
    ensures i < |attempts| ==> p(attempts[i])
    ensures forall j :: 0 <= j < i ==> !p(attempts[j])
  {
    if attempts == [] || p(attempts[0]) then 0 else 1 + First(attempts[1..], p)
  }

  /** How many of the listed attempts are made at most. */
  function Allowed(retries: int, attempts: seq<Attempt>): nat {
    if retries < 0 || |attempts| < retries then |attempts| else retries
  }

  predicate OutOfRetries(retries: int, attempts: seq<Attempt>) {
    0 <= retries <= |attempts|
  }

  /** "Negative: unlimited retries, 0: no reconnect, positive: limit": attempts go on until one
      connects, the session is closed or the allowed ones are used up. */
  function Documented(retries: int, attempts: seq<Attempt>): Next {
    var i := First(attempts, Ends);
    if i < Allowed(retries, attempts) then (if attempts[i] == Connected then Monitor else Stop)
    else if OutOfRetries(retries, attempts) then Stop
    else Pending
  }

  predicate NotFailed(a: Attempt) {
    a != Failed
  }

  /** The attempt that ends the inner loop of a round: the first that is no plain failure. */
  predicate EndedBy(retries: int, attempts: seq<Attempt>, a: Attempt) {
    var i := First(attempts, NotFailed);
    i < Allowed(retries, attempts) && attempts[i] == a
  }

  /** A later allowed attempt finds the session closed, or none of them connects and all are used up. */
  predicate StopsAnyway(retries: int, attempts: seq<Attempt>) {
    var i := First(attempts, Ends);
    if i < Allowed(retries, attempts) then attempts[i] == SessionClosed else OutOfRetries(retries, attempts)
  }

  /** A round of the TCP loop follows the documentation, except that it ends with the first
      attempt that found no address: then it agrees exactly if it would have stopped anyway. */
  method TcpRound(retries: int, attempts: seq<Attempt>) returns (next: Next)
    ensures next == Documented(retries, attempts) <==>
      || !EndedBy(retries, attempts, NoAddress)
      || StopsAnyway(retries, attempts)
    ensures EndedBy(retries, attempts, NoAddress) ==> next == Stop
  {
    if retries == 0 {
      return Stop;
    }
    var connected := true;
    var j := 0;
    while retries < 0 || j < retries
      invariant 0 <= j <= |attempts|
      invariant retries > 0 ==> j <= retries
      invariant forall i :: 0 <= i < j ==> attempts[i] == Failed
      invariant j > 0 ==> !connected
      decreases |attempts| - j
    {
      if j == |attempts| {
        return Pending;
      }
      match attempts[j] {
        case Connected => connected := true; break;
        case NoAddress => connected := false; break;
        case SessionClosed => return Stop;
        case Failed => connected := false;
      }
      j := j + 1;
    }
    return if connected then Monitor else Stop;
  }

  /** Unlimited retries, and one announcement with too few addresses ends them. */
  method NoAddressEndsUnlimitedRetries() returns (next: Next)
    ensures next == Stop && Documented(-1, [NoAddress, Connected]) == Monitor
  {
    next := TcpRound(-1, [NoAddress, Connected]);
  }

  /** A round of the UDP loop follows the documentation exactly when retries are limited or no
      attempt connects: after unlimited retries a new connection is not monitored. */
  method UdpRound(retries: int, attempts: seq<Attempt>) returns (next: Next)
    requires NoAddress !in attempts
    ensures next == Documented(retries, attempts) <==> retries >= 0 || !EndedBy(retries, attempts, Connected)
    ensures retries < 0 && EndedBy(retries, attempts, Connected) ==> next == Stop
  {
    if retries == 0 {
      return Stop;
    }
    var j := 0;
    while retries < 0 || j < retries
      invariant 0 <= j <= |attempts|
      invariant retries > 0 ==> j <= retries
      invariant forall i :: 0 <= i < j ==> attempts[i] == Failed
      decreases |attempts| - j
    {
      if j == |attempts| {
        return Pending;
      }
      if attempts[j] == Connected {
        break;
      }
      if attempts[j] == SessionClosed {
        return Stop;
      }
      j := j + 1;
    }
    return if j >= retries then Stop else Monitor;
  }

  /** Unlimited retries, the first attempt connects, and the new connection is not monitored. */
  method UnlimitedRetriesEndAtOnce() returns (next: Next)
    ensures next == Stop && Documented(-1, [Connected]) == Monitor
  {
    next := UdpRound(-1, [Connected]);
  }
}
