/** Session keys and connection identifiers (util.go), and the list of connection
    identifiers a dialer hands to its new session (client.go). */
module Keys {

  import opened Options

  type byte = x: int | 0 <= x < 256

  const DIGITS := "0123456789abcdef"

  /** The value of a digit, by its character code. */
  function DigitValue(c: char): int {
    if '0' <= c <= '9' then c as int - '0' as int
    else if 'a' <= c <= 'f' then c as int - 'a' as int + 10
    else -1
  }

  function Digit(i: nat): (c: char)
    requires i < 16
    ensures DigitValue(c) == i
  {
    DIGITS[i]
  }

  /** Lower-case hexadecimal, two digits per byte, high digit first. */
  function Hex(bytes: seq<byte>): (s: string)
    ensures |s| == 2 * |bytes|
    ensures ':' !in s
  {
    if bytes == [] then []
    else [Digit(bytes[0] / 16), Digit(bytes[0] % 16)] + Hex(bytes[1..])
  }

  function SessionKey(remoteAddr: string, sessionID: seq<byte>): string {
    remoteAddr + ":" + Hex(sessionID)
  }

  /** Decimal text, without leading zeros. */
  function Decimal(n: nat): (s: string)
    ensures |s| > 0 && s[0] != '-' && ':' !in s
    ensures s[0] == '0' ==> n == 0 && |s| == 1
  {
    if n < 10 then [Digit(n)] else Decimal(n / 10) + [Digit(n % 10)]
  }

  /** Decimal text of an index, with a leading minus sign when it is negative. */
  function ConnID(i: int): string {
    if i < 0 then "-" + Decimal(-i) else Decimal(i)
  }

  // ---- reading them back ----

  function ParseHex(s: string): Option<seq<byte>> {
    if s == [] then Some([])
    else if |s| == 1 then None
    else
      var high, low, rest := DigitValue(s[0]), DigitValue(s[1]), ParseHex(s[2..]);
      if 0 <= high < 16 && 0 <= low < 16 && rest.Some? then Some([16 * high + low] + rest.value) else None
  }

  function ParseDecimal(s: string): Option<nat> {
    if s == [] then None
    else
      var digit := DigitValue(s[|s| - 1]);
      if !(0 <= digit < 10) then None
      else if |s| == 1 then Some(digit)
      else
        var rest := ParseDecimal(s[..|s| - 1]);
        if rest.Some? then Some(10 * rest.value + digit) else None
  }

  function ParseInt(s: string): Option<int> {
    var negative := s != [] && s[0] == '-';
    var n: Option<nat> := ParseDecimal(if negative then s[1..] else s);
    if n == None then None
    else
      var value: int := if negative then 0 - n.value else n.value;
      Some(value)
  }

  /** What stands before and after the last colon. */
  function SplitLast(s: string): Option<(string, string)> {
    if s == [] then None
    else if s[|s| - 1] == ':' then Some((s[..|s| - 1], []))
    else
      var front := SplitLast(s[..|s| - 1]);
      if front.Some? then Some((front.value.0, front.value.1 + [s[|s| - 1]])) else None
  }

  lemma HexPair(s: string)
    requires |s| >= 2 && 0 <= DigitValue(s[0]) < 16 && 0 <= DigitValue(s[1]) < 16 && ParseHex(s[2..]).Some?
    ensures ParseHex(s) == Some([16 * DigitValue(s[0]) + DigitValue(s[1])] + ParseHex(s[2..]).value)
  {}

  lemma HexStarts(bytes: seq<byte>)
    requires bytes != []
    ensures var s := Hex(bytes);
      |s| >= 2 && s[0] == Digit(bytes[0] / 16) && s[1] == Digit(bytes[0] % 16) && s[2..] == Hex(bytes[1..])
  {}

  lemma {:induction false} HexRoundTrip(bytes: seq<byte>)
    ensures ParseHex(Hex(bytes)) == Some(bytes)
  {
    if bytes != [] {
      HexRoundTrip(bytes[1..]);
      HexStarts(bytes);
      HexPair(Hex(bytes));
      assert bytes == [bytes[0]] + bytes[1..];
    }
  }

  lemma DecimalDigit(s: string)
    requires |s| > 1 && 0 <= DigitValue(s[|s| - 1]) < 10 && ParseDecimal(s[..|s| - 1]).Some?
    ensures ParseDecimal(s) == Some(10 * ParseDecimal(s[..|s| - 1]).value + DigitValue(s[|s| - 1]))
  {}

  lemma DecimalEnds(n: nat)
    requires n >= 10
    ensures var s := Decimal(n);
      |s| > 1 && s[..|s| - 1] == Decimal(n / 10) && s[|s| - 1] == Digit(n % 10)
  {}

  lemma {:induction false} DecimalRoundTrip(n: nat)
    ensures ParseDecimal(Decimal(n)) == Some(n)
  {
    if n >= 10 {
      DecimalRoundTrip(n / 10);
      DecimalEnds(n);
      DecimalDigit(Decimal(n));
    }
  }

  lemma ConnIDRoundTrip(i: int)
    ensures ParseInt(ConnID(i)) == Some(i)
  {
    if i < 0 {
      DecimalRoundTrip(-i);
      Unsigned(Decimal(-i));
    } else {
      DecimalRoundTrip(i);
    }
  }

  lemma Unsigned(s: string)
    ensures ("-" + s)[0] == '-' && ("-" + s)[1..] == s
  {}

  lemma {:induction false} SplitAtColon(a: string, b: string)
    requires ':' !in b
    ensures SplitLast(a + ":" + b) == Some((a, b))
    decreases |b|
  {
    var s := a + ":" + b;
    if b == [] {
      assert s[..|s| - 1] == a;
    } else {
      var front := b[..|b| - 1];
      SplitAtColon(a, front);
      assert s[..|s| - 1] == a + ":" + front;
      assert b == front + [b[|b| - 1]];
    }
  }

  /** Address and session id can be read off a key, whatever colons the address holds. */
  lemma SessionKeyRoundTrip(addr: string, id: seq<byte>)
    ensures SplitLast(SessionKey(addr, id)) == Some((addr, Hex(id))) && ParseHex(Hex(id)) == Some(id)
  {
    SplitAtColon(addr, Hex(id));
    HexRoundTrip(id);
  }

  lemma HexInjective(a: seq<byte>, b: seq<byte>)
    requires Hex(a) == Hex(b)
    ensures a == b
  {
    HexRoundTrip(a);
    HexRoundTrip(b);
  }

  /** So no two (address, session id) pairs share a key. */
  lemma SessionKeyInjective(addr1: string, id1: seq<byte>, addr2: string, id2: seq<byte>)
    ensures SessionKey(addr1, id1) == SessionKey(addr2, id2) <==> addr1 == addr2 && id1 == id2
  {
    SessionKeyRoundTrip(addr1, id1);
    SessionKeyRoundTrip(addr2, id2);
  }

  lemma ConnIDInjective(i: int, j: int)
    ensures ConnID(i) == ConnID(j) <==> i == j
  {
    ConnIDRoundTrip(i);
    ConnIDRoundTrip(j);
  }

  ghost predicate StrictlyIncreasing(s: seq<nat>) {
    forall i, j :: 0 <= i < j < |s| ==> s[i] < s[j]
  }

  /** The identifiers listed are those of exactly the connected indices below n, in order. */
  ghost predicate Lists<Conn>(conns: map<string, Conn>, n: nat, connIDs: seq<string>, indices: seq<nat>) {
    && |connIDs| == |indices| && (forall k :: 0 <= k < |indices| ==> connIDs[k] == ConnID(indices[k]))
    && StrictlyIncreasing(indices)
    && (forall k :: 0 <= k < |indices| ==> indices[k] < n)
    && (forall i :: 0 <= i < n && ConnID(i) in conns <==> i in indices)
  }

  lemma ListsNext<Conn>(conns: map<string, Conn>, n: nat, id: string, connIDs: seq<string>, indices: seq<nat>)
    requires Lists(conns, n, connIDs, indices) && id == ConnID(n)
    ensures id in conns ==> Lists(conns, n + 1, connIDs + [id], indices + [n])
    ensures id !in conns ==> Lists(conns, n + 1, connIDs, indices)
  {}

  /** The identifiers given to the session are those of exactly the connected indices
      below n, in index order, each once. */
  method DialedConnIDs<Conn>(conns: map<string, Conn>, n: nat) returns (connIDs: seq<string>, ghost indices: seq<nat>)
    ensures |connIDs| == |indices| && forall k :: 0 <= k < |indices| ==> connIDs[k] == ConnID(indices[k])
    ensures StrictlyIncreasing(indices)
    ensures forall i :: 0 <= i < n && ConnID(i) in conns <==> i in indices
    ensures forall c :: c in connIDs <==> c in conns && exists i {:trigger ConnID(i)} :: 0 <= i < n && c == ConnID(i)
    ensures forall j, k :: 0 <= j < k < |connIDs| ==> connIDs[j] != connIDs[k]
  {
    connIDs, indices := [], [];
    for i := 0 to n
      invariant Lists(conns, i, connIDs, indices)
    {
      var id := ConnID(i);
      ListsNext(conns, i, id, connIDs, indices);
      if id in conns {
        connIDs, indices := connIDs + [id], indices + [i];
      }
    }
    ListsConnected(conns, n, connIDs, indices);
  }

  lemma ListsConnected<Conn>(conns: map<string, Conn>, n: nat, connIDs: seq<string>, indices: seq<nat>)
    requires |connIDs| == |indices| && forall k :: 0 <= k < |indices| ==> connIDs[k] == ConnID(indices[k])
    requires StrictlyIncreasing(indices)
    requires forall i :: 0 <= i < n && ConnID(i) in conns <==> i in indices
    ensures forall c :: c in connIDs <==> c in conns && exists i {:trigger ConnID(i)} :: 0 <= i < n && c == ConnID(i)
    ensures forall j, k :: 0 <= j < k < |connIDs| ==> connIDs[j] != connIDs[k]
  {
    forall c | c in connIDs
      ensures c in conns && exists i {:trigger ConnID(i)} :: 0 <= i < n && c == ConnID(i)
    {
      var k :| 0 <= k < |connIDs| && connIDs[k] == c;
      assert indices[k] in indices;
    }
    forall i | 0 <= i < n && ConnID(i) in conns
      ensures ConnID(i) in connIDs
    {
      var k :| 0 <= k < |indices| && indices[k] == i;
      assert connIDs[k] == ConnID(i);
    }
    forall j, k | 0 <= j < k < |connIDs|
      ensures connIDs[j] != connIDs[k]
    {
      ConnIDInjective(indices[j], indices[k]);
    }
  }
}
