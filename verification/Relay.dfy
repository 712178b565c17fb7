/** Choosing among measured relay nodes (node.go), over the reals. */
module Relay {

  /** Measured values are non-negative. */
  datatype Node = Node(id: nat, bandwidth: real, delay: real) {
    predicate Measured() {
      bandwidth >= 0.0 && delay >= 0.0
    }

    function Ratio(): real
      requires Measured()
    {
      (bandwidth + 1.0) / (delay + 1.0)
    }
  }

  function Pow4(x: real): real {
    x * x * (x * x)
  }

  type Relay = n: Node | n.Measured() witness Node(0, 0.0, 0.0)

  function Weight(n: Relay): real {
    Pow4(n.Ratio())
  }

  lemma Product(a: real, b: real)
    requires 0.0 < a && 0.0 < b
    ensures 0.0 < a * b
  {}

  lemma SquareMonotone(x: real, y: real)
    requires 0.0 <= x && 0.0 <= y
    ensures x < y <==> x * x < y * y
  {
    assert y * y - x * x == (y - x) * (y + x);
    if x < y {
      Product(y - x, y + x);
    } else if y < x {
      Product(x - y, y + x);
    }
  }

  lemma Pow4Monotone(x: real, y: real)
    requires x > 0.0 && y > 0.0
    ensures Pow4(x) > 0.0
    ensures Pow4(x) < Pow4(y) <==> x < y
  {
    SquareMonotone(0.0, x);
    SquareMonotone(0.0, x * x);
    SquareMonotone(0.0, y);
    SquareMonotone(x, y);
    SquareMonotone(x * x, y * y);
  }

  lemma RatioOrder(m: Relay, n: Relay)
    ensures m.Ratio() > 0.0
    ensures m.Ratio() < n.Ratio() <==> (m.bandwidth + 1.0) * (n.delay + 1.0) < (n.bandwidth + 1.0) * (m.delay + 1.0)
  {
    var a, b, c, d := m.bandwidth + 1.0, m.delay + 1.0, n.bandwidth + 1.0, n.delay + 1.0;
    var x, y := m.Ratio(), n.Ratio();
    assert x * b == a && y * d == c;
    Product(b, d);
    ScaledOrder(x, y, b * d);
    assert x * (b * d) == a * d && y * (b * d) == c * b;
  }

  lemma ScaledOrder(x: real, y: real, k: real)
    requires k > 0.0
    ensures x < y <==> x * k < y * k
  {
    if x < y {
      Product(y - x, k);
    } else if y < x {
      Product(x - y, k);
    }
  }

  /** Weights are positive, and a node weighs more exactly if it has more bandwidth for its delay. */
  lemma WeightOrder(m: Relay, n: Relay)
    ensures Weight(m) > 0.0
    ensures Weight(m) < Weight(n) <==> (m.bandwidth + 1.0) * (n.delay + 1.0) < (n.bandwidth + 1.0) * (m.delay + 1.0)
  {
    var x, y := m.Ratio(), n.Ratio();
    RatioOrder(m, n);
    RatioOrder(n, m);
    Pow4Monotone(x, y);
  }

  function Power(x: real, k: nat): real {
    if k == 0 then 1.0 else x * Power(x, k - 1)
  }

  lemma {:induction false} PowerOfProduct(x: real, y: real, k: nat)
    ensures Power(x * y, k) == Power(x, k) * Power(y, k)
  {
    if k > 0 {
      PowerOfProduct(x, y, k - 1);
      var p, q := Power(x, k - 1), Power(y, k - 1);
      assert (x * y) * (p * q) == (x * p) * (y * q);
    }
  }

  lemma FourthPower(x: real)
    ensures Power(x, 4) == x * x * (x * x)
  {
    assert Power(x, 1) == x;
    assert Power(x, 2) == x * x;
    assert Power(x, 3) == x * (x * x);
  }

  /** The weight is the fourth power of bandwidth over delay, each plus one. */
  lemma WeightIsFourthPower(n: Relay)
    ensures Weight(n) * Power(n.delay + 1.0, 4) == Power(n.bandwidth + 1.0, 4)
  {
    var x, d := n.Ratio(), n.delay + 1.0;
    assert x * d == n.bandwidth + 1.0;
    PowerOfProduct(x, d, 4);
    FourthPower(x);
  }

  // ---- weighted choice ----

  /** Sum of the first n weights. */
  function Prefix(w: seq<real>, n: nat): real
    requires n <= |w|
  {
    if n == 0 then 0.0 else Prefix(w, n - 1) + w[n - 1]
  }

  ghost predicate NonNegative(w: seq<real>) {
    forall i :: 0 <= i < |w| ==> w[i] >= 0.0
  }

  lemma {:induction false} PrefixMonotone(w: seq<real>, i: nat, j: nat)
    requires NonNegative(w) && i <= j <= |w|
    ensures Prefix(w, i) <= Prefix(w, j)
    decreases j
  {
    if i < j {
      PrefixMonotone(w, i, j - 1);
    }
  }

  /** The share of the range that belongs to node i. */
  ghost predicate Owns(w: seq<real>, i: nat, v: real)
    requires i < |w|
  {
    Prefix(w, i) <= v < Prefix(w, i + 1)
  }

  /** The shares partition the range: every value has exactly one owner. */
  lemma SharesPartition(w: seq<real>, v: real)
    requires NonNegative(w) && 0.0 <= v < Prefix(w, |w|)
    ensures exists i :: 0 <= i < |w| && Owns(w, i, v)
    ensures forall i, j :: 0 <= i < |w| && 0 <= j < |w| && Owns(w, i, v) && Owns(w, j, v) ==> i == j
  {
    var k := OwnerBelow(w, v, |w|);
    forall i, j | 0 <= i < |w| && 0 <= j < |w| && Owns(w, i, v) && Owns(w, j, v)
      ensures i == j
    {
      if i < j {
        PrefixMonotone(w, i + 1, j);
      } else if j < i {
        PrefixMonotone(w, j + 1, i);
      }
    }
  }

  lemma {:induction false} OwnerBelow(w: seq<real>, v: real, n: nat) returns (i: nat)
    requires n <= |w| && 0.0 <= v < Prefix(w, n)
    ensures i < n && Owns(w, i, v)
  {
    if v < Prefix(w, n - 1) {
      i := OwnerBelow(w, v, n - 1);
    } else {
      i := n - 1;
    }
  }

  /** sort.Search for the first index whose cumulative weight exceeds v. */
  method Search(cdf: array<real>, v: real) returns (i: nat)
    requires forall j, k :: 0 <= j <= k < cdf.Length ==> cdf[j] <= cdf[k]
    ensures i <= cdf.Length
    ensures forall j :: 0 <= j < i ==> cdf[j] <= v
    ensures forall j :: i <= j < cdf.Length ==> v < cdf[j]
  {
    i := 0;
    var hi := cdf.Length;
    while i < hi
      invariant 0 <= i <= hi <= cdf.Length
      invariant forall j :: 0 <= j < i ==> cdf[j] <= v
      invariant forall j :: hi <= j < cdf.Length ==> v < cdf[j]
    {
      var h := (i + hi) / 2;
      if cdf[h] > v {
        hi := h;
      } else {
        i := h + 1;
      }
    }
  }

  method Cumulate(w: seq<real>) returns (cdf: array<real>)
    requires w != [] && NonNegative(w)
    ensures cdf.Length == |w| && forall j :: 0 <= j < |w| ==> cdf[j] == Prefix(w, j + 1)
    ensures forall j, k :: 0 <= j <= k < cdf.Length ==> cdf[j] <= cdf[k]
  {
    cdf := new real[|w|];
    cdf[0] := w[0];
    assert Prefix(w, 1) == Prefix(w, 0) + w[0];
    for i := 1 to |w|
      invariant forall j :: 0 <= j < i ==> cdf[j] == Prefix(w, j + 1)
    {
      cdf[i] := cdf[i - 1] + w[i];
    }
    forall j, k | 0 <= j <= k < |w|
      ensures cdf[j] <= cdf[k]
    {
      PrefixMonotone(w, j + 1, k + 1);
    }
  }

  /** A uniform draw from [0, 1) scaled to the total weight. */
  function Draw(total: real, u: real): real {
    u * total
  }

  lemma Scaled(total: real, u: real)
    requires 0.0 <= u < 1.0 && total >= 0.0
    ensures 0.0 <= Draw(total, u)
    ensures total > 0.0 ==> Draw(total, u) < total
    ensures total == 0.0 ==> Draw(total, u) == 0.0
  {
    if total > 0.0 {
      Product(1.0 - u, total);
      assert (1.0 - u) * total == total - u * total;
    }
  }

  /** Cumulative weights, a draw, and the owner of the drawn value. On weights that are all zero
      the search runs off the end and wraps to 0. */
  method WeightedChoice(w: seq<real>, u: real) returns (choice: int)
    requires NonNegative(w) && 0.0 <= u < 1.0
    ensures w == [] <==> choice == -1
    ensures w != [] ==> 0 <= choice < |w|
    ensures w != [] && Prefix(w, |w|) > 0.0 ==> Owns(w, choice, Draw(Prefix(w, |w|), u)) && w[choice] > 0.0
    ensures w != [] && Prefix(w, |w|) == 0.0 ==> choice == 0
  {
    if |w| == 0 {
      return -1;
    }
    var cdf := Cumulate(w);
    var total := cdf[cdf.Length - 1];
    PrefixMonotone(w, 0, |w|);
    assert total == Prefix(w, |w|);
    Scaled(total, u);
    var v := Draw(total, u);
    var found := Search(cdf, v);
    FoundOwns(w, cdf[..], v, found);
    Wraps(found, cdf.Length);
    choice := found % cdf.Length;
  }

  lemma FoundOwns(w: seq<real>, cdf: seq<real>, v: real, found: nat)
    requires w != [] && |cdf| == |w| && found <= |w| && 0.0 <= v
    requires forall j :: 0 <= j < |w| ==> cdf[j] == Prefix(w, j + 1)
    requires forall j :: 0 <= j < found ==> cdf[j] <= v
    requires forall j :: found <= j < |w| ==> v < cdf[j]
    ensures found < |w| <==> v < Prefix(w, |w|)
    ensures found < |w| ==> Owns(w, found, v) && w[found] > 0.0
  {
    assert cdf[|w| - 1] == Prefix(w, |w|);
    if found < |w| {
      assert v < cdf[found];
      assert found > 0 ==> cdf[found - 1] <= v;
    }
  }

  lemma Wraps(i: nat, n: nat)
    requires i <= n && n > 0
    ensures i % n == if i == n then 0 else i
  {}

  // ---- ordering ----

  ghost predicate Descending(s: seq<Relay>) {
    forall i, j :: 0 <= i <= j < |s| ==> Weight(s[i]) >= Weight(s[j])
  }

  function Insert(n: Relay, s: seq<Relay>): (r: seq<Relay>)
    ensures multiset(r) == multiset(s) + multiset{n}
  {
    if s == [] then [n]
    else if Weight(n) > Weight(s[0]) then [n] + s
    else
      assert s == [s[0]] + s[1..];
      [s[0]] + Insert(n, s[1..])
  }

  lemma {:induction false} InsertDescending(n: Relay, s: seq<Relay>)
    requires Descending(s)
    ensures Descending(Insert(n, s))
  {
    if s != [] && Weight(n) <= Weight(s[0]) {
      InsertDescending(n, s[1..]);
      var r := Insert(n, s[1..]);
      forall j | 0 <= j < |r|
        ensures Weight(s[0]) >= Weight(r[j])
      {
        assert r[j] in multiset(r);
        assert r[j] == n || r[j] in s[1..];
      }
    }
  }

  /** Some order by descending weight; sort.Sort promises no more. */
  function SortByWeight(s: seq<Relay>): (r: seq<Relay>)
    ensures multiset(r) == multiset(s)
  {
    if s == [] then []
    else
      assert s == [s[0]] + s[1..];
      Insert(s[0], SortByWeight(s[1..]))
  }

  lemma {:induction false} SortDescending(s: seq<Relay>)
    ensures Descending(SortByWeight(s))
  {
    if s != [] {
      SortDescending(s[1..]);
      InsertDescending(s[0], SortByWeight(s[1..]));
    }
  }

  function Weights(s: seq<Relay>): (w: seq<real>)
    ensures |w| == |s| && forall i :: 0 <= i < |s| ==> w[i] == Weight(s[i])
  {
    seq(|s|, i requires 0 <= i < |s| => Weight(s[i]))
  }

  /** Element c moved to the front, the others keeping their order. */
  function ToFront<T>(s: seq<T>, c: nat): seq<T>
    requires c < |s|
  {
    [s[c]] + s[..c] + s[c + 1..]
  }

  /** Bringing the chosen element to the front by neighbour swaps, in place. */
  method BringToFront(a: array<Relay>, choice: int)
    requires choice < a.Length
    modifies a
    ensures choice >= 0 ==> a[..] == ToFront(old(a[..]), choice)
    ensures choice < 0 ==> a[..] == old(a[..])
  {
    var i := choice;
    while i > 0
      invariant choice >= 0 ==> 0 <= i <= choice
      invariant choice < 0 ==> i == choice && a[..] == old(a[..])
      invariant choice >= 0 ==> a[i] == old(a[choice])
      invariant forall j :: 0 <= j < i ==> a[j] == old(a[j])
      invariant forall j :: i < j <= choice ==> a[j] == old(a[j - 1])
      invariant forall j :: choice < j < a.Length && j > 0 && choice >= 0 ==> a[j] == old(a[j])
    {
      a[i - 1], a[i] := a[i], a[i - 1];
      i := i - 1;
    }
  }

  /** Node c is the one a draw of u selects. */
  ghost predicate Drawn(s: seq<Relay>, u: real, c: int) {
    0 <= c < |s| && Owns(Weights(s), c, Draw(Prefix(Weights(s), |s|), u))
  }

  method WeightedRandomChoice(nodes: seq<Relay>, u: real) returns (choice: int)
    requires 0.0 <= u < 1.0
    ensures if nodes == [] then choice == -1 else Drawn(nodes, u, choice)
  {
    PositiveWeights(nodes);
    choice := WeightedChoice(Weights(nodes), u);
  }

  /** `result` is some descending order of `input` with the drawn node brought to the front. */
  ghost predicate DrawnFirst(input: seq<Relay>, result: seq<Relay>, sorted: seq<Relay>, c: nat, u: real) {
    multiset(sorted) == multiset(input) && Descending(sorted) && Drawn(sorted, u, c) && result == ToFront(sorted, c)
  }

  /** The measured nodes end up as a permutation: the drawn node first, and the rest in
      descending weight. `u` is the uniform draw. */
  method SortMeasuredNodes(nodes: array<Relay>, u: real)
    requires 0.0 <= u < 1.0
    modifies nodes
    ensures multiset(nodes[..]) == multiset(old(nodes[..]))
    ensures nodes.Length > 0 ==> Descending(nodes[1..])
    ensures nodes.Length > 0 ==> exists sorted, c :: DrawnFirst(old(nodes[..]), nodes[..], sorted, c, u)
  {
    var sorted := Sort(nodes);
    var choice := WeightedRandomChoice(sorted, u);
    BringToFront(nodes, choice);
    if nodes.Length > 0 {
      FrontPermutes(sorted, choice);
      assert nodes[1..] == nodes[..][1..];
      assert DrawnFirst(old(nodes[..]), nodes[..], sorted, choice, u);
    }
  }

  method Sort(nodes: array<Relay>) returns (sorted: seq<Relay>)
    modifies nodes
    ensures nodes[..] == sorted
    ensures multiset(sorted) == multiset(old(nodes[..])) && Descending(sorted)
  {
    sorted := SortByWeight(nodes[..]);
    SortDescending(nodes[..]);
    assert |multiset(sorted)| == |multiset(nodes[..])|;
    forall i | 0 <= i < nodes.Length {
      nodes[i] := sorted[i];
    }
  }

  lemma {:induction false} PositiveWeights(s: seq<Relay>)
    ensures NonNegative(Weights(s))
    ensures s != [] ==> Prefix(Weights(s), |s|) > 0.0
  {
    forall i | 0 <= i < |s|
      ensures Weights(s)[i] > 0.0
    {
      WeightOrder(s[i], s[i]);
    }
    if s != [] {
      PrefixMonotone(Weights(s), 0, |s| - 1);
    }
  }

  lemma FrontPermutes(s: seq<Relay>, c: nat)
    requires c < |s| && Descending(s)
    ensures multiset(ToFront(s, c)) == multiset(s)
    ensures Descending(ToFront(s, c)[1..])
  {
    assert s == s[..c] + [s[c]] + s[c + 1..];
    assert ToFront(s, c)[1..] == s[..c] + s[c + 1..];
  }
}
