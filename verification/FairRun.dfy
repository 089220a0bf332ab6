/**
 Fair runs exist: from every initial state one that lets each pair of nodes take its turn, first
 posting and then delivering, over and over.
 */
module FairRuns {
  import opened PeerTables
  import opened Walks
  import opened Network
  import opened Optimality
  import opened Convergence

  /** The message `u` would post to `v` now, and what `v` makes of it. */
  ghost function Current(s: State, u: Node, v: Node): Message
    requires u in s.tables
  {
    Message(u, v, s.tables[u])
  }

  ghost function Row(w: Weights, m: Message): (w': Weights)
    ensures TakenIn(w, m, w')
  {
    var adv := m.snapshot[m.src := 0];
    var given := Given(w, adv, m.dst, m.src);
    RelaxIsReceived(w, given, adv, m.dst, m.src);
    Relax(w, given, adv, m.dst, m.src)
  }

  ghost predicate CanPost(s: State, p: Pair) {
    p.0 in s.tables && p.1 in s.tables[p.0] && p.1 in s.tables
  }

  /** One turn of a pair: the first half posts, the second half delivers. */
  ghost function Turn(s: State, p: Pair, second: bool): Step {
    if !CanPost(s, p) then Idle
    else if !second then Post(p.0, p.1)
    else
      var m := Current(s, p.0, p.1);
      if m in s.sent then Deliver(m, Row(s.tables[p.1], m)) else Idle
  }

  lemma TurnEnabled(s: State, p: Pair, second: bool)
    ensures Enabled(s, Turn(s, p, second))
  {
  }

  /** The pair whose turn it is. */
  function PairAt(pairs: seq<Pair>, i: nat): Pair
    requires pairs != []
  {
    pairs[i / 2 % |pairs|]
  }

  ghost function Moment(s0: State, pairs: seq<Pair>, i: nat): State {
    if i == 0 then s0
    else
      var s := Moment(s0, pairs, i - 1);
      if pairs == [] then s
      else
        var step := Turn(s, PairAt(pairs, i - 1), (i - 1) % 2 == 1);
        TurnEnabled(s, PairAt(pairs, i - 1), (i - 1) % 2 == 1);
        Apply(s, step)
  }

  ghost function Run(s0: State, pairs: seq<Pair>): Trace {
    (i: nat) => Moment(s0, pairs, i)
  }

  lemma RunIsTrace(s0: State, pairs: seq<Pair>)
    requires Init(s0)
    ensures IsTrace(Run(s0, pairs))
  {
    var t := Run(s0, pairs);
    forall i: nat, j: nat | j == i + 1
      ensures Next(t(i), t(j))
    {
      NextMoment(s0, pairs, i);
    }
  }

  lemma NextMoment(s0: State, pairs: seq<Pair>, i: nat)
    ensures Next(Moment(s0, pairs, i), Moment(s0, pairs, i + 1))
  {
    var s := Moment(s0, pairs, i);
    if pairs == [] {
      assert Enabled(s, Idle) && Moment(s0, pairs, i + 1) == Apply(s, Idle);
    } else {
      TurnEnabled(s, PairAt(pairs, i), i % 2 == 1);
    }
  }

  /** The nodes and the links stay the same. */
  lemma {:induction false} SameNetwork(s0: State, pairs: seq<Pair>, i: nat)
    ensures Moment(s0, pairs, i).links == s0.links && Moment(s0, pairs, i).tables.Keys == s0.tables.Keys
    decreases i
  {
    if i > 0 {
      SameNetwork(s0, pairs, i - 1);
    }
  }

  /** When a pair's turn comes, what was just posted is delivered. */
  lemma TurnDelivers(s0: State, pairs: seq<Pair>, k: nat)
    requires pairs != [] && k % 2 == 1 && CanPost(Moment(s0, pairs, k), PairAt(pairs, k))
    ensures var s, p := Moment(s0, pairs, k), PairAt(pairs, k);
            var m := Current(s, p.0, p.1);
            && Enabled(s, Deliver(m, Row(s.tables[p.1], m)))
            && Moment(s0, pairs, k + 1) == Apply(s, Deliver(m, Row(s.tables[p.1], m)))
  {
    hide Row;
    var before, p := Moment(s0, pairs, k - 1), PairAt(pairs, k);
    assert PairAt(pairs, k - 1) == p by {
      assert (k - 1) / 2 == k / 2;
    }
    TurnEnabled(before, p, false);
    assert Moment(s0, pairs, k) == Apply(before, Turn(before, p, false));
    var s := Moment(s0, pairs, k);
    TurnEnabled(s, p, true);
    assert s.tables == before.tables;
    assert Current(s, p.0, p.1) in s.sent;
  }

  /** Every pair's turn comes again and again. */
  lemma TurnComes(pairs: seq<Pair>, q: nat, i: nat) returns (k: nat)
    requires q < |pairs|
    ensures i <= k && k % 2 == 1 && PairAt(pairs, k) == pairs[q]
  {
    var n := |pairs|;
    k := 2 * (n * i + q) + 1;
    assert k / 2 == n * i + q;
    Again(n, i, q);
    assert n * i >= i by {
      AtLeast(n, i);
    }
  }

  lemma Again(n: nat, i: nat, q: nat)
    requires q < n
    ensures (n * i + q) % n == q
  {
    var r := (n * i + q) % n;
    var d := (n * i + q) / n;
    assert n * i + q == n * d + r;
    assert n * (i - d) == r - q;
    if i - d > 0 {
      AtLeast(n, i - d);
    } else if d - i > 0 {
      AtLeast(n, d - i);
    }
  }

  lemma AtLeast(n: nat, i: nat)
    requires n > 0
    ensures n * i >= i && (i > 0 ==> n * i >= n)
  {
  }

  lemma RunIsFair(s0: State, pairs: seq<Pair>)
    requires Init(s0) && AllPairs(s0.tables.Keys, pairs)
    ensures Fair(Run(s0, pairs))
  {
    var t := Run(s0, pairs);
    RunIsTrace(s0, pairs);
    forall i: nat, u, v | u in t(i).tables && v in t(i).tables[u] && v in t(i).tables
      ensures exists j: nat, k: nat, row :: FreshDelivery(t, i, u, v, j, k, row)
    {
      SameNetwork(s0, pairs, i);
      hide FreshDelivery, IsTrace;
      var k, row := PairServed(s0, pairs, i, u, v);
    }
  }

  lemma PairServed(s0: State, pairs: seq<Pair>, i: nat, u: Node, v: Node) returns (k: nat, row: Weights)
    requires IsTrace(Run(s0, pairs)) && (u, v) in pairs
    requires var s := Run(s0, pairs)(i); u in s.tables && v in s.tables[u] && v in s.tables
    ensures FreshDelivery(Run(s0, pairs), i, u, v, k, k, row)
  {
    hide IsTrace, Row, Enabled, Apply, PairAt, Moment, FreshDelivery;
    var q :| 0 <= q < |pairs| && pairs[q] == (u, v);
    k := TurnComes(pairs, q, i);
    StillListed(Run(s0, pairs), i, k, u, v);
    TurnDelivers(s0, pairs, k);
    var s := Moment(s0, pairs, k);
    row := Row(s.tables[v], Current(s, u, v));
    IsFresh(Run(s0, pairs), i, u, v, k, row);
  }

  lemma IsFresh(t: Trace, i: nat, u: Node, v: Node, k: nat, row: Weights)
    requires i <= k && u in t(k).tables
    requires var step := Deliver(Current(t(k), u, v), row);
             Enabled(t(k), step) && t(k + 1) == Apply(t(k), step)
    ensures FreshDelivery(t, i, u, v, k, k, row)
  {
    hide Enabled, Apply;
  }

  lemma StillListed(t: Trace, i: nat, k: nat, u: Node, v: Node)
    requires IsTrace(t) && i <= k && u in t(i).tables && v in t(i).tables[u] && v in t(i).tables
    ensures CanPost(t(k), (u, v))
  {
    AllImproveOver(t, i, k);
    assert Improves(t(i).tables[u], t(k).tables[u]);
  }

  /** From every initial state there is a fair run over its nodes and links. */
  lemma FairRunExists(s0: State) returns (t: Trace)
    requires Init(s0)
    ensures t(0) == s0 && IsTrace(t) && Fair(t)
    ensures forall i: nat :: t(i).links == s0.links && t(i).tables.Keys == s0.tables.Keys
  {
    var nodes := s0.tables.Keys;
    var all := set u, v | u in nodes && v in nodes :: (u, v);
    var pairs := Enumerate(all);
    assert AllPairs(nodes, pairs) by {
      forall u, v | u in nodes && v in nodes
        ensures (u, v) in pairs
      {
        assert (u, v) in all;
      }
    }
    t := Run(s0, pairs);
    RunIsTrace(s0, pairs);
    RunIsFair(s0, pairs);
    forall i: nat
      ensures t(i).links == s0.links && t(i).tables.Keys == s0.tables.Keys
    {
      SameNetwork(s0, pairs, i);
    }
  }

  /** So every network of at most 51 nodes whose links are configured at both ends at positive costs
      has a run that ends with the true distances in all tables. */
  lemma SomeRunConverges(s0: State) returns (t: Trace)
    requires Init(s0) && Small(s0) && Symmetric(s0.links)
    ensures t(0) == s0 && IsTrace(t) && Fair(t)
    ensures exists n: nat :: StableFrom(t, n) && forall k: nat :: n <= k ==> Optimal(t(k))
  {
    t := FairRunExists(s0);
    forall i: nat
      ensures Small(t(i)) && Symmetric(t(i).links)
    {
    }
    hide IsTrace, Fair, Small, Symmetric, Optimal;
    Converges(t, 0);
  }
}
