/**
 Endless runs: tables stop changing, and under fair delivery they stop at the true distances.
 */
module Convergence {
  import opened Wrappers
  import opened PeerTables
  import opened Walks
  import opened Network
  import opened Optimality

  type Trace = nat -> State

  ghost predicate IsTrace(t: Trace) {
    && Init(t(0))
    && forall i: nat, j: nat :: j == i + 1 ==> Next(t(i), t(j))
  }

  ghost function Prefix(t: Trace, i: nat): (run: seq<State>)
    ensures |run| == i + 1 && forall k :: 0 <= k <= i ==> run[k] == t(k)
  {
    seq(i + 1, k requires k >= 0 => t(k))
  }

  lemma PrefixIsRun(t: Trace, i: nat)
    requires IsTrace(t)
    ensures IsRun(Prefix(t, i))
  {
    var run := Prefix(t, i);
    forall a, b | 0 <= a && b == a + 1 && b < |run|
      ensures Next(run[a], run[b])
    {
      assert Next(t(a), t(b));
    }
  }

  // ---------------------------------------------------------------- the measure

  type Pair = (Node, Node)

  ghost function EntryAt(s: State, p: Pair): Option<int> {
    if p.0 in s.tables && p.1 in s.tables[p.0] then Some(s.tables[p.0][p.1]) else None
  }

  /** How many of the pairs are not listed. */
  ghost function Unknown(s: State, pairs: seq<Pair>): nat {
    if pairs == [] then 0
    else (if EntryAt(s, pairs[0]) == None then 1 else 0) + Unknown(s, pairs[1..])
  }

  /** The sum of all listed weights. */
  ghost function Total(s: State, pairs: seq<Pair>): int {
    if pairs == [] then 0
    else (if EntryAt(s, pairs[0]) == None then 0 else EntryAt(s, pairs[0]).value) + Total(s, pairs[1..])
  }

  ghost predicate AllImprove(s: State, s': State) {
    && s.tables.Keys == s'.tables.Keys
    && forall u :: u in s.tables ==> Improves(s.tables[u], s'.tables[u])
  }

  /** The pair (unknown pairs, sum of weights) never rises, and stands still only when every
      entry does. */
  lemma {:induction false} MeasureFalls(s: State, s': State, pairs: seq<Pair>)
    requires AllImprove(s, s')
    ensures Unknown(s', pairs) <= Unknown(s, pairs)
    ensures Unknown(s', pairs) == Unknown(s, pairs) ==> Total(s', pairs) <= Total(s, pairs)
    ensures Unknown(s', pairs) == Unknown(s, pairs) && Total(s', pairs) == Total(s, pairs) ==>
              forall p :: p in pairs ==> EntryAt(s, p) == EntryAt(s', p)
    decreases |pairs|
  {
    if pairs != [] {
      MeasureFalls(s, s', pairs[1..]);
      var p := pairs[0];
      assert EntryAt(s, p).Some? ==> EntryAt(s', p).Some? && EntryAt(s', p).value <= EntryAt(s, p).value;
    }
  }

  lemma {:induction false} TotalNonNegative(s: State, pairs: seq<Pair>)
    requires Sound(s) && NonNegative(s.links)
    ensures Total(s, pairs) >= 0
    decreases |pairs|
  {
    if pairs != [] {
      TotalNonNegative(s, pairs[1..]);
      var (u, v) := pairs[0];
      if EntryAt(s, (u, v)).Some? {
        assert RowSound(s.links, u, s.tables[u]);
        var p :| IsWalk(s.links, u, v, p) && Length(p) == s.tables[u][v];
        WalkLength(s.links, u, v, p);
      }
    }
  }

  ghost function Enumerate(ps: set<Pair>): (r: seq<Pair>)
    ensures forall p :: p in ps ==> p in r
  {
    if ps == {} then [] else var p :| p in ps; [p] + Enumerate(ps - {p})
  }

  /** Every uuid ever listed, and every node, belongs to the finite set. */
  ghost predicate Within(s: State, nodes: set<Node>) {
    s.tables.Keys <= nodes && forall u :: u in s.tables ==> s.tables[u].Keys <= nodes
  }

  lemma SameEntries(s: State, s': State, nodes: set<Node>, pairs: seq<Pair>)
    requires Within(s, nodes) && Within(s', nodes) && s.tables.Keys == s'.tables.Keys
    requires forall u, v :: u in nodes && v in nodes ==> (u, v) in pairs
    requires forall p :: p in pairs ==> EntryAt(s, p) == EntryAt(s', p)
    ensures s.tables == s'.tables
  {
    forall u | u in s.tables
      ensures s.tables[u] == s'.tables[u]
    {
      forall v
        ensures v in s.tables[u] <==> v in s'.tables[u]
        ensures v in s.tables[u] ==> s.tables[u][v] == s'.tables[u][v]
      {
        if v in nodes {
          assert (u, v) in pairs;
          assert EntryAt(s, (u, v)) == EntryAt(s', (u, v));
        }
      }
    }
  }

  // ---------------------------------------------------------------- termination

  lemma AllImproveStep(s: State, s': State)
    requires Next(s, s')
    ensures AllImprove(s, s')
  {
    var step :| Enabled(s, step) && s' == Apply(s, step);
    StepImproves'(s, step);
    forall u | u in s.tables
      ensures Improves(s.tables[u], s'.tables[u])
    {
      StepImproves(s, step, u);
    }
  }

  lemma StepImproves'(s: State, step: Step)
    requires Enabled(s, step)
    ensures Apply(s, step).tables.Keys == s.tables.Keys
  {
  }

  lemma AllImproveTrans(s: State, s1: State, s2: State)
    requires AllImprove(s, s1) && AllImprove(s1, s2)
    ensures AllImprove(s, s2)
  {
    forall u | u in s.tables
      ensures Improves(s.tables[u], s2.tables[u])
    {
      assert Improves(s.tables[u], s1.tables[u]) && Improves(s1.tables[u], s2.tables[u]);
    }
  }

  lemma AllImproveNext(t: Trace, k: nat)
    requires IsTrace(t)
    ensures AllImprove(t(k), t(k + 1))
  {
    var s, s' := t(k), t(k + 1);
    assert Next(s, s');
    AllImproveStep(s, s');
  }

  lemma AllImproveSame(s: State)
    ensures AllImprove(s, s)
  {
  }

  lemma {:induction false} AllImproveOver(t: Trace, i: nat, k: nat)
    requires IsTrace(t) && i <= k
    ensures AllImprove(t(i), t(k))
    decreases k
  {
    if i == k {
      AllImproveSame(t(i));
    } else {
      var j := k - 1;
      AllImproveOver(t, i, j);
      AllImproveNext(t, j);
      assert t(j + 1) == t(k);
      AllImproveTrans(t(i), t(j), t(k));
    }
  }

  ghost predicate StableFrom(t: Trace, n: nat) {
    forall k: nat :: n <= k ==> t(k).tables == t(n).tables
  }

  /** The finite universe and the costs a trace is assumed to stay in. */
  ghost predicate Bounded(t: Trace, nodes: set<Node>) {
    forall i: nat :: Within(t(i), nodes) && NonNegative(t(i).links)
  }

  ghost predicate AllPairs(nodes: set<Node>, pairs: seq<Pair>) {
    forall u, v :: u in nodes && v in nodes ==> (u, v) in pairs
  }

  lemma SoundAt(t: Trace, i: nat)
    requires IsTrace(t)
    ensures Sound(t(i))
  {
    PrefixIsRun(t, i);
    Soundness(Prefix(t, i), i);
  }

  /** A change of tables between two moments costs some of the measure. */
  lemma ChangeCosts(t: Trace, nodes: set<Node>, pairs: seq<Pair>, i: nat, k: nat)
    requires IsTrace(t) && Bounded(t, nodes) && AllPairs(nodes, pairs)
    requires i <= k && t(k).tables != t(i).tables
    ensures Unknown(t(k), pairs) < Unknown(t(i), pairs)
            || (Unknown(t(k), pairs) == Unknown(t(i), pairs) && 0 <= Total(t(k), pairs) < Total(t(i), pairs))
  {
    AllImproveOver(t, i, k);
    MeasureFalls(t(i), t(k), pairs);
    SoundAt(t, k);
    TotalNonNegative(t(k), pairs);
    if Unknown(t(k), pairs) == Unknown(t(i), pairs) && Total(t(k), pairs) == Total(t(i), pairs) {
      SameEntries(t(i), t(k), nodes, pairs);
    }
  }

  lemma {:induction false} Settles(t: Trace, nodes: set<Node>, pairs: seq<Pair>, i: nat) returns (n: nat)
    requires IsTrace(t) && Bounded(t, nodes) && AllPairs(nodes, pairs)
    ensures i <= n && StableFrom(t, n)
    decreases Unknown(t(i), pairs), Total(t(i), pairs)
  {
    if k: nat :| i <= k && t(k).tables != t(i).tables {
      ChangeCosts(t, nodes, pairs, i, k);
      n := Settles(t, nodes, pairs, k);
    } else {
      n := i;
    }
  }

  /** Termination: over a finite set of uuids and non-negative costs, every endless run,
      with any losses, repetitions and added neighbours, has a last change of any table. */
  lemma Termination(t: Trace, nodes: set<Node>)
    requires IsTrace(t) && Bounded(t, nodes)
    ensures exists n: nat :: StableFrom(t, n)
  {
    var all := set u, v | u in nodes && v in nodes :: (u, v);
    var pairs := Enumerate(all);
    assert AllPairs(nodes, pairs) by {
      forall u, v | u in nodes && v in nodes
        ensures (u, v) in pairs
      {
        assert (u, v) in all;
      }
    }
    var n := Settles(t, nodes, pairs, 0);
  }

  // ---------------------------------------------------------------- convergence

  /** Moment `k` takes in, at `v`, a snapshot of `u`'s table that was current no earlier
      than moment `i`. */
  ghost predicate FreshDelivery(t: Trace, i: nat, u: Node, v: Node, j: nat, k: nat, row: Weights) {
    && i <= j <= k && u in t(j).tables
    && var step := Deliver(Message(u, v, t(j).tables[u]), row);
       Enabled(t(k), step) && t(k + 1) == Apply(t(k), step)
  }

  /** Whoever lists a running node keeps getting through to it with newer snapshots. */
  ghost predicate Fair(t: Trace) {
    forall i: nat, u, v :: u in t(i).tables && v in t(i).tables[u] && v in t(i).tables ==>
      exists j: nat, k: nat, row :: FreshDelivery(t, i, u, v, j, k, row)
  }

  /** Where a full relaxation fits, two ways of taking in one snapshot agree. */
  lemma TakenInOnce(w: Weights, m: Message, w1: Weights, w2: Weights)
    requires Fits(w, m.snapshot[m.src := 0], m.dst)
    requires TakenIn(w, m, w1) && TakenIn(w, m, w2)
    ensures w1 == w2
  {
  }

  /** A delivery that leaves the tables as they are wrote back the row it found. */
  lemma IdleDelivery(s: State, m: Message, row: Weights)
    requires Enabled(s, Deliver(m, row)) && Apply(s, Deliver(m, row)).tables == s.tables
    ensures TakenIn(s.tables[m.dst], m, s.tables[m.dst])
  {
    assert Apply(s, Deliver(m, row)).tables[m.dst] == row;
  }

  lemma StableDeliveryChangesNothing(t: Trace, n: nat, u: Node, v: Node, w: Weights)
    requires StableFrom(t, n) && Fair(t)
    requires Small(t(n)) && RowsInside(t(n))
    requires u in t(n).tables && v in t(n).tables[u] && v in t(n).tables
    requires TakenIn(t(n).tables[v], Message(u, v, t(n).tables[u]), w)
    ensures w == t(n).tables[v]
  {
    hide TakenIn, Fits, Small, RowsInside, StableFrom, FreshDelivery;
    var j: nat, k: nat, row :| FreshDelivery(t, n, u, v, j, k, row);
    FreshIsIdle(t, n, u, v, j, k, row);
    SmallFits(t(n), u, v);
    TakenInOnce(t(n).tables[v], Message(u, v, t(n).tables[u]), w, t(n).tables[v]);
  }

  /** In a stable trace a fresh delivery writes back the row it found. */
  lemma FreshIsIdle(t: Trace, n: nat, u: Node, v: Node, j: nat, k: nat, row: Weights)
    requires StableFrom(t, n) && FreshDelivery(t, n, u, v, j, k, row)
    requires u in t(n).tables && v in t(n).tables
    ensures TakenIn(t(n).tables[v], Message(u, v, t(n).tables[u]), t(n).tables[v])
  {
    hide TakenIn, Apply, Enabled;
    assert t(j).tables == t(n).tables && t(k).tables == t(n).tables && t(k + 1).tables == t(n).tables;
    IdleDelivery(t(k), Message(u, v, t(n).tables[u]), row);
  }

  lemma StableQuiescent(t: Trace, n: nat)
    requires IsTrace(t) && StableFrom(t, n) && Fair(t) && Small(t(n))
    ensures Quiescent(t(n))
  {
    PrefixIsRun(t, n);
    RowsInsideAlways(Prefix(t, n), n);
    var s := t(n);
    forall u, v, w | u in s.tables && v in s.tables[u] && v in s.tables
                     && TakenIn(s.tables[v], Message(u, v, s.tables[u]), w)
      ensures w == s.tables[v]
    {
      StableDeliveryChangesNothing(t, n, u, v, w);
    }
  }

  /** At rest, and right exactly if both ends of every link value it at no more than its cost. */
  ghost predicate AtRest(s: State) {
    Quiescent(s) && (Optimal(s) <==> BackLinksHeld(s))
  }

  /** In a network of at most 51 running nodes with positive costs, every fair run reaches a
      moment from which on no table changes, all are at rest, and they hold the true distances
      exactly if both ends of every link value it. */
  lemma ComesToRest(t: Trace)
    requires IsTrace(t) && Fair(t)
    requires forall i: nat :: Small(t(i))
    ensures exists n: nat :: StableFrom(t, n) && forall k: nat :: n <= k ==> AtRest(t(k))
  {
    AlwaysBounded(t);
    Termination(t, t(0).tables.Keys);
    var n: nat :| StableFrom(t, n);
    forall k: nat | n <= k
      ensures AtRest(t(k))
    {
      RestLater(t, n, k);
    }
  }

  lemma RestLater(t: Trace, n: nat, k: nat)
    requires IsTrace(t) && Fair(t) && n <= k && StableFrom(t, n) && Small(t(k))
    ensures AtRest(t(k))
  {
    StableLater(t, n, k);
    StableQuiescent(t, k);
    PrefixIsRun(t, k);
    QuiescentOptimalIff(Prefix(t, k), k);
  }

  lemma StableLater(t: Trace, n: nat, k: nat)
    requires n <= k && StableFrom(t, n)
    ensures StableFrom(t, k)
  {
    forall i: nat | k <= i
      ensures t(i).tables == t(k).tables
    {
      assert t(i).tables == t(n).tables && t(k).tables == t(n).tables;
    }
  }

  /** Convergence: where the links end up configured at both ends, every fair run reaches a
      moment from which on all tables hold exactly the true distances to exactly the reachable
      nodes. */
  lemma Converges(t: Trace, settled: nat)
    requires IsTrace(t) && Fair(t)
    requires forall i: nat :: Small(t(i))
    requires forall i: nat :: settled <= i ==> Symmetric(t(i).links)
    ensures exists n: nat :: StableFrom(t, n) && forall k: nat :: n <= k ==> Optimal(t(k))
  {
    hide IsTrace, Fair, Small, Symmetric, AtRest, Optimal;
    ComesToRest(t);
    var m: nat :| StableFrom(t, m) && forall k: nat :: m <= k ==> AtRest(t(k));
    var n := if settled <= m then m else settled;
    StableLater(t, m, n);
    forall k: nat | n <= k
      ensures Optimal(t(k))
    {
      OptimalThen(t, k);
    }
  }

  lemma OptimalThen(t: Trace, k: nat)
    requires IsTrace(t) && Small(t(k)) && AtRest(t(k)) && Symmetric(t(k).links)
    ensures Optimal(t(k))
  {
    PrefixIsRun(t, k);
    SymmetricOptimal(Prefix(t, k), k);
  }

  lemma AlwaysBounded(t: Trace)
    requires IsTrace(t) && forall i: nat :: Small(t(i))
    ensures Bounded(t, t(0).tables.Keys)
  {
    forall i: nat
      ensures Within(t(i), t(0).tables.Keys) && NonNegative(t(i).links)
    {
      AllImproveOver(t, 0, i);
      PrefixIsRun(t, i);
      RowsInsideAlways(Prefix(t, i), i);
      assert Small(t(i));
    }
  }
}
