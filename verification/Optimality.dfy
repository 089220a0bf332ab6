/**
 When no further advertisement would change any table, are the weights the true distances?

 They are exactly when every link also costs no more in its backward direction: a sender's
 own entry is never relaxed by its own message, so a link configured at one end only can
 leave the other end with a dearer route for good.
 */
module Optimality {
  import opened PeerTables
  import opened Walks
  import opened Network

  /** A network of at most MAX_PEERS + 1 nodes, all of them running, with positive costs. */
  ghost predicate Small(s: State) {
    && |s.tables.Keys| <= MAX_PEERS + 1
    && Positive(s.links)
    && forall l :: l in s.links ==> l.a != l.b && l.a in s.tables && l.b in s.tables
  }

  /** Tables list only running nodes, never their owner, and snapshots are rows of such tables. */
  ghost predicate RowsInside(s: State) {
    && (forall u :: u in s.tables ==> s.tables[u].Keys <= s.tables.Keys - {u})
    && (forall m :: m in s.sent ==> m.src in s.tables && m.snapshot.Keys <= s.tables.Keys)
  }

  /** A node never forgets a neighbour it was given, nor values it above its cost. */
  ghost predicate OwnLinksHeld(s: State) {
    forall l :: l in s.links ==> l.a in s.tables && l.b in s.tables[l.a] && s.tables[l.a][l.b] <= l.w
  }

  /** Taking in the current table of any node that lists it changes nothing at a node. */
  ghost predicate Quiescent(s: State) {
    forall u, v, w ::
      (u in s.tables && v in s.tables[u] && v in s.tables && TakenIn(s.tables[v], Message(u, v, s.tables[u]), w))
      ==> w == s.tables[v]
  }

  /** The other end of every link values it at no more than its cost. */
  ghost predicate BackLinksHeld(s: State) {
    forall l :: l in s.links && l.b in s.tables && l.a in s.tables[l.b] ==> s.tables[l.b][l.a] <= l.w
  }

  /** Every weight is the true distance, and exactly the reachable nodes are listed. */
  ghost predicate Optimal(s: State) {
    forall u, v :: u in s.tables && v in s.tables && u != v ==> PairOptimal(s, u, v)
  }

  ghost predicate PairOptimal(s: State, u: Node, v: Node)
    requires u in s.tables
  {
    if v in s.tables[u] then IsDistance(s.links, u, v, s.tables[u][v]) else !Connected(s.links, u, v)
  }

  // ---------------------------------------------------------------- what every step keeps

  /** Rows only grow, and weights only fall. */
  ghost predicate Improves(w: Weights, w': Weights) {
    w.Keys <= w'.Keys && forall v :: v in w ==> w'[v] <= w[v]
  }

  lemma TakenInImproves(w: Weights, m: Message, w': Weights)
    requires TakenIn(w, m, w')
    ensures Improves(w, w')
    ensures w'.Keys <= w.Keys + (m.snapshot.Keys + {m.src} - {m.dst})
  {
    assert Received(w, Given(w, m.snapshot[m.src := 0], m.dst, m.src), m.snapshot[m.src := 0], m.dst, m.src, w');
  }

  /** Every step leaves the set of nodes as it is, keeps the links and improves every row. */
  lemma StepImproves(s: State, step: Step, u: Node)
    requires Enabled(s, step) && u in s.tables
    ensures Apply(s, step).tables.Keys == s.tables.Keys && s.links <= Apply(s, step).links
    ensures Improves(s.tables[u], Apply(s, step).tables[u])
  {
    if step.Deliver? {
      TakenInImproves(s.tables[step.m.dst], step.m, step.row);
    }
  }

  lemma OwnLinksStep(s: State, step: Step)
    requires OwnLinksHeld(s) && Enabled(s, step)
    ensures OwnLinksHeld(Apply(s, step))
  {
    var s' := Apply(s, step);
    forall l | l in s'.links
      ensures l.a in s'.tables && l.b in s'.tables[l.a] && s'.tables[l.a][l.b] <= l.w
    {
      if l in s.links {
        StepImproves(s, step, l.a);
      }
    }
  }

  lemma {:induction false} OwnLinksAlways(run: seq<State>, i: nat)
    requires IsRun(run) && i < |run|
    ensures OwnLinksHeld(run[i])
    decreases i
  {
    if i > 0 {
      OwnLinksAlways(run, i - 1);
      assert Next(run[i - 1], run[i]);
      var step :| Enabled(run[i - 1], step) && run[i] == Apply(run[i - 1], step);
      OwnLinksStep(run[i - 1], step);
    }
  }

  lemma RowInsideStep(s: State, step: Step, u: Node)
    requires RowsInside(s) && Enabled(s, step) && Small(Apply(s, step)) && u in s.tables
    ensures Apply(s, step).tables[u].Keys <= s.tables.Keys - {u}
  {
    match step
    case Idle =>
    case Post(x, y) =>
    case Deliver(m, row) =>
      TakenInImproves(s.tables[m.dst], m, row);
    case AddNeighbor(x, y, c) =>
      assert Link(x, y, c) in Apply(s, step).links;
  }

  lemma RowsInsideStep(s: State, step: Step)
    requires RowsInside(s) && Enabled(s, step) && Small(Apply(s, step))
    ensures RowsInside(Apply(s, step))
  {
    var s' := Apply(s, step);
    SmallBefore(s, step);
    forall u | u in s'.tables
      ensures s'.tables[u].Keys <= s'.tables.Keys - {u}
    {
      RowInsideStep(s, step, u);
    }
  }

  lemma SmallBefore(s: State, step: Step)
    requires Enabled(s, step) && Small(Apply(s, step))
    ensures Small(s) && s.tables.Keys == Apply(s, step).tables.Keys
  {
    assert s.tables.Keys == Apply(s, step).tables.Keys;
    assert s.links <= Apply(s, step).links;
  }

  lemma RowsInsideInit(s: State)
    requires Init(s) && Small(s)
    ensures RowsInside(s)
  {
    forall u, v | u in s.tables && v in s.tables[u]
      ensures v in s.tables && v != u
    {
      assert Link(u, v, s.tables[u][v]) in s.links;
    }
  }

  ghost predicate InsideIfSmall(s: State) {
    Small(s) ==> RowsInside(s)
  }

  lemma InsideStep(s: State, s': State)
    requires Next(s, s') && InsideIfSmall(s)
    ensures InsideIfSmall(s')
  {
    var step :| Enabled(s, step) && s' == Apply(s, step);
    if Small(s') {
      SmallBefore(s, step);
      RowsInsideStep(s, step);
    }
  }

  lemma {:induction false} RowsInsideAlways(run: seq<State>, i: nat)
    requires IsRun(run) && i < |run|
    ensures InsideIfSmall(run[i])
    decreases i
  {
    if i == 0 {
      if Small(run[0]) {
        RowsInsideInit(run[0]);
      }
    } else {
      RowsInsideAlways(run, i - 1);
      assert Next(run[i - 1], run[i]);
      InsideStep(run[i - 1], run[i]);
    }
  }

  // ---------------------------------------------------------------- quiescence

  lemma SmallFits(s: State, u: Node, v: Node)
    requires Small(s) && RowsInside(s)
    requires u in s.tables && v in s.tables && v in s.tables[u]
    ensures Fits(s.tables[v], s.tables[u][u := 0], v)
  {
    var row := s.tables[v].Keys + (s.tables[u][u := 0].Keys - {v});
    assert row <= s.tables.Keys - {v};
    SubsetSize(row, s.tables.Keys - {v});
  }

  /** In a quiescent state one more exact relaxation is the identity. */
  lemma QuiescentRelax(s: State, u: Node, v: Node)
    requires Small(s) && RowsInside(s) && Quiescent(s)
    requires u in s.tables && v in s.tables && v in s.tables[u]
    ensures var adv := s.tables[u][u := 0];
            Relax(s.tables[v], Given(s.tables[v], adv, v, u), adv, v, u) == s.tables[v]
  {
    var w, adv := s.tables[v], s.tables[u][u := 0];
    var given := Given(w, adv, v, u);
    SmallFits(s, u, v);
    RelaxIsReceived(w, given, adv, v, u);
    assert TakenIn(w, Message(u, v, s.tables[u]), Relax(w, given, adv, v, u));
  }

  /** In a quiescent state listing is mutual and no listed route can be shortened. */
  lemma QuiescentRow(s: State, u: Node, v: Node, x: Node)
    requires Small(s) && RowsInside(s) && Sound(s) && Quiescent(s)
    requires u in s.tables && v in s.tables && v in s.tables[u]
    ensures u in s.tables[v]
    ensures x in s.tables[u] && x != v ==> x in s.tables[v] && s.tables[v][x] <= s.tables[v][u] + s.tables[u][x]
  {
    QuiescentRelax(s, u, v);
    assert s.tables[u].Keys <= s.tables.Keys - {u};
    var w, adv := s.tables[v], s.tables[u][u := 0];
    assert u in Relax(w, Given(w, adv, v, u), adv, v, u);
    RowPositive(s, v, u);
    RelaxedEntry(w, adv, v, u, x);
  }

  lemma RelaxedEntry(w: Weights, adv: Weights, v: Node, u: Node, x: Node)
    requires u in w && w[u] > 0 && Relax(w, Given(w, adv, v, u), adv, v, u) == w
    ensures x in adv && x != v && x != u ==> x in w && w[x] <= w[u] + adv[x]
  {
    assert x in adv && x != v ==> x in Relax(w, w[u], adv, v, u);
  }

  lemma RowPositive(s: State, u: Node, v: Node)
    requires Positive(s.links) && Sound(s) && u in s.tables && v in s.tables[u] && u != v
    ensures s.tables[u][v] > 0
  {
    assert RowSound(s.links, u, s.tables[u]);
    var p :| IsWalk(s.links, u, v, p) && Length(p) == s.tables[u][v];
    WalkLength(s.links, u, v, p);
  }

  /** No walk is cheaper than the listed weight: induction over the walk, hop by hop. */
  lemma {:induction false} WalksCostMore(s: State, a: Node, b: Node, p: seq<Link>)
    requires Small(s) && RowsInside(s) && Sound(s) && OwnLinksHeld(s) && Quiescent(s) && BackLinksHeld(s)
    requires IsWalk(s.links, a, b, p) && a != b
    ensures a in s.tables && b in s.tables && b in s.tables[a] && s.tables[a][b] <= Length(p)
    decreases |p|
  {
    var c := p[0].b;
    HopListed(s, p[0]);
    WalkLength(s.links, c, b, p[1..]);
    if c != b {
      WalksCostMore(s, c, b, p[1..]);
      QuiescentRow(s, a, c, b);
      QuiescentRow(s, c, a, b);
    }
  }

  lemma HopListed(s: State, l: Link)
    requires Small(s) && RowsInside(s) && Sound(s) && OwnLinksHeld(s) && Quiescent(s) && BackLinksHeld(s)
    requires Hop(s.links, l)
    ensures l.a in s.tables && l.b in s.tables && l.b in s.tables[l.a] && s.tables[l.a][l.b] <= l.w
  {
    if l !in s.links {
      QuiescentRow(s, l.b, l.a, l.b);
    }
  }

  /** The exact condition: a quiescent state of any run has the true distances in every
      table if and only if every link is valued at no more than its cost at both ends. */
  lemma QuiescentOptimalIff(run: seq<State>, i: nat)
    requires IsRun(run) && i < |run| && Small(run[i]) && Quiescent(run[i])
    ensures Optimal(run[i]) <==> BackLinksHeld(run[i])
  {
    var s := run[i];
    Soundness(run, i);
    OwnLinksAlways(run, i);
    RowsInsideAlways(run, i);
    if BackLinksHeld(s) {
      BackLinksOptimal(s);
    }
    if Optimal(s) {
      OptimalBackLinks(s);
    }
  }

  lemma WalkableCostsMore(s: State, u: Node, v: Node, c: int)
    requires Small(s) && RowsInside(s) && Sound(s) && OwnLinksHeld(s) && Quiescent(s) && BackLinksHeld(s)
    requires u != v && Walkable(s.links, u, v, c)
    ensures u in s.tables && v in s.tables[u] && s.tables[u][v] <= c
  {
    var p :| IsWalk(s.links, u, v, p) && Length(p) == c;
    WalksCostMore(s, u, v, p);
  }

  lemma PairIsOptimal(s: State, u: Node, v: Node)
    requires Small(s) && RowsInside(s) && Sound(s) && OwnLinksHeld(s) && Quiescent(s) && BackLinksHeld(s)
    requires u in s.tables && v in s.tables && u != v
    ensures PairOptimal(s, u, v)
  {
    forall c | Walkable(s.links, u, v, c)
      ensures v in s.tables[u] && s.tables[u][v] <= c
    {
      WalkableCostsMore(s, u, v, c);
    }
    assert RowSound(s.links, u, s.tables[u]);
  }

  lemma BackLinksOptimal(s: State)
    requires Small(s) && RowsInside(s) && Sound(s) && OwnLinksHeld(s) && Quiescent(s) && BackLinksHeld(s)
    ensures Optimal(s)
  {
    forall u, v | u in s.tables && v in s.tables && u != v
      ensures PairOptimal(s, u, v)
    {
      PairIsOptimal(s, u, v);
    }
  }

  lemma OptimalBackLinks(s: State)
    requires Small(s) && Optimal(s)
    ensures BackLinksHeld(s)
  {
    forall l | l in s.links && l.b in s.tables && l.a in s.tables[l.b]
      ensures s.tables[l.b][l.a] <= l.w
    {
      OneHop(s.links, Link(l.b, l.a, l.w));
      assert PairOptimal(s, l.b, l.a);
    }
  }

  ghost predicate Symmetric(links: Links) {
    forall l :: l in links ==> Link(l.b, l.a, l.w) in links
  }

  /** Links configured at both ends meet the condition. */
  lemma SymmetricOptimal(run: seq<State>, i: nat)
    requires IsRun(run) && i < |run| && Small(run[i]) && Quiescent(run[i])
    requires Symmetric(run[i].links)
    ensures Optimal(run[i])
  {
    OwnLinksAlways(run, i);
    QuiescentOptimalIff(run, i);
  }
}
