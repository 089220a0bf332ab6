/**
 Many nodes exchanging advertisements.

 Every node keeps a table from uuids to weights. It repeatedly POSTs a snapshot of its
 whole table to each uuid it lists; a snapshot may be lost, delayed, overtaken or taken in
 twice; neighbours may be added at any time. The repository calls this link-state, but what
 the code runs is asynchronous distance-vector routing.

 A delivery is what the handler does where no uuid of the two tables is a prefix of another (as
 `HandlerDelivers` and the handlers say), as between uuids of one length: with other uuids the hash
 table takes one for another, and these runs do not describe the code.
 */
module Network {
  import opened PeerTables
  import opened Walks

  /** A snapshot of `src`'s table on its way to `dst`. */
  datatype Message = Message(src: Node, dst: Node, snapshot: Weights)

  /** `links` remembers every neighbour ever configured or added, `sent` every snapshot ever
      posted: delivering takes nothing away, so any delay, order or repetition is covered. */
  datatype State = State(tables: map<Node, Weights>, links: Links, sent: set<Message>)

  ghost predicate Init(s: State) {
    && s.sent == {}
    && s.links == (set u, v | u in s.tables && v in s.tables[u] :: Link(u, v, s.tables[u][v]))
  }

  /** What a node makes of one snapshot. */
  ghost predicate TakenIn(w: Weights, m: Message, w': Weights) {
    var adv := m.snapshot[m.src := 0];
    var given := Given(w, adv, m.dst, m.src);
    && Received(w, given, adv, m.dst, m.src, w')
    && (Fits(w, adv, m.dst) ==> w' == Relax(w, given, adv, m.dst, m.src))
  }

  datatype Step =
    | Idle
    | Post(u: Node, v: Node)                  // check_peer_status posts u's table to a uuid it lists
    | Deliver(m: Message, row: Weights)       // the /link-state handler takes in a snapshot
    | AddNeighbor(u: Node, v: Node, c: int)   // /peer/addneighbor, where it is not refused

  ghost predicate Enabled(s: State, step: Step) {
    match step
    case Idle => true
    case Post(u, v) => u in s.tables && v in s.tables[u]
    case Deliver(m, row) => m in s.sent && m.dst in s.tables && TakenIn(s.tables[m.dst], m, row)
    case AddNeighbor(u, v, c) => u in s.tables && v !in s.tables[u] && |s.tables[u]| < MAX_PEERS
  }

  ghost function Apply(s: State, step: Step): State
    requires Enabled(s, step)
  {
    match step
    case Idle => s
    case Post(u, v) => s.(sent := s.sent + {Message(u, v, s.tables[u])})
    case Deliver(m, row) => s.(tables := s.tables[m.dst := row])
    case AddNeighbor(u, v, c) =>
      s.(tables := s.tables[u := s.tables[u][v := c]], links := s.links + {Link(u, v, c)})
  }

  ghost predicate Next(s: State, s': State) {
    exists step :: Enabled(s, step) && s' == Apply(s, step)
  }

  ghost predicate IsRun(run: seq<State>) {
    && run != [] && Init(run[0])
    && forall i, j :: 0 <= i && j == i + 1 && j < |run| ==> Next(run[i], run[j])
  }

  /** The handler's array-level outcome is a delivery of the sender's table. */
  lemma HandlerDelivers(was: Table, now: Table, self: Peer, t: Table, me: string)
    requires Distinct(t) && self.weight == 0
    requires var adv := WeightMap(Advert(self, t));
             RelaxedBy(was, now, Given(WeightsOf(was), adv, me, self.uuid), adv, me, self.uuid)
    ensures TakenIn(WeightsOf(was), Message(self.uuid, me, WeightsOf(t)), WeightsOf(now))
  {
    AdvertOfDistinct(self, t);
  }

  // ---------------------------------------------------------------- soundness

  /** Every weight in a table is the cost of some walk. */
  ghost predicate RowSound(links: Links, u: Node, w: Weights) {
    forall v :: v in w ==> Walkable(links, u, v, w[v])
  }

  ghost predicate Sound(s: State) {
    && (forall u :: u in s.tables ==> RowSound(s.links, u, s.tables[u]))
    && (forall m :: m in s.sent ==> m.dst in m.snapshot && RowSound(s.links, m.src, m.snapshot))
  }

  lemma SoundInit(s: State)
    requires Init(s)
    ensures Sound(s)
  {
    forall u, v | u in s.tables && v in s.tables[u]
      ensures Walkable(s.links, u, v, s.tables[u][v])
    {
      OneHop(s.links, Link(u, v, s.tables[u][v]));
    }
  }

  /** The sender is reached at the cost the receiver assumes: by its own entry, or by the
      sender's entry for it walked backwards. A sender always lists whom it posts to. */
  lemma GivenSound(links: Links, w: Weights, m: Message)
    requires RowSound(links, m.dst, w) && RowSound(links, m.src, m.snapshot) && m.dst in m.snapshot
    ensures Walkable(links, m.dst, m.src, Given(w, m.snapshot[m.src := 0], m.dst, m.src))
  {
    if m.src in w && w[m.src] != 0 {
    } else if m.dst == m.src {
      StayPut(links, m.dst);
    } else {
      Backwards(links, m.src, m.dst, m.snapshot[m.dst]);
    }
  }

  lemma TakenInSound(links: Links, w: Weights, m: Message, w': Weights)
    requires RowSound(links, m.dst, w) && RowSound(links, m.src, m.snapshot) && m.dst in m.snapshot
    requires TakenIn(w, m, w')
    ensures RowSound(links, m.dst, w')
  {
    var adv := m.snapshot[m.src := 0];
    var given := Given(w, adv, m.dst, m.src);
    GivenSound(links, w, m);
    forall v | v in w'
      ensures Walkable(links, m.dst, v, w'[v])
    {
      if v !in w || w'[v] != w[v] {
        if v == m.src {
          StayPut(links, v);
        }
        Onwards(links, m.dst, m.src, v, given, adv[v]);
      }
    }
  }

  lemma RowSoundMonotone(links: Links, more: Links, u: Node, w: Weights)
    requires links <= more && RowSound(links, u, w)
    ensures RowSound(more, u, w)
  {
    forall v | v in w
      ensures Walkable(more, u, v, w[v])
    {
      StillWalkable(links, more, u, v, w[v]);
    }
  }

  lemma SoundStep(s: State, step: Step)
    requires Sound(s) && Enabled(s, step)
    ensures Sound(Apply(s, step))
  {
    var s' := Apply(s, step);
    match step
    case Idle =>
    case Post(u, v) =>
    case Deliver(m, row) =>
      TakenInSound(s.links, s.tables[m.dst], m, row);
    case AddNeighbor(u, v, c) =>
      forall x | x in s'.tables
        ensures RowSound(s'.links, x, s'.tables[x])
      {
        RowSoundMonotone(s.links, s'.links, x, s.tables[x]);
        OneHop(s'.links, Link(u, v, c));
      }
      forall m | m in s'.sent
        ensures RowSound(s'.links, m.src, m.snapshot)
      {
        RowSoundMonotone(s.links, s'.links, m.src, m.snapshot);
      }
  }

  /** Soundness over all runs: whatever is lost, repeated, reordered or added, every weight
      at every node is the cost of a walk over links configured or added so far. */
  lemma {:induction false} Soundness(run: seq<State>, i: nat)
    requires IsRun(run) && i < |run|
    ensures Sound(run[i])
    decreases i
  {
    if i == 0 {
      SoundInit(run[0]);
    } else {
      Soundness(run, i - 1);
      assert Next(run[i - 1], run[i]);
      var step :| Enabled(run[i - 1], step) && run[i] == Apply(run[i - 1], step);
      SoundStep(run[i - 1], step);
    }
  }

  /** In particular no weight is ever below the true distance. */
  lemma NeverBelowDistance(run: seq<State>, i: nat, u: Node, v: Node, d: int)
    requires IsRun(run) && i < |run|
    requires u in run[i].tables && v in run[i].tables[u]
    requires IsDistance(run[i].links, u, v, d)
    ensures d <= run[i].tables[u][v]
  {
    Soundness(run, i);
  }
}
