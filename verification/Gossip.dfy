/**
 Many nodes exchanging their file indices. A node scans its content directory, posts the paths
 of its whole index to other nodes, and takes in what it receives; posts may be lost, delayed,
 overtaken or taken in twice.

 Paths are no uuids: one may extend another, as "content/img62" extends "content/img6", and then,
 if both fall into one bucket, the hash table takes the one for the other. The runs below allow
 for that: a path may land on any stored path of its bucket that extends it.
 */
module Gossip {
  import opened Wrappers
  import opened HashTables
  import opened FileIndexes

  type Node = string

  /** MAX_HASHTABLE_SIZE. */
  const SIZE: nat := 100

  /** The paths of the sender's index; holders are not sent. */
  datatype Message = Message(src: Node, paths: set<string>)

  /** `found` remembers every path a node's own scan has met. */
  datatype State = State(index: map<Node, Index>, sent: set<Message>, found: set<(Node, string)>)

  ghost predicate Init(s: State) {
    s.sent == {} && s.found == {} && forall u :: u in s.index ==> s.index[u] == map[]
  }

  function KeysOf(es: Chain<FileInfo>): set<string> {
    set e | e in es :: e.key
  }

  /** The receiver's table of advertised paths: a path that another one extends may be missing. */
  ghost predicate Rebuilt(paths: set<string>, es: Chain<FileInfo>) {
    KeysOf(es) <= paths && forall p :: Outermost(paths, p, SIZE) ==> p in KeysOf(es)
  }

  datatype Step =
    | Scan(u: Node, order: seq<string>)                                  // list_files
    | Post(u: Node)                                                      // check_peer_status
    | Deliver(m: Message, v: Node, es: Chain<FileInfo>, row: Index)      // update_peer_to_files_map

  ghost predicate Enabled(s: State, step: Step) {
    match step
    case Scan(u, _) => u in s.index
    case Post(u) => u in s.index
    case Deliver(m, v, es, row) =>
      m in s.sent && v in s.index && Rebuilt(m.paths, es) && LearnsTo(s.index[v], es, m.src, SIZE, row)
  }

  ghost function Apply(s: State, step: Step): State
    requires Enabled(s, step)
  {
    match step
    case Scan(u, order) =>
      s.(index := s.index[u := EnterAll(s.index[u], order, u, SIZE)],
         found := s.found + (set p | p in order :: (u, p)))
    case Post(u) => s.(sent := s.sent + {Message(u, s.index[u].Keys)})
    case Deliver(m, v, es, row) => s.(index := s.index[v := row])
  }

  ghost predicate Next(s: State, s': State) {
    exists step :: Enabled(s, step) && s' == Apply(s, step)
  }

  ghost predicate IsRun(run: seq<State>) {
    && run != [] && Init(run[0])
    && forall i, j :: 0 <= i && j == i + 1 && j < |run| ==> Next(run[i], run[j])
  }

  /** What the handler does to a node's table is a delivery, for any paths. */
  lemma HandlerDelivers(s: State, m: Message, v: Node, bs: Files, theirs: Files)
    requires m in s.sent && v in s.index && WellPlaced(bs) && |bs| == SIZE && Model(bs) == s.index[v]
    requires Rebuilt(m.paths, Nodes(theirs))
    ensures var step := Deliver(m, v, Nodes(theirs), Model(LearnAll(bs, Nodes(theirs), m.src)));
            && Enabled(s, step)
            && Apply(s, step) == s.(index := s.index[v := Model(LearnAll(bs, Nodes(theirs), m.src))])
  {
    hide Model, LearnAll, LearnsTo;
    LearnAllLands(bs, Nodes(theirs), m.src);
  }

  /** What a scan does to it is a scan. */
  lemma HandlerScans(s: State, u: Node, bs: Files, order: seq<string>)
    requires u in s.index && WellPlaced(bs) && |bs| == SIZE && Model(bs) == s.index[u]
    ensures Apply(s, Scan(u, order)).index == s.index[u := Model(EnterPaths(bs, order, u))]
  {
    hide Model, EnterPaths;
    EnterPathsModel(bs, order, u);
  }

  // ---------------------------------------------------------------- where paths come from

  ghost predicate WasFound(s: State, p: string) {
    exists u :: (u, p) in s.found
  }

  ghost predicate Knows(s: State, u: Node, p: string) {
    u in s.index && p in s.index[u]
  }

  predicate Under(q: string, p: string) {
    q <= p && BucketOf(q, SIZE) == BucketOf(p, SIZE)
  }

  /** The node knows the path or one that it extends, in its bucket. */
  ghost predicate KnowsUnder(s: State, u: Node, p: string) {
    exists q :: Knows(s, u, q) && Under(q, p)
  }

  ghost predicate KnowsOver(s: State, u: Node, p: string) {
    exists q :: Knows(s, u, q) && Under(p, q)
  }

  /** Every path in an index was found by some scan, whoever is named as a holder knows the path
      or one that it extends, and whoever found a path knows it or one that extends it. */
  ghost predicate Traced(s: State) {
    KeysFound(s) && HoldersKnow(s) && SentKnown(s) && FindersKnow(s)
  }

  ghost predicate KeysFound(s: State) {
    forall u, p :: Knows(s, u, p) ==> WasFound(s, p)
  }

  ghost predicate HoldersKnow(s: State) {
    forall u, p, h :: Knows(s, u, p) && h in s.index[u][p].holders ==> KnowsUnder(s, h, p)
  }

  ghost predicate SentKnown(s: State) {
    forall m, p :: m in s.sent && p in m.paths ==> Knows(s, m.src, p)
  }

  ghost predicate FindersKnow(s: State) {
    forall u, p :: (u, p) in s.found ==> KnowsOver(s, u, p)
  }

  /** What is found and known is never forgotten. */
  ghost predicate Grows(s: State, s': State) {
    && s.found <= s'.found && s.index.Keys == s'.index.Keys
    && forall u, p :: Knows(s, u, p) ==> Knows(s', u, p)
  }

  lemma GrowsKeeps(s: State, s': State)
    requires Grows(s, s')
    ensures forall p :: WasFound(s, p) ==> WasFound(s', p)
    ensures forall h, p :: KnowsUnder(s, h, p) ==> KnowsUnder(s', h, p)
    ensures forall h, p :: KnowsOver(s, h, p) ==> KnowsOver(s', h, p)
  {
    forall p | WasFound(s, p)
      ensures WasFound(s', p)
    {
      var u :| (u, p) in s.found;
      assert (u, p) in s'.found;
    }
    forall h, p | KnowsUnder(s, h, p)
      ensures KnowsUnder(s', h, p)
    {
      var q :| Knows(s, h, q) && Under(q, p);
      assert Knows(s', h, q);
    }
    forall h, p | KnowsOver(s, h, p)
      ensures KnowsOver(s', h, p)
    {
      var q :| Knows(s, h, q) && Under(p, q);
      assert Knows(s', h, q);
    }
  }

  /** What landing paths add: keys only of their own, and the sender only where they land. */
  lemma {:induction false} LearnsFrom(m: Index, es: Chain<FileInfo>, uuid: string, m': Index)
    requires LearnsTo(m, es, uuid, SIZE, m')
    ensures m.Keys <= m'.Keys <= m.Keys + KeysOf(es)
    ensures forall p, h :: p in m' && h in m'[p].holders ==>
              (p in m && h in m[p].holders) || (h == uuid && exists q :: q in KeysOf(es) && Under(q, p))
    decreases |es|
  {
    hide Under, BucketOf;
    if es != [] {
      var key := es[0].key;
      var c :|
        && Landing(m, key, c, SIZE)
        && LearnsTo(m[c := Noted(At(m, c), es[0].value, uuid)], es[1..], uuid, SIZE, m');
      LandsUnder(m, key, c);
      hide Landing;
      var m1 := m[c := Noted(At(m, c), es[0].value, uuid)];
      LearnsFrom(m1, es[1..], uuid, m');
      assert KeysOf(es) == {key} + KeysOf(es[1..]);
      forall p, h | p in m' && h in m'[p].holders
        ensures (p in m && h in m[p].holders) || (h == uuid && exists q :: q in KeysOf(es) && Under(q, p))
      {
        if p in m1 && h in m1[p].holders {
          if p == c && h == uuid {
            assert key in KeysOf(es) && Under(key, p);
          }
        } else {
          var q :| q in KeysOf(es[1..]) && Under(q, p);
          assert q in KeysOf(es);
        }
      }
    }
  }

  lemma LandsUnder(m: Index, key: string, c: string)
    requires Landing(m, key, c, SIZE)
    ensures Under(key, c) && (c in m || c == key)
  {
  }

  lemma SentStaysKnown(s: State, s': State)
    requires Grows(s, s') && SentKnown(s) && s'.sent == s.sent
    ensures SentKnown(s')
  {
    forall m, p | m in s'.sent && p in m.paths
      ensures Knows(s', m.src, p)
    {
      assert Knows(s, m.src, p);
    }
  }

  /** The index of one node is replaced by a larger one. */
  lemma RowGrows(s: State, v: Node, row: Index, found: set<(Node, string)>)
    requires v in s.index && s.index[v].Keys <= row.Keys && s.found <= found
    ensures Grows(s, State(s.index[v := row], s.sent, found))
  {
  }

  lemma DeliverTraced(s: State, m: Message, v: Node, es: Chain<FileInfo>, row: Index)
    requires Traced(s) && Enabled(s, Deliver(m, v, es, row))
    ensures Traced(Apply(s, Deliver(m, v, es, row)))
  {
    var s' := Apply(s, Deliver(m, v, es, row));
    LearnsFrom(s.index[v], es, m.src, row);
    RowGrows(s, v, row, s.found);
    DeliverKeys(s, m, v, es, row);
    DeliverHolders(s, m, v, es, row);
    hide LearnsTo, Under, KnowsUnder, KnowsOver, WasFound, Knows, Rebuilt;
    GrowsKeeps(s, s');
    SentStaysKnown(s, s');
  }

  lemma DeliverKeys(s: State, m: Message, v: Node, es: Chain<FileInfo>, row: Index)
    requires SentKnown(s) && KeysFound(s) && m in s.sent && v in s.index && KeysOf(es) <= m.paths
    requires row.Keys <= s.index[v].Keys + KeysOf(es)
    ensures KeysFound(s.(index := s.index[v := row]))
  {
    var s' := s.(index := s.index[v := row]);
    forall u, p | Knows(s', u, p)
      ensures WasFound(s', p)
    {
      assert Knows(s, u, p) || Knows(s, m.src, p);
    }
  }

  lemma DeliverHolders(s: State, m: Message, v: Node, es: Chain<FileInfo>, row: Index)
    requires SentKnown(s) && HoldersKnow(s) && m in s.sent && v in s.index && KeysOf(es) <= m.paths
    requires s.index[v].Keys <= row.Keys
    requires forall p, h :: p in row && h in row[p].holders ==>
               || (p in s.index[v] && h in s.index[v][p].holders)
               || (h == m.src && exists q :: q in KeysOf(es) && Under(q, p))
    ensures HoldersKnow(s.(index := s.index[v := row]))
  {
    hide Under;
    var s' := s.(index := s.index[v := row]);
    RowGrows(s, v, row, s.found);
    GrowsKeeps(s, s');
    forall u, p, h | Knows(s', u, p) && h in s'.index[u][p].holders
      ensures KnowsUnder(s', h, p)
    {
      if Knows(s, u, p) && h in s.index[u][p].holders {
        assert KnowsUnder(s, h, p);
      } else {
        var q :| q in KeysOf(es) && Under(q, p);
        assert Knows(s, m.src, q);
        UnderKnown(s', h, q, p);
      }
    }
  }

  lemma UnderKnown(s: State, h: Node, q: string, p: string)
    requires Knows(s, h, q) && Under(q, p)
    ensures KnowsUnder(s, h, p)
  {
  }

  lemma ScanTraced(s: State, u: Node, order: seq<string>)
    requires Traced(s) && Enabled(s, Scan(u, order))
    ensures Traced(Apply(s, Scan(u, order)))
  {
    var s' := Apply(s, Scan(u, order));
    EnterAllKeeps(s.index[u], order, u, SIZE);
    RowGrows(s, u, EnterAll(s.index[u], order, u, SIZE), s'.found);
    GrowsKeeps(s, s');
    SentStaysKnown(s, s');
    ScanKeys(s, u, order);
    ScanFinds(s, u, order);
  }

  lemma ScanKeys(s: State, u: Node, order: seq<string>)
    requires KeysFound(s) && HoldersKnow(s) && u in s.index
    ensures KeysFound(Apply(s, Scan(u, order))) && HoldersKnow(Apply(s, Scan(u, order)))
  {
    var s' := Apply(s, Scan(u, order));
    EnterAllKeeps(s.index[u], order, u, SIZE);
    RowGrows(s, u, EnterAll(s.index[u], order, u, SIZE), s'.found);
    GrowsKeeps(s, s');
    hide EnterAll, Under;
    forall w, p | Knows(s', w, p)
      ensures WasFound(s', p)
    {
      if !Knows(s, w, p) {
        assert (u, p) in s'.found;
      }
    }
    forall w, p, h | Knows(s', w, p) && h in s'.index[w][p].holders
      ensures KnowsUnder(s', h, p)
    {
      if !Knows(s, w, p) {
        UnderSelf(p);
        UnderKnown(s', h, p, p);
      } else {
        assert s'.index[w][p] == s.index[w][p];
      }
    }
  }

  lemma ScanFinds(s: State, u: Node, order: seq<string>)
    requires FindersKnow(s) && u in s.index && Grows(s, Apply(s, Scan(u, order)))
    ensures FindersKnow(Apply(s, Scan(u, order)))
  {
    var s' := Apply(s, Scan(u, order));
    GrowsKeeps(s, s');
    hide EnterAll, KnowsOver;
    forall w, p | (w, p) in s'.found
      ensures KnowsOver(s', w, p)
    {
      if (w, p) !in s.found {
        MetIsKnown(s, u, order, p);
      }
    }
  }

  lemma UnderSelf(p: string)
    ensures Under(p, p)
  {
  }

  lemma MetIsKnown(s: State, u: Node, order: seq<string>, p: string)
    requires u in s.index && p in order
    ensures KnowsOver(Apply(s, Scan(u, order)), u, p)
  {
    var s' := Apply(s, Scan(u, order));
    hide EnterAll;
    MetIsOver(s.index[u], order, u, p);
    var k :| k in EnterAll(s.index[u], order, u, SIZE) && Under(p, k);
    assert Knows(s', u, k);
  }

  lemma {:induction false} MetIsOver(m: Index, order: seq<string>, uuid: string, p: string)
    requires p in order
    ensures exists k :: k in EnterAll(m, order, uuid, SIZE) && Under(p, k)
    decreases |order|
  {
    var m1 := Enter(m, order[0], uuid, SIZE);
    if p == order[0] {
      var k := FoundUnder(m, p, uuid);
      EnterAllKeeps(m1, order[1..], uuid, SIZE);
      assert k in EnterAll(m, order, uuid, SIZE);
    } else {
      MetIsOver(m1, order[1..], uuid, p);
    }
  }

  lemma FoundUnder(m: Index, p: string, uuid: string) returns (k: string)
    ensures k in Enter(m, p, uuid, SIZE) && Under(p, k)
  {
    if Extended(m.Keys, p, SIZE) {
      k :| k in m.Keys && p <= k && BucketOf(k, SIZE) == BucketOf(p, SIZE);
    } else {
      k := p;
    }
  }

  /** In every run, whatever the paths. */
  lemma {:induction false} AlwaysTraced(run: seq<State>, i: nat)
    requires IsRun(run) && i < |run|
    ensures Traced(run[i])
    decreases i
  {
    if i > 0 {
      AlwaysTraced(run, i - 1);
      var s, s' := run[i - 1], run[i];
      assert Next(s, s');
      var step :| Enabled(s, step) && s' == Apply(s, step);
      match step
      case Scan(u, order) => ScanTraced(s, u, order);
      case Deliver(m, v, es, row) => DeliverTraced(s, m, v, es, row);
      case Post(u) => PostTraced(s, u);
    }
  }

  lemma PostTraced(s: State, u: Node)
    requires Traced(s) && Enabled(s, Post(u))
    ensures Traced(Apply(s, Post(u)))
  {
    var s' := Apply(s, Post(u));
    hide Under, KnowsUnder, KnowsOver, WasFound;
    assert Grows(s, s');
    GrowsKeeps(s, s');
    forall w, p | Knows(s', w, p)
      ensures Knows(s, w, p)
    {
    }
  }

  // ---------------------------------------------------------------- where no path is in the way

  ghost function FoundPaths(s: State): set<string> {
    set f | f in s.found :: f.1
  }

  /** No path that was found extends another one of its bucket. */
  ghost predicate Apart(s: State) {
    BucketApart(FoundPaths(s), SIZE)
  }

  /** Then holders know the very path, and finders know what they have found. */
  lemma TracedApart(run: seq<State>, i: nat)
    requires IsRun(run) && i < |run| && Apart(run[i])
    ensures forall u, p, h :: Knows(run[i], u, p) && h in run[i].index[u][p].holders ==> Knows(run[i], h, p)
    ensures forall u, p :: (u, p) in run[i].found ==> Knows(run[i], u, p)
    ensures forall u, p :: Knows(run[i], u, p) ==> p in FoundPaths(run[i])
  {
    AlwaysTraced(run, i);
    hide IsRun;
    ApartTraced(run[i]);
  }

  lemma ApartTraced(s: State)
    requires Traced(s) && Apart(s)
    ensures forall u, p, h :: Knows(s, u, p) && h in s.index[u][p].holders ==> Knows(s, h, p)
    ensures forall u, p :: (u, p) in s.found ==> Knows(s, u, p)
    ensures forall u, p :: Knows(s, u, p) ==> p in FoundPaths(s)
  {
    hide BucketOf;
    forall u, p | Knows(s, u, p)
      ensures p in FoundPaths(s)
    {
      var w :| (w, p) in s.found;
      assert (w, p).1 in FoundPaths(s);
    }
    forall u, p, h | Knows(s, u, p) && h in s.index[u][p].holders
      ensures Knows(s, h, p)
    {
      assert KnowsUnder(s, h, p);
      var q :| Knows(s, h, q) && Under(q, p);
      assert q in FoundPaths(s) && p in FoundPaths(s);
    }
    forall u, p | (u, p) in s.found
      ensures Knows(s, u, p)
    {
      assert KnowsOver(s, u, p);
      var q :| Knows(s, u, q) && Under(p, q);
      assert (u, p).1 in FoundPaths(s) && q in FoundPaths(s);
    }
  }

  ghost function Last(run: seq<State>): State
    requires IsRun(run)
  {
    run[|run| - 1]
  }

  lemma LastTraced(run: seq<State>)
    requires IsRun(run)
    ensures Traced(Last(run))
  {
    AlwaysTraced(run, |run| - 1);
  }

  lemma Extend(run: seq<State>, step: Step) returns (more: seq<State>)
    requires IsRun(run) && Enabled(Last(run), step)
    ensures IsRun(more) && run <= more && Last(more) == Apply(Last(run), step)
  {
    more := run + [Apply(Last(run), step)];
  }

  lemma {:induction false} Enumerated(ks: set<string>) returns (es: Chain<FileInfo>)
    ensures KeysOf(es) == ks
    decreases ks
  {
    es := [];
    if ks != {} {
      var k :| k in ks;
      var rest := Enumerated(ks - {k});
      es := [Entry(k, FileInfo(k, {}))] + rest;
      assert KeysOf(es) == {k} + KeysOf(rest);
    }
  }

  /** Paths that are not in each other's way land on themselves. */
  lemma {:induction false} LearnsApart(m: Index, es: Chain<FileInfo>, uuid: string, all: set<string>)
    requires m.Keys <= all && KeysOf(es) <= all && BucketApart(all, SIZE)
    ensures LearnsTo(m, es, uuid, SIZE, Learned(m, EntryMap(es), uuid))
    decreases |es|
  {
    hide Learned;
    if es == [] {
      LearnNothing(m, uuid);
    } else {
      var e := es[0];
      assert e.key in KeysOf(es) && KeysOf(es) == {e.key} + KeysOf(es[1..]);
      var m1 := m[e.key := Noted(At(m, e.key), e.value, uuid)];
      LandsOnItself(m, e.key, all);
      LearnCons(m, e.key, e.value, EntryMap(es[1..]), uuid);
      LearnsApart(m1, es[1..], uuid, all);
    }
  }

  lemma LandsOnItself(m: Index, key: string, all: set<string>)
    requires m.Keys <= all && key in all && BucketApart(all, SIZE)
    ensures Landing(m, key, key, SIZE)
  {
  }

  /** Then whoever knows a path can make any other node list it as a holder. */
  lemma Relay(run: seq<State>, u: Node, v: Node, p: string) returns (more: seq<State>)
    requires IsRun(run) && Apart(Last(run)) && Knows(Last(run), u, p) && v in Last(run).index
    ensures IsRun(more) && run <= more && Last(more).found == Last(run).found
    ensures Last(more).index.Keys == Last(run).index.Keys
    ensures Knows(Last(more), v, p) && u in Holders(Last(more).index[v], p)
  {
    AlwaysTraced(run, |run| - 1);
    var s := Last(run);
    hide IsRun, Last, Traced, Apart, LearnsTo, Rebuilt, Apply, Enabled;
    var m, es, row := Delivery(s, u, v, p);
    PostThenDeliver(s, u, v, m, es, row);
    more := Extend(run, Post(u));
    more := Extend(more, Deliver(m, v, es, row));
  }

  lemma PostThenDeliver(s: State, u: Node, v: Node, m: Message, es: Chain<FileInfo>, row: Index)
    requires u in s.index && v in s.index && m == Message(u, s.index[u].Keys)
    requires Rebuilt(m.paths, es) && LearnsTo(s.index[v], es, u, SIZE, row)
    ensures Enabled(s, Post(u)) && Enabled(Apply(s, Post(u)), Deliver(m, v, es, row))
    ensures var s' := Apply(Apply(s, Post(u)), Deliver(m, v, es, row));
            s'.index == s.index[v := row] && s'.found == s.found
  {
  }

  /** A delivery of all that `u` knows, in which every path lands on itself. */
  lemma Delivery(s: State, u: Node, v: Node, p: string) returns (m: Message, es: Chain<FileInfo>, row: Index)
    requires Traced(s) && Apart(s) && Knows(s, u, p) && v in s.index
    ensures m == Message(u, s.index[u].Keys) && Rebuilt(m.paths, es)
    ensures LearnsTo(s.index[v], es, u, SIZE, row)
    ensures p in row && u in Holders(row, p)
  {
    m := Message(u, s.index[u].Keys);
    es := Enumerated(m.paths);
    row := Learned(s.index[v], EntryMap(es), u);
    RowFound(s, u);
    RowFound(s, v);
    RebuiltWhole(es);
    hide Learned, EntryMap, LearnsTo, Traced, Rebuilt;
    LearnsApart(s.index[v], es, u, FoundPaths(s));
    EntryMapKeys(es);
    LearnedHolders(s.index[v], EntryMap(es), u, p);
  }

  lemma RebuiltWhole(es: Chain<FileInfo>)
    ensures Rebuilt(KeysOf(es), es)
  {
  }

  lemma RowFound(s: State, u: Node)
    requires Traced(s) && Apart(s) && u in s.index
    ensures s.index[u].Keys <= FoundPaths(s)
  {
    ApartTraced(s);
    forall p | p in s.index[u]
      ensures p in FoundPaths(s)
    {
      assert Knows(s, u, p);
    }
  }

  lemma {:induction false} EntryMapKeys(es: Chain<FileInfo>)
    ensures EntryMap(es).Keys == KeysOf(es)
    decreases |es|
  {
    if es != [] {
      EntryMapKeys(es[1..]);
      assert KeysOf(es) == {es[0].key} + KeysOf(es[1..]);
    }
  }

  // ---------------------------------------------------------------- when a holder has not found the file

  lemma {:induction false} SameNodes(run: seq<State>, i: nat, j: nat)
    requires IsRun(run) && i <= j < |run|
    ensures run[j].index.Keys == run[i].index.Keys
    decreases j
  {
    if i < j {
      SameNodes(run, i, j - 1);
      assert Next(run[j - 1], run[j]);
    }
  }

  /** Some index names a holder whose own scans have not met the path. */
  ghost predicate Misnames(s: State, p: string) {
    exists h, c :: c in s.index && h in Holders(s.index[c], p) && (h, p) !in s.found
  }

  /** The run can go on, without another find, until a holder is named that has not found `p`. */
  ghost predicate CanMisname(run: seq<State>, p: string)
    requires IsRun(run)
  {
    exists more :: IsRun(more) && run <= more && Last(more).found == Last(run).found && Misnames(Last(more), p)
  }

  /** The exact condition, where no found path is in the way of another: some node knows the path,
      and some node of the network has not found it. */
  lemma MisnamedIff(run: seq<State>, p: string)
    requires IsRun(run) && Apart(Last(run))
    ensures CanMisname(run, p) <==>
            && (exists u :: Knows(Last(run), u, p))
            && (exists v :: v in Last(run).index && (v, p) !in Last(run).found)
  {
    if CanMisname(run, p) {
      MisnamedOnly(run, p);
    }
    if u, v :| Knows(Last(run), u, p) && v in Last(run).index && (v, p) !in Last(run).found {
      MisnamedThen(run, u, v, p);
    }
  }

  lemma MisnamedOnly(run: seq<State>, p: string)
    requires IsRun(run) && Apart(Last(run)) && CanMisname(run, p)
    ensures exists u :: Knows(Last(run), u, p)
    ensures exists v :: v in Last(run).index && (v, p) !in Last(run).found
  {
    hide BucketOf, Apart;
    var more :| IsRun(more) && run <= more && Last(more).found == Last(run).found && Misnames(Last(more), p);
    var s := Last(more);
    SameApart(s, Last(run));
    TracedApart(more, |more| - 1);
    TracedApart(run, |run| - 1);
    SameNodes(more, |run| - 1, |more| - 1);
    var h, c :| c in s.index && h in Holders(s.index[c], p) && (h, p) !in s.found;
    assert Knows(s, c, p) && Knows(s, h, p);
    assert p in FoundPaths(s);
    var f :| f in s.found && f.1 == p;
    var u := f.0;
    assert (u, p) == f;
    assert Knows(Last(run), u, p);
  }

  lemma SameApart(s: State, s': State)
    requires s.found == s'.found && Apart(s')
    ensures Apart(s)
  {
  }

  lemma MisnamedThen(run: seq<State>, u: Node, v: Node, p: string)
    requires IsRun(run) && Apart(Last(run))
    requires Knows(Last(run), u, p) && v in Last(run).index && (v, p) !in Last(run).found
    ensures CanMisname(run, p)
  {
    hide IsRun, Last, Holders;
    var first := Relay(run, u, v, p);
    var more := Relay(first, v, v, p);
    assert run <= more;
    assert Misnames(Last(more), p);
  }

  /** A named holder need not have the file: a node passes on what it has learned, and is then
      listed itself. */
  lemma HolderMayNotHold(a: Node, b: Node, c: Node, p: string) returns (run: seq<State>)
    requires a != b
    ensures IsRun(run)
    ensures var s := Last(run); c in s.index && b in Holders(s.index[c], p) && (b, p) !in s.found
  {
    var s0 := State(map[a := map[], b := map[], c := map[]], {}, {});
    run := [s0];
    assert IsRun(run) && Last(run) == s0;
    FirstScan(s0, a, p);
    hide IsRun, Last, Apart, EnterAll;
    run := Extend(run, Scan(a, [p]));
    run := Relay(run, a, b, p);
    run := Relay(run, b, c, p);
  }

  lemma FirstScan(s: State, a: Node, p: string)
    requires Init(s) && a in s.index
    ensures var s' := Apply(s, Scan(a, [p]));
            s'.index == s.index[a := map[p := FileInfo(p, {a})]] && s'.found == {(a, p)} && Apart(s')
  {
    var s' := Apply(s, Scan(a, [p]));
    assert [p][1..] == [] && EnterAll(map[], [p], a, SIZE) == Enter(map[], p, a, SIZE);
    assert s'.found == {(a, p)};
    assert FoundPaths(s') == {p};
  }

  // ---------------------------------------------------------------- where one is

  /** Whoever is named as a holder knows the very path. */
  ghost predicate HoldersExact(s: State) {
    forall u, p, h :: Knows(s, u, p) && h in s.index[u][p].holders ==> Knows(s, h, p)
  }

  /** One node has found the longer path, the other the shorter one and posts it: it is named as a
      holder of the longer path, and the shorter one is never listed. */
  lemma LandsOnTheOther(a: Node, b: Node, p: string, q: string) returns (run: seq<State>)
    requires a != b && p != q && Under(p, q)
    ensures IsRun(run) && FoundPaths(Last(run)) == {p, q}
    ensures Knows(Last(run), a, q) && b in Last(run).index[a][q].holders
    ensures !Knows(Last(run), b, q) && !Knows(Last(run), a, p)
  {
    var s0 := State(map[a := map[], b := map[]], {}, {});
    run := [s0];
    assert IsRun(run) && Last(run) == s0;
    hide IsRun, Last, Knows, FoundPaths;
    var es := [Entry(p, FileInfo(p, {}))];
    var row := map[q := FileInfo(q, {a, b})];
    var m := Message(b, {p});
    var s2 := State(map[a := map[q := FileInfo(q, {a})], b := map[p := FileInfo(p, {b})]], {}, {(a, q), (b, p)});
    TwoScans(s0, a, b, p, q, s2);
    LandsThere(q, a, p, b, es, row);
    RebuiltWhole(es);
    assert KeysOf(es) == {p} && s2.index[b].Keys == {p};
    PostThenDeliver(s2, b, a, m, es, row);
    hide EnterAll, LearnsTo, Rebuilt, Under;
    assert Enabled(s0, Scan(a, [q])) && Enabled(Apply(s0, Scan(a, [q])), Scan(b, [p]));
    hide Enabled, Apply;
    run := Extend(run, Scan(a, [q]));
    run := Extend(run, Scan(b, [p]));
    run := Extend(run, Post(b));
    run := Extend(run, Deliver(m, a, es, row));
    Landed(Last(run), s2, a, b, p, q);
  }

  lemma Landed(s: State, s2: State, a: Node, b: Node, p: string, q: string)
    requires a != b && p != q
    requires s2.index == map[a := map[q := FileInfo(q, {a})], b := map[p := FileInfo(p, {b})]]
    requires s2.found == {(a, q), (b, p)}
    requires s.index == s2.index[a := map[q := FileInfo(q, {a, b})]] && s.found == s2.found
    ensures FoundPaths(s) == {p, q}
    ensures Knows(s, a, q) && b in s.index[a][q].holders && !Knows(s, b, q) && !Knows(s, a, p)
  {
    assert forall f :: f in s.found ==> f.1 in {p, q};
    assert (a, q).1 in FoundPaths(s) && (b, p).1 in FoundPaths(s);
  }

  lemma TwoScans(s: State, a: Node, b: Node, p: string, q: string, s2: State)
    requires s == State(map[a := map[], b := map[]], {}, {}) && a != b
    requires s2 == State(map[a := map[q := FileInfo(q, {a})], b := map[p := FileInfo(p, {b})]], {}, {(a, q), (b, p)})
    ensures Apply(Apply(s, Scan(a, [q])), Scan(b, [p])) == s2
  {
    FirstScan(s, a, q);
    assert [p][1..] == [] && EnterAll(map[], [p], b, SIZE) == Enter(map[], p, b, SIZE);
    var s1 := Apply(s, Scan(a, [q]));
    assert s1.index[b] == map[];
    assert Apply(s1, Scan(b, [p])).found == s2.found;
    assert Apply(s1, Scan(b, [p])).index == s2.index;
  }

  lemma LandsThere(q: string, a: Node, p: string, b: Node, es: Chain<FileInfo>, row: Index)
    requires Under(p, q) && es == [Entry(p, FileInfo(p, {}))] && row == map[q := FileInfo(q, {a, b})]
    ensures LearnsTo(map[q := FileInfo(q, {a})], es, b, SIZE, row)
  {
    var m: Index := map[q := FileInfo(q, {a})];
    assert q in m.Keys && Extended(m.Keys, p, SIZE);
    assert Landing(m, p, q, SIZE);
    var m' := m[q := Noted(At(m, q), es[0].value, b)];
    assert {a} + {b} == {a, b} && m' == row;
    assert es[1..] == [] && LearnsTo(m', es[1..], b, SIZE, row);
  }

  /** The exact condition on paths: in every run in which no others are found, holders know the
      very path they are named for, if and only if no path extends another one of its bucket. */
  lemma HoldersExactIff(ks: set<string>)
    ensures BucketApart(ks, SIZE) <==>
            forall run :: IsRun(run) && FoundPaths(Last(run)) <= ks ==> HoldersExact(Last(run))
  {
    hide IsRun, BucketOf;
    if BucketApart(ks, SIZE) {
      forall run | IsRun(run) && FoundPaths(Last(run)) <= ks
        ensures HoldersExact(Last(run))
      {
        ApartSubset(ks, FoundPaths(Last(run)), SIZE);
        LastTraced(run);
        ApartTraced(Last(run));
      }
    } else {
      var p, q :| p in ks && q in ks && p <= q && BucketOf(p, SIZE) == BucketOf(q, SIZE) && p != q;
      var run := LandsOnTheOther("a", "b", p, q);
      assert !HoldersExact(Last(run));
    }
  }

  const IMG6: string := "content/img6"
  const IMG62: string := "content/img62"

  lemma HashStep(t: string, n: nat, h: int, c: int)
    requires n < |t| && Polynomial(t[..n]) == h && t[n] as int == c < 128
    ensures Polynomial(t[..n + 1]) == h * 31 + c
  {
    assert t[..n + 1][..n] == t[..n];
  }

  lemma ImgHashes(t: string)
    requires |t| == 13
    requires t[0] == 'c' && t[1] == 'o' && t[2] == 'n' && t[3] == 't' && t[4] == 'e' && t[5] == 'n' && t[6] == 't'
    requires t[7] == '/' && t[8] == 'i' && t[9] == 'm' && t[10] == 'g' && t[11] == '6' && t[12] == '2'
    ensures Polynomial(t[..12]) == 2609428126164017321 && Polynomial(t[..13]) == 80892271911084537001
  {
    assert t[..0] == "" && Polynomial("") == 0;
    hide Polynomial;
    HashStep(t, 0, 0, 99);
    HashStep(t, 1, 99, 111);
    HashStep(t, 2, 3180, 110);
    HashStep(t, 3, 98690, 116);
    HashStep(t, 4, 3059506, 101);
    HashStep(t, 5, 94844787, 110);
    HashStep(t, 6, 2940188507, 116);
    HashStep(t, 7, 91145843833, 47);
    HashStep(t, 8, 2825521158870, 105);
    HashStep(t, 9, 87591155925075, 109);
    HashStep(t, 10, 2715325833677434, 103);
    HashStep(t, 11, 84175100844000557, 54);
    HashStep(t, 12, 2609428126164017321, 50);
  }

  /** Both fall into bucket 41. */
  lemma ImgBuckets()
    ensures BucketOf(IMG6, SIZE) == 41 && BucketOf(IMG62, SIZE) == 41 && IMG6 <= IMG62
  {
    hide Polynomial;
    ImgHashes(IMG62);
    assert IMG62[..12] == IMG6 && IMG62[..13] == IMG62;
  }

  /** An instance: two images of the content directory. */
  lemma ImgGoesWrong(a: Node, b: Node) returns (run: seq<State>)
    requires a != b
    ensures IsRun(run) && Knows(Last(run), a, IMG62) && b in Last(run).index[a][IMG62].holders
    ensures !Knows(Last(run), b, IMG62) && !Knows(Last(run), a, IMG6)
  {
    ImgBuckets();
    hide BucketOf;
    run := LandsOnTheOther(a, b, IMG6, IMG62);
  }

  /** And a scan that meets them in this order lists only the longer one. */
  lemma ImgHidden(u: Node)
    ensures EnterAll(map[], [IMG62, IMG6], u, SIZE).Keys == {IMG62}
  {
    ImgBuckets();
    hide BucketOf;
    var ps := [IMG62, IMG6];
    assert ps[1..] == [IMG6] && [IMG6][1..] == [];
    var m := Enter(map[], IMG62, u, SIZE);
    assert IMG62 in m.Keys && Extended(m.Keys, IMG6, SIZE);
    assert Enter(m, IMG6, u, SIZE) == m;
    assert EnterAll(m, [IMG6], u, SIZE) == EnterAll(m, [], u, SIZE);
  }
}
